// The approval workflow of src/workflows/approval.ts, on top of the queued state machine.
//
// `submit` and `expire` run without an await up to the first `transition`; from there on the
// queue, other callers and the continuation that queues "done" interleave freely.
module Approval {
  import opened StateMachine

  datatype Stage = Pending | Approved | Rejected | Expired | Finished

  type Approver = string

  datatype Decision = Decision(approver: Approver, approve: bool)

  datatype Request = Request(approvers: seq<Approver>, threshold: int)

  const PLAIN := Rule(false, false)

  const TABLE: Table<Stage> := map[
    (Pending, Approved) := PLAIN,
    (Pending, Rejected) := PLAIN,
    (Pending, Expired) := PLAIN,
    (Approved, Finished) := PLAIN,
    (Rejected, Finished) := PLAIN,
    (Expired, Finished) := PLAIN
  ]

  // `awaiting` holds the outcome calls whose submit or expire has yet to resume and queue "done".
  datatype Workflow = Workflow(machine: Machine<Stage>, decisions: seq<Decision>, awaiting: set<nat>)

  datatype Reply = NotPending | NotAllowed | AlreadyDecided | Recorded | Queued(call: nat)

  // ---------- the steps ----------

  function Opening(): Workflow {
    Workflow(StateMachine.Init(Pending), [], {})
  }

  predicate HasDecided(decisions: seq<Decision>, a: Approver) {
    exists i :: 0 <= i < |decisions| && decisions[i].approver == a
  }

  function Count(decisions: seq<Decision>, approve: bool): nat {
    if decisions == [] then 0
    else
      var last := |decisions| - 1;
      Count(decisions[..last], approve) + if decisions[last].approve == approve then 1 else 0
  }

  function QueueOutcome(w: Workflow, outcome: Stage): Workflow {
    w.(machine := Enqueue(w.machine, outcome), awaiting := w.awaiting + {|w.machine.calls|})
  }

  // `past` says that the deadline parses and has passed.
  function Submit(r: Request, w: Workflow, d: Decision, past: bool): (Workflow, Reply) {
    var queued := Queued(|w.machine.calls|);
    if w.machine.state != Pending then (w, NotPending)
    else if past then (QueueOutcome(w, Expired), queued)
    else if d.approver !in r.approvers then (w, NotAllowed)
    else if HasDecided(w.decisions, d.approver) then (w, AlreadyDecided)
    else
      var w' := w.(decisions := w.decisions + [d]);
      if Count(w'.decisions, false) > 0 then (QueueOutcome(w', Rejected), queued)
      else if Count(w'.decisions, true) >= r.threshold then (QueueOutcome(w', Approved), queued)
      else (w', Recorded)
  }

  function Expire(w: Workflow): Workflow {
    if w.machine.state != Pending then w else QueueOutcome(w, Expired)
  }

  // The caller of an outcome transition resumes: success queues "done", failure propagates.
  function Resume(w: Workflow, c: nat): Workflow
    requires c < |w.machine.calls|
  {
    var w' := w.(awaiting := w.awaiting - {c});
    if w.machine.calls[c].status == Done then w'.(machine := Enqueue(w.machine, Finished)) else w'
  }

  datatype Event = Submitted(d: Decision, past: bool) | ExpireCalled | Ran(i: nat) | Resumed(c: nat)

  predicate Enabled(w: Workflow, e: Event) {
    match e
    case Submitted(_, _) => true
    case ExpireCalled => true
    case Ran(i) => CanStart(w.machine, i)
    case Resumed(c) => c in w.awaiting && c < |w.machine.calls| && Settled(w.machine.calls[c])
  }

  function Apply(r: Request, w: Workflow, e: Event): Workflow
    requires Enabled(w, e)
  {
    match e
    case Submitted(d, past) => Submit(r, w, d, past).0
    case ExpireCalled => Expire(w)
    case Ran(i) => w.(machine := Start(TABLE, w.machine, i))
    case Resumed(c) => Resume(w, c)
  }

  ghost predicate NextState(r: Request, w: Workflow, w': Workflow) {
    exists e :: Enabled(w, e) && w' == Apply(r, w, e)
  }

  ghost predicate IsRun(r: Request, run: seq<Workflow>) {
    && |run| >= 1 && run[0] == Opening()
    && forall n :: 0 < n < |run| ==> NextState(r, run[n - 1], run[n])
  }

  // ---------- what holds ----------

  // Every decision is by an allowed approver, and nobody decides twice.
  ghost predicate OneEach(r: Request, decisions: seq<Decision>) {
    && (forall i :: 0 <= i < |decisions| ==> decisions[i].approver in r.approvers)
    && forall i, j :: 0 <= i < j < |decisions| ==> decisions[i].approver != decisions[j].approver
  }

  function Approvers(decisions: seq<Decision>): set<Approver> {
    set d | d in decisions :: d.approver
  }

  // The first p decisions all approve, and they are enough.
  ghost predicate Carries(r: Request, decisions: seq<Decision>, p: nat) {
    && 0 < p <= |decisions| && r.threshold <= p
    && forall i :: 0 <= i < p ==> decisions[i].approve
  }

  ghost predicate Earned(r: Request, decisions: seq<Decision>) {
    exists p: nat :: Carries(r, decisions, p)
  }

  ghost predicate SomeReject(decisions: seq<Decision>) {
    exists i :: 0 <= i < |decisions| && !decisions[i].approve
  }

  ghost predicate Justified(r: Request, w: Workflow) {
    && OneEach(r, w.decisions)
    && (forall i :: 0 <= i < |w.machine.calls| && w.machine.calls[i].to == Approved ==> Earned(r, w.decisions))
    && (forall i :: 0 <= i < |w.machine.calls| && w.machine.calls[i].to == Rejected ==> SomeReject(w.decisions))
    && forall i :: 0 <= i < |w.machine.calls| ==> w.machine.calls[i].to != Pending
  }

  lemma {:induction false} CountIsZero(decisions: seq<Decision>, approve: bool)
    ensures Count(decisions, approve) == 0 <==> forall i :: 0 <= i < |decisions| ==> decisions[i].approve != approve
  {
    if decisions != [] {
      var last := |decisions| - 1;
      CountIsZero(decisions[..last], approve);
      assert forall i :: 0 <= i < last ==> decisions[..last][i] == decisions[i];
    }
  }

  lemma {:induction false} CountsSum(decisions: seq<Decision>)
    ensures Count(decisions, true) + Count(decisions, false) == |decisions|
  {
    if decisions != [] {
      CountsSum(decisions[..|decisions| - 1]);
    }
  }

  lemma {:induction false} DecisionAdded(r: Request, decisions: seq<Decision>, d: Decision)
    requires OneEach(r, decisions) && d.approver in r.approvers && !HasDecided(decisions, d.approver)
    ensures OneEach(r, decisions + [d])
    ensures Earned(r, decisions) ==> Earned(r, decisions + [d])
    ensures SomeReject(decisions) ==> SomeReject(decisions + [d])
  {
    var more := decisions + [d];
    assert forall i :: 0 <= i < |decisions| ==> more[i] == decisions[i];
    if Earned(r, decisions) {
      var p: nat :| Carries(r, decisions, p);
      assert Carries(r, more, p);
    }
    if SomeReject(decisions) {
      var i :| 0 <= i < |decisions| && !decisions[i].approve;
      assert !more[i].approve;
    }
  }

  // What the counts of submit establish.
  lemma {:induction false} CountsDecide(r: Request, decisions: seq<Decision>)
    ensures Count(decisions, false) > 0 ==> SomeReject(decisions)
    ensures decisions != [] && Count(decisions, false) == 0 && Count(decisions, true) >= r.threshold ==>
              Earned(r, decisions)
  {
    CountIsZero(decisions, false);
    CountsSum(decisions);
    if decisions != [] && Count(decisions, false) == 0 && Count(decisions, true) >= r.threshold {
      assert Carries(r, decisions, |decisions|);
    }
  }

  lemma {:induction false} SubmitJustified(r: Request, w: Workflow, d: Decision, past: bool)
    requires Justified(r, w)
    ensures Justified(r, Submit(r, w, d, past).0)
  {
    if d.approver in r.approvers && !HasDecided(w.decisions, d.approver) {
      DecisionAdded(r, w.decisions, d);
      CountsDecide(r, w.decisions + [d]);
    }
    hide Earned, SomeReject, OneEach, Count, HasDecided;
  }

  lemma {:induction false} StepJustified(r: Request, w: Workflow, e: Event)
    requires Justified(r, w) && Enabled(w, e)
    ensures Justified(r, Apply(r, w, e))
  {
    hide Earned, SomeReject, OneEach;
    if e.Submitted? {
      SubmitJustified(r, w, e.d, e.past);
    }
  }

  // ---------- the outcome is followed by "done" ----------

  predicate NoFinish(m: Machine<Stage>) {
    forall k :: 0 <= k < |m.calls| ==> m.calls[k].to != Finished
  }

  // An outcome call has committed and its caller has yet to queue "done".
  predicate Resumable(m: Machine<Stage>, awaiting: set<nat>, c: nat) {
    c in awaiting && c < |m.calls| && m.calls[c].status == Done
  }

  // Call k is the one and only "done" call: still queued, or committed.
  ghost predicate FinishIs(m: Machine<Stage>, k: nat) {
    && k < |m.calls| && m.calls[k].to == Finished
    && (forall j :: 0 <= j < |m.calls| && m.calls[j].to == Finished ==> j == k)
    && ((m.calls[k].status == Waiting && |m.history| == 1) || (m.calls[k].status == Done && |m.history| == 2))
  }

  ghost predicate Closing(m: Machine<Stage>, awaiting: set<nat>) {
    if NoFinish(m) then
      m.history == [] || (|m.history| == 1 && exists c: nat :: Resumable(m, awaiting, c))
    else
      && (forall c: nat :: !Resumable(m, awaiting, c))
      && exists k: nat :: FinishIs(m, k)
  }

  ghost predicate Tracked(m: Machine<Stage>, awaiting: set<nat>) {
    && (forall c :: c in awaiting ==> c < |m.calls| && m.calls[c].to != Finished)
    && forall i: nat :: i < |m.calls| ==>
         && !m.calls[i].status.Guarding? && !m.calls[i].status.Acting?
         && (m.calls[i].status == Waiting ==> m.calls[i].to == Finished || i in awaiting)
  }

  ghost predicate Orderly(m: Machine<Stage>, awaiting: set<nat>) {
    && Invariant(TABLE, Pending, m)
    && Tracked(m, awaiting)
    && Closing(m, awaiting)
  }

  ghost predicate Sound(r: Request, w: Workflow) {
    Justified(r, w) && Orderly(w.machine, w.awaiting)
  }

  lemma {:induction false} LaterChange(history: seq<Change<Stage>>, state: Stage, n: nat)
    requires IsPath(TABLE, Pending, history, state) && 0 < n < |history|
    ensures history[n].from == history[n - 1].to && history[n].to == Finished && history[n - 1].to != Finished
  {
    assert (history[n - 1].from, history[n - 1].to) in TABLE && (history[n].from, history[n].to) in TABLE;
  }

  lemma {:induction false} AtMostTwo(history: seq<Change<Stage>>, state: Stage)
    requires IsPath(TABLE, Pending, history, state)
    ensures |history| <= 2
  {
    hide IsPath;
    if |history| > 2 {
      LaterChange(history, state, 1);
      LaterChange(history, state, 2);
    }
  }

  // Through this table a path from Pending has at most two steps: an outcome, then "done".
  lemma {:induction false} PathShape(history: seq<Change<Stage>>, state: Stage)
    requires IsPath(TABLE, Pending, history, state)
    ensures |history| <= 2
    ensures |history| == 0 ==> state == Pending
    ensures |history| >= 1 ==> history[0].from == Pending && history[0].to in {Approved, Rejected, Expired}
    ensures |history| == 1 ==> state == history[0].to
    ensures |history| == 2 ==> history[1] == Change(history[0].to, Finished) && state == Finished
  {
    AtMostTwo(history, state);
    assert |history| >= 1 ==> (history[0].from, history[0].to) in TABLE;
    if |history| == 2 {
      LaterChange(history, state, 1);
    }
  }

  lemma {:induction false} SucceededCounts(calls: seq<Call<Stage>>, i: nat)
    requires i < |calls| && calls[i].status == Done
    ensures |Succeeded(calls)| >= 1
  {
    if i < |calls| - 1 {
      SucceededCounts(calls[..|calls| - 1], i);
    }
  }

  lemma {:induction false} TwoSucceeded(calls: seq<Call<Stage>>, i: nat, j: nat)
    requires i < j < |calls| && calls[i].status == Done && calls[j].status == Done
    ensures |Succeeded(calls)| >= 2
  {
    if j < |calls| - 1 {
      TwoSucceeded(calls[..|calls| - 1], i, j);
    } else {
      SucceededCounts(calls[..|calls| - 1], i);
    }
  }

  lemma {:induction false} OnlyOneDone(m: Machine<Stage>, c: nat, j: nat)
    requires Invariant(TABLE, Pending, m) && |m.history| == 1
    requires c < |m.calls| && m.calls[c].status == Done && j < |m.calls| && m.calls[j].status == Done
    ensures j == c
  {
    assert |Succeeded(m.calls)| == 1;
    if j < c {
      TwoSucceeded(m.calls, j, c);
    } else if c < j {
      TwoSucceeded(m.calls, c, j);
    }
  }

  lemma {:induction false} NoneDone(m: Machine<Stage>, c: nat)
    requires Invariant(TABLE, Pending, m) && c < |m.calls| && m.calls[c].status == Done
    ensures m.history != []
  {
    SucceededCounts(m.calls, c);
    assert |Succeeded(m.calls)| == |m.history|;
  }

  lemma {:induction false} EnqueueInvariant(m: Machine<Stage>, to: Stage)
    requires Invariant(TABLE, Pending, m)
    ensures Invariant(TABLE, Pending, Enqueue(m, to))
  {
    hide Invariant, Enqueue;
    assert Step(TABLE, m, Enqueue(m, to));
    StateMachine.StepKeeps(TABLE, Pending, m, Enqueue(m, to));
  }

  lemma {:induction false} OutcomeQueued(m: Machine<Stage>, awaiting: set<nat>, to: Stage)
    requires Orderly(m, awaiting) && to != Finished
    ensures Orderly(Enqueue(m, to), awaiting + {|m.calls|})
  {
    hide Invariant, Closing, Succeeded, IsPath;
    EnqueueInvariant(m, to);
    OutcomeQueuedCloses(m, awaiting, to);
    assert Tracked(m, awaiting);
  }

  lemma {:induction false} OutcomeQueuedCloses(m: Machine<Stage>, awaiting: set<nat>, to: Stage)
    requires Tracked(m, awaiting) && Closing(m, awaiting) && to != Finished
    ensures Closing(Enqueue(m, to), awaiting + {|m.calls|})
  {
    var m', awaiting' := Enqueue(m, to), awaiting + {|m.calls|};
    forall c: nat ensures Resumable(m', awaiting', c) <==> Resumable(m, awaiting, c) {
    }
    if NoFinish(m) {
      assert NoFinish(m');
      hide Tracked, NoFinish;
      if m.history != [] {
        var c: nat :| Resumable(m, awaiting, c);
        assert Resumable(m', awaiting', c);
      }
    } else {
      var k: nat :| FinishIs(m, k);
      assert m'.calls[k] == m.calls[k];
      assert FinishIs(m', k);
      assert !NoFinish(m');
      hide FinishIs, Resumable, Tracked, NoFinish;
    }
  }

  // The caller of the committed outcome queues the one "done" call.
  lemma {:induction false} FinishQueued(m: Machine<Stage>, awaiting: set<nat>, c: nat)
    requires Orderly(m, awaiting) && Resumable(m, awaiting, c)
    ensures Orderly(Enqueue(m, Finished), awaiting - {c})
  {
    NoneDone(m, c);
    EnqueueInvariant(m, Finished);
    forall j: nat | j < |m.calls| && m.calls[j].status == Done ensures j == c {
      OnlyOneDone(m, c, j);
    }
    hide Invariant;
    var m', awaiting' := Enqueue(m, Finished), awaiting - {c};
    assert m'.calls[..|m.calls|] == m.calls && m'.calls[|m.calls|].to == Finished;
    assert FinishIs(m', |m.calls|);
    assert !NoFinish(m');
  }

  lemma {:induction false} FailureResumed(m: Machine<Stage>, awaiting: set<nat>, c: nat)
    requires Orderly(m, awaiting) && c < |m.calls| && m.calls[c].status == Failed
    ensures Orderly(m, awaiting - {c})
  {
    hide Invariant;
    assert forall k: nat :: Resumable(m, awaiting - {c}, k) <==> Resumable(m, awaiting, k);
  }

  // The first outcome call to start commits.
  lemma {:induction false} OutcomeStarts(m: Machine<Stage>, awaiting: set<nat>, i: nat)
    requires Orderly(m, awaiting) && CanStart(m, i) && m.calls[i].to in {Approved, Rejected, Expired}
    requires m.history == [] && m.state == Pending && Invariant(TABLE, Pending, Start(TABLE, m, i))
    ensures Orderly(Start(TABLE, m, i), awaiting)
  {
    hide Invariant;
    var m' := Start(TABLE, m, i);
    assert m' == Commit(m, i);
    assert NoFinish(m) && NoFinish(m');
    assert Resumable(m', awaiting, i);
  }

  // The "done" call commits.
  lemma {:induction false} FinishStarts(m: Machine<Stage>, awaiting: set<nat>, i: nat)
    requires Orderly(m, awaiting) && CanStart(m, i) && m.calls[i].to == Finished
    requires m.state in {Approved, Rejected, Expired} && Invariant(TABLE, Pending, Start(TABLE, m, i))
    ensures Orderly(Start(TABLE, m, i), awaiting)
  {
    hide Invariant;
    var m' := Start(TABLE, m, i);
    assert m' == Commit(m, i);
    var k: nat :| FinishIs(m, k);
    assert FinishIs(m', i);
    forall c: nat ensures !Resumable(m', awaiting, c) {
      assert !Resumable(m, awaiting, c);
    }
    assert !NoFinish(m');
  }

  // Any later outcome call finds its transition missing from the table.
  lemma {:induction false} LateCallStarts(m: Machine<Stage>, awaiting: set<nat>, i: nat)
    requires Orderly(m, awaiting) && CanStart(m, i) && m.calls[i].to != Finished
    requires Start(TABLE, m, i) == WithStatus(m, i, Failed) && Invariant(TABLE, Pending, Start(TABLE, m, i))
    ensures Orderly(Start(TABLE, m, i), awaiting)
  {
    hide Invariant;
    var m' := WithStatus(m, i, Failed);
    assert forall c: nat :: Resumable(m', awaiting, c) <==> Resumable(m, awaiting, c);
    if NoFinish(m) {
      assert NoFinish(m');
    } else {
      var k: nat :| FinishIs(m, k);
      assert FinishIs(m', k) && m'.calls[k].to == Finished;
    }
  }

  lemma {:induction false} StageByLength(m: Machine<Stage>)
    requires Invariant(TABLE, Pending, m)
    ensures m.history == [] ==> m.state == Pending
    ensures |m.history| == 1 ==> m.state in {Approved, Rejected, Expired}
    ensures m.history != [] ==> m.state != Pending
  {
    PathShape(m.history, m.state);
  }

  lemma {:induction false} FinishWaits(m: Machine<Stage>, awaiting: set<nat>, i: nat)
    requires Closing(m, awaiting) && i < |m.calls| && m.calls[i].to == Finished && m.calls[i].status == Waiting
    ensures |m.history| == 1
  {
    assert !NoFinish(m);
    var k: nat :| FinishIs(m, k);
    assert k == i;
  }

  lemma {:induction false} CallStarts(m: Machine<Stage>, awaiting: set<nat>, i: nat)
    requires Orderly(m, awaiting) && CanStart(m, i) && m.calls[i].to != Pending
    ensures Orderly(Start(TABLE, m, i), awaiting)
  {
    hide Invariant, Tracked, Closing;
    StartInvariant(m, i);
    StageByLength(m);
    if m.calls[i].to == Finished {
      FinishWaits(m, awaiting, i);
      FinishStarts(m, awaiting, i);
    } else if m.history == [] {
      OutcomeStarts(m, awaiting, i);
    } else {
      LateCallStarts(m, awaiting, i);
    }
  }

  lemma {:induction false} StartInvariant(m: Machine<Stage>, i: nat)
    requires Invariant(TABLE, Pending, m) && CanStart(m, i)
    ensures Invariant(TABLE, Pending, Start(TABLE, m, i))
  {
    hide Invariant, Start;
    assert CallStep(TABLE, m, Start(TABLE, m, i), i, true);
    assert Step(TABLE, m, Start(TABLE, m, i));
    StateMachine.StepKeeps(TABLE, Pending, m, Start(TABLE, m, i));
  }

  lemma {:induction false} EventSound(r: Request, w: Workflow, e: Event)
    requires Sound(r, w) && Enabled(w, e)
    ensures Sound(r, Apply(r, w, e))
  {
    StepJustified(r, w, e);
    hide Orderly, Count, HasDecided, Enqueue, Start;
    var m, awaiting := w.machine, w.awaiting;
    match e
    case Ran(i) => CallStarts(m, awaiting, i);
    case Resumed(c) =>
      if m.calls[c].status == Done {
        FinishQueued(m, awaiting, c);
      } else {
        FailureResumed(m, awaiting, c);
      }
    case _ =>
      forall to | to in {Approved, Rejected, Expired}
        ensures Orderly(Enqueue(m, to), awaiting + {|m.calls|})
      {
        OutcomeQueued(m, awaiting, to);
      }
  }

  lemma {:induction false} RunSound(r: Request, run: seq<Workflow>, n: nat)
    requires IsRun(r, run) && n < |run|
    ensures Sound(r, run[n])
  {
    if n == 0 {
      assert Targets<Stage>([]) == [];
    } else {
      RunSound(r, run, n - 1);
      hide Sound, Apply, Enabled;
      var e :| Enabled(run[n - 1], e) && run[n] == Apply(r, run[n - 1], e);
      EventSound(r, run[n - 1], e);
    }
  }

  // ---------- the results ----------

  // Under every interleaving the history is a prefix of: Pending to one outcome, outcome to done.
  lemma {:induction false} HistoryShape(r: Request, run: seq<Workflow>, n: nat)
    requires IsRun(r, run) && n < |run|
    ensures var h := run[n].machine.history;
            exists x :: x in {Approved, Rejected, Expired} && h <= [Change(Pending, x), Change(x, Finished)]
  {
    RunSound(r, run, n);
    var h := run[n].machine.history;
    PathShape(h, run[n].machine.state);
    var x := if h == [] then Expired else h[0].to;
    assert x in {Approved, Rejected, Expired} && h <= [Change(Pending, x), Change(x, Finished)];
  }

  lemma {:induction false} SucceededCalled(calls: seq<Call<Stage>>, to: Stage)
    requires to in Succeeded(calls)
    ensures exists i :: 0 <= i < |calls| && calls[i].to == to
  {
    var last := |calls| - 1;
    if calls[last].to != to {
      SucceededCalled(calls[..last], to);
      var i :| 0 <= i < last && calls[..last][i].to == to;
      assert calls[i].to == to;
    }
  }

  // A workflow that ever became "approved" was carried: some prefix of its decisions consists of
  // approvals only, by at least `threshold` different allowed approvers.
  lemma {:induction false} ApprovalIsEarned(r: Request, run: seq<Workflow>, n: nat, k: nat)
    requires IsRun(r, run) && n < |run| && k < |run[n].machine.history| && run[n].machine.history[k].to == Approved
    ensures exists p: nat :: Carries(r, run[n].decisions, p)
                          && |Approvers(run[n].decisions[..p])| == p
                          && forall a :: a in Approvers(run[n].decisions[..p]) ==> a in r.approvers
  {
    RunSound(r, run, n);
    var w := run[n];
    assert Targets(w.machine.history)[k] == Approved;
    SucceededCalled(w.machine.calls, Approved);
    var p: nat :| Carries(r, w.decisions, p);
    DistinctApprovers(r, w.decisions[..p]);
  }

  lemma {:induction false} RejectionIsCast(r: Request, run: seq<Workflow>, n: nat, k: nat)
    requires IsRun(r, run) && n < |run| && k < |run[n].machine.history| && run[n].machine.history[k].to == Rejected
    ensures exists i :: 0 <= i < |run[n].decisions| && !run[n].decisions[i].approve
                     && run[n].decisions[i].approver in r.approvers
  {
    RunSound(r, run, n);
    var w := run[n];
    assert Targets(w.machine.history)[k] == Rejected;
    SucceededCalled(w.machine.calls, Rejected);
    assert SomeReject(w.decisions);
  }

  lemma {:induction false} DistinctApprovers(r: Request, decisions: seq<Decision>)
    requires OneEach(r, decisions)
    ensures |Approvers(decisions)| == |decisions|
    ensures forall a :: a in Approvers(decisions) ==> a in r.approvers
  {
    if decisions != [] {
      var last := |decisions| - 1;
      var front, d := decisions[..last], decisions[last];
      assert decisions == front + [d];
      OneEachFront(r, front, d);
      hide OneEach, Approvers;
      DistinctApprovers(r, front);
    }
  }

  lemma {:induction false} OneEachFront(r: Request, front: seq<Decision>, d: Decision)
    requires OneEach(r, front + [d])
    ensures OneEach(r, front) && d.approver in r.approvers && d.approver !in Approvers(front)
    ensures Approvers(front + [d]) == Approvers(front) + {d.approver}
  {
    var more := front + [d];
    forall i | 0 <= i < |front| ensures front[i].approver in r.approvers && front[i].approver != d.approver {
      assert more[i] == front[i] && more[|front|] == d;
    }
    forall i, j | 0 <= i < j < |front| ensures front[i].approver != front[j].approver {
      assert more[i] == front[i] && more[j] == front[j];
    }
    forall a ensures a in Approvers(more) <==> a in Approvers(front) || a == d.approver {
      assert d in more;
      assert forall e :: e in more <==> e in front || e == d;
    }
  }

  // One rejection among fewer decisions than the threshold keeps the workflow from ever being
  // approved.
  lemma {:induction false} EarlyRejectBlocks(r: Request, run: seq<Workflow>, n: nat, k: nat, q: nat)
    requires IsRun(r, run) && n < |run| && k < |run[n].machine.history|
    requires q < |run[n].decisions| && !run[n].decisions[q].approve && q < r.threshold
    ensures run[n].machine.history[k].to != Approved
  {
    if run[n].machine.history[k].to == Approved {
      ApprovalIsEarned(r, run, n, k);
    }
  }

  // ---------- enough approvals approve ----------

  ghost predicate Called(w: Workflow, to: Stage) {
    exists i :: 0 <= i < |w.machine.calls| && w.machine.calls[i].to == to
  }

  // The decisions so far have queued what they call for.
  ghost predicate Answered(r: Request, w: Workflow) {
    && (Earned(r, w.decisions) ==> Called(w, Approved))
    && (SomeReject(w.decisions) ==> Called(w, Rejected))
  }

  lemma {:induction false} NewEarned(r: Request, decisions: seq<Decision>, d: Decision)
    requires Earned(r, decisions + [d]) && !Earned(r, decisions)
    ensures Count(decisions + [d], false) == 0 && Count(decisions + [d], true) >= r.threshold
  {
    var more := decisions + [d];
    var q: nat :| Carries(r, more, q);
    assert forall i :: 0 <= i < |decisions| ==> decisions[i] == more[i];
    assert q <= |decisions| ==> Carries(r, decisions, q);
    CountIsZero(more, false);
    CountsSum(more);
  }

  lemma {:induction false} NewReject(decisions: seq<Decision>, d: Decision)
    requires SomeReject(decisions + [d]) && !SomeReject(decisions)
    ensures Count(decisions + [d], false) > 0
  {
    CountIsZero(decisions + [d], false);
  }

  lemma {:induction false} CalledStays(w: Workflow, w': Workflow, to: Stage)
    requires Called(w, to) && |w.machine.calls| <= |w'.machine.calls|
    requires forall i :: 0 <= i < |w.machine.calls| ==> w'.machine.calls[i].to == w.machine.calls[i].to
    ensures Called(w', to)
  {
    var i :| 0 <= i < |w.machine.calls| && w.machine.calls[i].to == to;
    assert w'.machine.calls[i].to == to;
  }

  lemma {:induction false} OutcomeCalled(w: Workflow, to: Stage)
    ensures Called(QueueOutcome(w, to), to)
  {
    var w' := QueueOutcome(w, to);
    assert w'.machine.calls[|w.machine.calls|].to == to;
  }

  lemma {:induction false} TargetsStay(r: Request, w: Workflow, e: Event)
    requires Enabled(w, e)
    ensures var w' := Apply(r, w, e);
      && |w.machine.calls| <= |w'.machine.calls|
      && forall i :: 0 <= i < |w.machine.calls| ==> w'.machine.calls[i].to == w.machine.calls[i].to
  {
    hide HasDecided, Count;
  }

  lemma {:induction false} EventAnswered(r: Request, w: Workflow, e: Event)
    requires Answered(r, w) && Enabled(w, e)
    ensures Answered(r, Apply(r, w, e))
  {
    var w' := Apply(r, w, e);
    TargetsStay(r, w, e);
    hide Earned, SomeReject, Called;
    if Earned(r, w.decisions) {
      CalledStays(w, w', Approved);
    }
    if SomeReject(w.decisions) {
      CalledStays(w, w', Rejected);
    }
    if w'.decisions != w.decisions {
      DecisionAnswered(r, w, e.d, e.past);
    }
  }

  lemma {:induction false} DecisionAnswered(r: Request, w: Workflow, d: Decision, past: bool)
    requires Submit(r, w, d, past).0.decisions != w.decisions
    ensures var w' := Submit(r, w, d, past).0;
      && (Earned(r, w'.decisions) && !Earned(r, w.decisions) ==> Called(w', Approved))
      && (SomeReject(w'.decisions) && !SomeReject(w.decisions) ==> Called(w', Rejected))
  {
    hide Earned, SomeReject, Called, Count;
    var more := w.(decisions := w.decisions + [d]);
    OutcomeCalled(more, Approved);
    OutcomeCalled(more, Rejected);
    if Earned(r, more.decisions) && !Earned(r, w.decisions) {
      NewEarned(r, w.decisions, d);
    }
    if SomeReject(more.decisions) && !SomeReject(w.decisions) {
      NewReject(w.decisions, d);
    }
  }

  lemma {:induction false} RunAnswered(r: Request, run: seq<Workflow>, n: nat)
    requires IsRun(r, run) && n < |run|
    ensures Answered(r, run[n])
  {
    if n > 0 {
      RunAnswered(r, run, n - 1);
      hide Answered, Apply, Enabled;
      var e :| Enabled(run[n - 1], e) && run[n] == Apply(r, run[n - 1], e);
      EventAnswered(r, run[n - 1], e);
    }
  }

  // Enough approvals, with no rejection before them, have the approval queued; a rejection has the
  // rejection queued.
  lemma {:induction false} DecisionsAct(r: Request, run: seq<Workflow>, n: nat, p: nat)
    requires IsRun(r, run) && n < |run| && p <= |run[n].decisions|
    requires forall i :: 0 <= i < p ==> run[n].decisions[i].approve
    ensures 0 < p && r.threshold <= p ==>
              exists i :: 0 <= i < |run[n].machine.calls| && run[n].machine.calls[i].to == Approved
    ensures p < |run[n].decisions| && !run[n].decisions[p].approve ==>
              exists i :: 0 <= i < |run[n].machine.calls| && run[n].machine.calls[i].to == Rejected
  {
    RunAnswered(r, run, n);
    assert 0 < p && r.threshold <= p ==> Carries(r, run[n].decisions, p);
  }

  // The first call is for an outcome, and does not fail.
  predicate FirstActs(m: Machine<Stage>) {
    m.calls != [] ==> m.calls[0].to in {Approved, Rejected, Expired} && m.calls[0].status in {Waiting, Done}
  }

  lemma {:induction false} NoneSucceeded(calls: seq<Call<Stage>>)
    requires forall i :: 0 <= i < |calls| ==> calls[i].status != Done
    ensures Succeeded(calls) == []
  {
    if calls != [] {
      NoneSucceeded(calls[..|calls| - 1]);
    }
  }

  lemma {:induction false} FirstSucceeded(calls: seq<Call<Stage>>)
    requires calls != [] && calls[0].status == Done
    ensures Succeeded(calls) != []
  {
    if |calls| > 1 {
      FirstSucceeded(calls[..|calls| - 1]);
    }
  }

  // While the first call waits, the workflow is pending.
  lemma {:induction false} FirstWaits(m: Machine<Stage>)
    requires Invariant(TABLE, Pending, m) && m.calls != [] && m.calls[0].status == Waiting
    ensures m.state == Pending
  {
    forall i | 0 <= i < |m.calls| ensures m.calls[i].status != Done {
      if i > 0 {
        OneAtATime(TABLE, Pending, m, 0, i);
      }
    }
    NoneSucceeded(m.calls);
  }

  lemma {:induction false} EventFirst(r: Request, w: Workflow, e: Event)
    requires Invariant(TABLE, Pending, w.machine) && FirstActs(w.machine) && Enabled(w, e)
    ensures FirstActs(Apply(r, w, e).machine)
  {
    if e.Ran? {
      hide Invariant;
      RanFirst(w.machine, e.i);
    } else {
      hide HasDecided, Count, Invariant, Start, CanStart;
    }
  }

  lemma {:induction false} RanFirst(m: Machine<Stage>, i: nat)
    requires Invariant(TABLE, Pending, m) && FirstActs(m) && CanStart(m, i)
    ensures FirstActs(Start(TABLE, m, i))
  {
    if i == 0 {
      FirstWaits(m);
    }
    hide Invariant;
  }

  lemma {:induction false} RunFirst(r: Request, run: seq<Workflow>, n: nat)
    requires IsRun(r, run) && n < |run|
    ensures FirstActs(run[n].machine)
  {
    if n > 0 {
      RunFirst(r, run, n - 1);
      RunSound(r, run, n - 1);
      SoundMachine(r, run[n - 1]);
      hide Sound, FirstActs, Apply, Enabled;
      var e :| Enabled(run[n - 1], e) && run[n] == Apply(r, run[n - 1], e);
      EventFirst(r, run[n - 1], e);
    }
  }

  lemma {:induction false} SoundMachine(r: Request, w: Workflow)
    requires Sound(r, w)
    ensures Invariant(TABLE, Pending, w.machine)
  {
  }

  // A settled workflow with a call has a history.
  lemma {:induction false} CallsAct(r: Request, run: seq<Workflow>, n: nat)
    requires IsRun(r, run) && n < |run| && run[n].machine.calls != [] && Settled(run[n].machine.calls[0])
    ensures run[n].machine.history != []
  {
    RunFirst(r, run, n);
    RunSound(r, run, n);
    FirstSucceeded(run[n].machine.calls);
  }

  // Once nothing is left to run, enough approvals have led from pending by way of approved to done,
  // unless a rejection or an expiry was queued as well.
  lemma {:induction false} EnoughApprove(r: Request, run: seq<Workflow>, n: nat, p: nat)
    requires IsRun(r, run) && n < |run| && 0 < p <= |run[n].decisions| && r.threshold <= p
    requires forall i :: 0 <= i < p ==> run[n].decisions[i].approve
    requires forall i :: 0 <= i < |run[n].machine.calls| ==> run[n].machine.calls[i].to !in {Rejected, Expired}
    requires run[n].awaiting == {} && forall i :: 0 <= i < |run[n].machine.calls| ==> Settled(run[n].machine.calls[i])
    ensures run[n].machine.history == [Change(Pending, Approved), Change(Approved, Finished)]
    ensures run[n].machine.state == Finished
  {
    DecisionsAct(r, run, n, p);
    QuietMeansDone(r, run, n);
    HistoryShape(r, run, n);
    RunSound(r, run, n);
    var w := run[n];
    var h := w.machine.history;
    CallsAct(r, run, n);
    hide IsRun, Carries;
    var x :| x in {Approved, Rejected, Expired} && h <= [Change(Pending, x), Change(x, Finished)];
    assert h[0] == Change(Pending, x);
    assert Targets(h)[0] == x;
    SucceededCalled(w.machine.calls, x);
  }

  // Once nothing is left to run, a workflow with an outcome is done.
  lemma {:induction false} QuietMeansDone(r: Request, run: seq<Workflow>, n: nat)
    requires IsRun(r, run) && n < |run|
    requires run[n].awaiting == {} && forall i :: 0 <= i < |run[n].machine.calls| ==> Settled(run[n].machine.calls[i])
    ensures run[n].machine.state in {Pending, Finished}
  {
    RunSound(r, run, n);
    PathShape(run[n].machine.history, run[n].machine.state);
  }

  // ---------- the class ----------

  class ApprovalWorkflow {
    const request: Request
    const sm: QueuedMachine<Stage>
    var decisions: seq<Decision>
    var awaiting: set<nat>

    constructor (request: Request)
      ensures View() == Opening() && this.request == request && sm.transitions == TABLE && fresh(sm)
    {
      this.request, decisions, awaiting := request, [], {};
      sm := new QueuedMachine(Pending, TABLE);
    }

    function View(): Workflow
      reads this, sm
    {
      Workflow(sm.View(), decisions, awaiting)
    }

    // A transition to this outcome has been queued behind the earlier calls, and its caller waits for it.
    predicate Calls(before: seq<Call<Stage>>, outcome: Stage, reply: Reply)
      reads this, sm
    {
      sm.calls == before + [Call(outcome, Waiting)] && reply == Queued(|before|) && |before| in awaiting
    }

    method Decide(d: Decision, past: bool) returns (reply: Reply)
      modifies this, sm
      ensures (View(), reply) == Submit(request, old(View()), d, past)
      ensures sm.state == old(sm.state) && sm.history == old(sm.history)
      ensures var pending, allowed := old(sm.state) == Pending, d.approver in request.approvers;
        var again := exists i :: 0 <= i < |old(decisions)| && old(decisions)[i].approver == d.approver;
        && (reply == NotPending <==> !pending)
        && (reply == NotAllowed <==> pending && !past && !allowed)
        && (reply == AlreadyDecided <==> pending && !past && allowed && again)
        && (decisions == if pending && !past && allowed && !again then old(decisions) + [d] else old(decisions))
        && (pending && past ==> Calls(old(sm.calls), Expired, reply))
        && (pending && !past && allowed && !again ==>
              var reject := exists i :: 0 <= i < |decisions| && !decisions[i].approve;
              && (reject ==> Calls(old(sm.calls), Rejected, reply))
              && (!reject && |decisions| >= request.threshold ==> Calls(old(sm.calls), Approved, reply))
              && (!reject && |decisions| < request.threshold ==> reply == Recorded && sm.calls == old(sm.calls)))
        && (!reply.Queued? ==> sm.calls == old(sm.calls) && awaiting == old(awaiting))
    {
      CountIsZero(decisions + [d], false);
      CountsSum(decisions + [d]);
      if sm.state != Pending {
        return NotPending;
      }
      if past {
        var c := QueueTransition(Expired);
        return Queued(c);
      }
      if d.approver !in request.approvers {
        return NotAllowed;
      }
      if HasDecided(decisions, d.approver) {
        return AlreadyDecided;
      }
      decisions := decisions + [d];
      if Count(decisions, false) > 0 {
        var c := QueueTransition(Rejected);
        return Queued(c);
      }
      if Count(decisions, true) >= request.threshold {
        var c := QueueTransition(Approved);
        return Queued(c);
      }
      return Recorded;
    }

    method ExpireNow()
      modifies this, sm
      ensures View() == Expire(old(View()))
      ensures decisions == old(decisions) && sm.state == old(sm.state) && sm.history == old(sm.history)
      ensures old(sm.state) == Pending ==> Calls(old(sm.calls), Expired, Queued(|old(sm.calls)|))
      ensures old(sm.state) != Pending ==> sm.calls == old(sm.calls) && awaiting == old(awaiting)
    {
      if sm.state == Pending {
        var _ := QueueTransition(Expired);
      }
    }

    method QueueTransition(outcome: Stage) returns (c: nat)
      modifies this, sm
      ensures View() == QueueOutcome(old(View()), outcome) && c == |old(sm.calls)|
    {
      c := sm.Transition(outcome);
      awaiting := awaiting + {c};
    }

    // After the awaited outcome transition.
    method ResumeCaller(c: nat)
      requires c < |sm.calls| && Settled(sm.calls[c])
      modifies this, sm
      ensures View() == Resume(old(View()), c)
      ensures decisions == old(decisions) && awaiting == old(awaiting) - {c}
      ensures sm.calls == old(sm.calls) + if old(sm.calls[c].status) == Done then [Call(Finished, Waiting)] else []
    {
      awaiting := awaiting - {c};
      if sm.calls[c].status == Done {
        var _ := sm.Transition(Finished);
      }
    }
  }
}
