// The queued state machine of src/workflows/state-machine.ts.
//
// A call of `transition` chains itself behind the previous call and runs validate, guard, action
// and commit with awaits in between. Nothing below assumes that calls run one at a time: that is
// derived from the rule that a call starts only when its predecessor has settled.
module StateMachine {

  datatype Rule = Rule(hasGuard: bool, hasAction: bool)

  type Table<!S(==)> = map<(S, S), Rule>

  datatype Change<S> = Change(from: S, to: S)

  // Guarding and Acting are the two awaits; `key` is the table entry found by validation.
  datatype Status<S> = Waiting | Guarding(key: (S, S)) | Acting(key: (S, S)) | Done | Failed

  datatype Call<S> = Call(to: S, status: Status<S>)

  datatype Machine<S> = Machine(state: S, history: seq<Change<S>>, calls: seq<Call<S>>)

  predicate Settled<S(==)>(c: Call<S>) {
    c.status == Done || c.status == Failed
  }

  // ---------- the steps ----------

  function WithStatus<S>(m: Machine<S>, i: nat, status: Status<S>): Machine<S>
    requires i < |m.calls|
  {
    m.(calls := m.calls[i := m.calls[i].(status := status)])
  }

  function Commit<S>(m: Machine<S>, i: nat): Machine<S>
    requires i < |m.calls|
  {
    var to := m.calls[i].to;
    WithStatus(m, i, Done).(history := m.history + [Change(m.state, to)], state := to)
  }

  function Enqueue<S>(m: Machine<S>, to: S): Machine<S> {
    m.(calls := m.calls + [Call(to, Waiting)])
  }

  predicate CanStart<S(==)>(m: Machine<S>, i: nat) {
    i < |m.calls| && m.calls[i].status == Waiting && (i > 0 ==> Settled(m.calls[i - 1]))
  }

  // Up to the first await of applyTransition.
  function Start<S>(table: Table<S>, m: Machine<S>, i: nat): Machine<S>
    requires i < |m.calls|
  {
    var key := (m.state, m.calls[i].to);
    if key !in table then WithStatus(m, i, Failed)
    else if table[key].hasGuard then WithStatus(m, i, Guarding(key))
    else if table[key].hasAction then WithStatus(m, i, Acting(key))
    else Commit(m, i)
  }

  // The guard resolves; false also stands for a guard that throws.
  function AfterGuard<S>(table: Table<S>, m: Machine<S>, i: nat, ok: bool): Machine<S>
    requires i < |m.calls| && m.calls[i].status.Guarding? && m.calls[i].status.key in table
  {
    var key := m.calls[i].status.key;
    if !ok then WithStatus(m, i, Failed)
    else if table[key].hasAction then WithStatus(m, i, Acting(key))
    else Commit(m, i)
  }

  function AfterAction<S>(m: Machine<S>, i: nat, ok: bool): Machine<S>
    requires i < |m.calls| && m.calls[i].status.Acting?
  {
    if ok then Commit(m, i) else WithStatus(m, i, Failed)
  }

  ghost predicate Step<S(!new)>(table: Table<S>, m: Machine<S>, m': Machine<S>) {
    || (exists to :: m' == Enqueue(m, to))
    || (exists i: nat, ok :: CallStep(table, m, m', i, ok))
  }

  predicate CallStep<S(==)>(table: Table<S>, m: Machine<S>, m': Machine<S>, i: nat, ok: bool) {
    && i < |m.calls|
    && match m.calls[i].status
       case Waiting => CanStart(m, i) && m' == Start(table, m, i)
       case Guarding(key) => key in table && m' == AfterGuard(table, m, i, ok)
       case Acting(_) => m' == AfterAction(m, i, ok)
       case Done => false
       case Failed => false
  }

  function Init<S>(state: S): Machine<S> {
    Machine(state, [], [])
  }

  ghost predicate IsRun<S(!new)>(table: Table<S>, start: S, run: seq<Machine<S>>) {
    && |run| >= 1 && run[0] == Init(start)
    && forall n :: 0 < n < |run| ==> Step(table, run[n - 1], run[n])
  }

  // ---------- the invariant ----------

  // The history leads from `start` to `state` by table entries only.
  ghost predicate IsPath<S>(table: Table<S>, start: S, history: seq<Change<S>>, state: S) {
    && (forall n :: 0 <= n < |history| ==> (history[n].from, history[n].to) in table)
    && (forall n :: 0 < n < |history| ==> history[n].from == history[n - 1].to)
    && (if history == [] then state == start else history[0].from == start && history[|history| - 1].to == state)
  }

  // The targets of the calls that succeeded, in call order.
  function Succeeded<S(==)>(calls: seq<Call<S>>): seq<S> {
    if calls == [] then []
    else
      var last := calls[|calls| - 1];
      Succeeded(calls[..|calls| - 1]) + if last.status == Done then [last.to] else []
  }

  function Targets<S>(history: seq<Change<S>>): (r: seq<S>)
    ensures |r| == |history| && forall n :: 0 <= n < |history| ==> r[n] == history[n].to
  {
    seq(|history|, n requires 0 <= n < |history| => history[n].to)
  }

  // Call i is between validation and commit.
  ghost predicate InFlight<S>(m: Machine<S>, i: nat) {
    i < |m.calls| && (m.calls[i].status.Guarding? || m.calls[i].status.Acting?)
  }

  ghost predicate Invariant<S>(table: Table<S>, start: S, m: Machine<S>) {
    && IsPath(table, start, m.history, m.state)
    && Targets(m.history) == Succeeded(m.calls)
    && (forall i :: 0 < i < |m.calls| && m.calls[i].status != Waiting ==> Settled(m.calls[i - 1]))
    && forall i :: 0 <= i < |m.calls| && (m.calls[i].status.Guarding? || m.calls[i].status.Acting?) ==>
         m.calls[i].status.key == (m.state, m.calls[i].to) && m.calls[i].status.key in table
  }

  // A call that has left the queue has only settled calls before it and only waiting ones after it.
  lemma {:induction false} OneAtATime<S>(table: Table<S>, start: S, m: Machine<S>, i: nat, j: nat)
    requires Invariant(table, start, m) && i < j < |m.calls|
    ensures m.calls[j].status != Waiting ==> Settled(m.calls[i])
    ensures !Settled(m.calls[i]) ==> m.calls[j].status == Waiting
    decreases j - i
  {
    if i + 1 < j {
      OneAtATime(table, start, m, i + 1, j);
    }
  }

  lemma {:induction false} SucceededUpdate<S>(calls: seq<Call<S>>, i: nat, status: Status<S>)
    requires i < |calls| && calls[i].status != Done
    requires status == Done ==> forall j :: i < j < |calls| ==> calls[j].status != Done
    ensures Succeeded(calls[i := calls[i].(status := status)])
         == Succeeded(calls) + if status == Done then [calls[i].to] else []
    decreases |calls|
  {
    var updated := calls[i := calls[i].(status := status)];
    var n := |calls| - 1;
    if i == n {
      assert updated[..n] == calls[..n];
    } else {
      assert updated[..n] == calls[..n][i := calls[i].(status := status)];
      SucceededUpdate(calls[..n], i, status);
    }
  }

  lemma {:induction false} MoveKeeps<S>(table: Table<S>, start: S, m: Machine<S>, i: nat, status: Status<S>)
    requires Invariant(table, start, m) && i < |m.calls|
    requires !Settled(m.calls[i]) && status != Done && status != Waiting && (i > 0 ==> Settled(m.calls[i - 1]))
    requires (status.Guarding? || status.Acting?) ==> status.key == (m.state, m.calls[i].to) && status.key in table
    ensures Invariant(table, start, WithStatus(m, i, status))
  {
    SucceededUpdate(m.calls, i, status);
    forall j | i < j < |m.calls| ensures m.calls[j].status == Waiting {
      OneAtATime(table, start, m, i, j);
    }
  }

  // The commit still sees the state that was validated, because no other call is in flight.
  lemma {:induction false} CommitKeeps<S>(table: Table<S>, start: S, m: Machine<S>, i: nat)
    requires Invariant(table, start, m) && i < |m.calls| && !Settled(m.calls[i]) && (i > 0 ==> Settled(m.calls[i - 1]))
    requires (m.state, m.calls[i].to) in table
    ensures Invariant(table, start, Commit(m, i))
  {
    var m' := Commit(m, i);
    forall j | 0 <= j < |m.calls| && j != i
      ensures !m.calls[j].status.Guarding? && !m.calls[j].status.Acting? && (j > i ==> m.calls[j].status == Waiting)
    {
      if j < i {
        SettledBefore(table, start, m, i, j);
      } else {
        OneAtATime(table, start, m, i, j);
      }
    }
    SucceededUpdate(m.calls, i, Done);
    assert Targets(m'.history) == Targets(m.history) + [m.calls[i].to];
  }

  lemma {:induction false} SettledBefore<S>(table: Table<S>, start: S, m: Machine<S>, i: nat, j: nat)
    requires Invariant(table, start, m) && j < i < |m.calls| && Settled(m.calls[i - 1])
    ensures Settled(m.calls[j])
  {
    if j < i - 1 {
      OneAtATime(table, start, m, j, i - 1);
    }
  }

  lemma {:induction false} StepKeeps<S(!new)>(table: Table<S>, start: S, m: Machine<S>, m': Machine<S>)
    requires Invariant(table, start, m) && Step(table, m, m')
    ensures Invariant(table, start, m') && m.history <= m'.history
  {
    hide IsPath, Succeeded;
    if to :| m' == Enqueue(m, to) {
      EnqueueSucceeds(m.calls, Call(to, Waiting));
    } else {
      var i: nat, ok :| CallStep(table, m, m', i, ok);
      assert !Settled(m.calls[i]) && (i > 0 ==> Settled(m.calls[i - 1]));
      if m' == Commit(m, i) && (m.state, m.calls[i].to) in table {
        CommitKeeps(table, start, m, i);
      } else {
        MoveKeeps(table, start, m, i, m'.calls[i].status);
      }
    }
  }

  lemma {:induction false} EnqueueSucceeds<S>(calls: seq<Call<S>>, c: Call<S>)
    requires c.status != Done
    ensures Succeeded(calls + [c]) == Succeeded(calls)
  {
    assert (calls + [c])[..|calls|] == calls;
  }

  // Under every interleaving: the history is a connected path of table entries from the start
  // state to the current one, and it records exactly the calls that succeeded, in call order.
  lemma {:induction false} RunKeeps<S(!new)>(table: Table<S>, start: S, run: seq<Machine<S>>, n: nat)
    requires IsRun(table, start, run) && n < |run|
    ensures Invariant(table, start, run[n])
  {
    if n > 0 {
      hide Step, Invariant;
      RunKeeps(table, start, run, n - 1);
      StepKeeps(table, start, run[n - 1], run[n]);
    } else {
      assert Targets<S>([]) == [];
    }
  }

  lemma {:induction false} HistoryIsPath<S(!new)>(table: Table<S>, start: S, run: seq<Machine<S>>, n: nat)
    requires IsRun(table, start, run) && n < |run|
    ensures IsPath(table, start, run[n].history, run[n].state)
    ensures Targets(run[n].history) == Succeeded(run[n].calls)
  {
    RunKeeps(table, start, run, n);
  }

  // Validate to commit is a critical section: while a call is in flight no other is, and neither
  // state nor history differ from what it validated against until it settles.
  lemma {:induction false} CriticalSection<S(!new)>(table: Table<S>, start: S, run: seq<Machine<S>>, n: nat, i: nat)
    requires IsRun(table, start, run) && 0 < n < |run| && InFlight(run[n], i)
    ensures forall j: nat :: InFlight(run[n], j) ==> j == i
    ensures run[n].calls[i].status.key.0 == run[n].state
    ensures InFlight(run[n - 1], i) ==> run[n].state == run[n - 1].state && run[n].history == run[n - 1].history
  {
    hide Step, IsPath, Succeeded, Targets;
    RunKeeps(table, start, run, n);
    RunKeeps(table, start, run, n - 1);
    var m := run[n];
    forall j: nat | InFlight(m, j) ensures j == i {
      AloneInFlight(table, start, m, i, j);
    }
    if InFlight(run[n - 1], i) {
      StaysInFlight(table, start, run[n - 1], m, i);
    }
  }

  lemma {:induction false} AloneInFlight<S>(table: Table<S>, start: S, m: Machine<S>, i: nat, j: nat)
    requires Invariant(table, start, m) && InFlight(m, i) && InFlight(m, j)
    ensures i == j
  {
    hide Invariant;
    if j < i {
      OneAtATime(table, start, m, j, i);
    } else if i < j {
      OneAtATime(table, start, m, i, j);
    }
  }

  lemma {:induction false} StaysInFlight<S(!new)>(table: Table<S>, start: S, m: Machine<S>, m': Machine<S>, i: nat)
    requires Invariant(table, start, m) && Step(table, m, m') && InFlight(m, i) && InFlight(m', i)
    ensures m'.state == m.state && m'.history == m.history
  {
    hide Invariant;
    if !exists to :: m' == Enqueue(m, to) {
      var k: nat, ok :| CallStep(table, m, m', k, ok);
      if k != i {
        OthersIdle(table, start, m, i, k);
        assert false;
      }
    }
  }

  // While call i is in flight no other call can take a step.
  lemma {:induction false} OthersIdle<S>(table: Table<S>, start: S, m: Machine<S>, i: nat, k: nat)
    requires Invariant(table, start, m) && InFlight(m, i) && k < |m.calls| && k != i
    ensures Settled(m.calls[k]) || (m.calls[k].status == Waiting && !CanStart(m, k))
  {
    hide Invariant;
    if k < i {
      OneAtATime(table, start, m, k, i);
    } else {
      OneAtATime(table, start, m, i, k);
      if i < k - 1 {
        OneAtATime(table, start, m, i, k - 1);
      }
    }
  }

  // A call's status only moves forward, and moving anywhere but to Done changes nothing else.
  lemma {:induction false} StatusMoves<S(!new)>(table: Table<S>, m: Machine<S>, m': Machine<S>, i: nat)
    requires Step(table, m, m') && i < |m.calls|
    ensures i < |m'.calls|
    ensures Settled(m.calls[i]) ==> m'.calls[i] == m.calls[i]
    ensures m.calls[i].status != Waiting ==> m'.calls[i].status != Waiting
    ensures m'.calls[i] != m.calls[i] && m'.calls[i].status != Done ==> m'.state == m.state && m'.history == m.history
  {
    if !exists to :: m' == Enqueue(m, to) {
      var k: nat, ok :| CallStep(table, m, m', k, ok);
    }
  }

  // Call i leaves the queue between moments p - 1 and p.
  ghost predicate LeavesQueue<S>(run: seq<Machine<S>>, i: nat, p: nat) {
    && 0 < p < |run| && i < |run[p - 1].calls| && i < |run[p].calls|
    && run[p - 1].calls[i].status == Waiting && run[p].calls[i].status != Waiting
  }

  // Call i is in flight at moment n, or fails between moments n - 1 and n.
  ghost predicate FliesOrFails<S>(run: seq<Machine<S>>, i: nat, n: nat) {
    && 0 < n < |run| && i < |run[n].calls|
    && (InFlight(run[n], i)
        || (run[n].calls[i].status == Failed && i < |run[n - 1].calls| && run[n - 1].calls[i].status != Failed))
  }

  // A call that fails, at validation, in its guard or in its action, changes nothing: from before it
  // leaves the queue until it fails, state and history stay as they are, whatever runs meanwhile.
  lemma {:induction false} FailureChangesNothing<S(!new)>(table: Table<S>, start: S, run: seq<Machine<S>>,
                                                          i: nat, p: nat, n: nat)
    requires IsRun(table, start, run) && LeavesQueue(run, i, p) && p <= n && FliesOrFails(run, i, n)
    ensures run[n].state == run[p - 1].state && run[n].history == run[p - 1].history
    decreases n
  {
    hide Step;
    if n == p {
      StatusMoves(table, run[p - 1], run[p], i);
    } else {
      LeftQueue(table, start, run, i, p, n - 1);
      StatusMoves(table, run[n - 1], run[n], i);
      FailureChangesNothing(table, start, run, i, p, n - 1);
      if InFlight(run[n], i) {
        CriticalSection(table, start, run, n, i);
      }
    }
  }

  lemma {:induction false} LeftQueue<S(!new)>(table: Table<S>, start: S, run: seq<Machine<S>>, i: nat, p: nat, n: nat)
    requires IsRun(table, start, run) && LeavesQueue(run, i, p) && p <= n < |run|
    ensures i < |run[n].calls| && run[n].calls[i].status != Waiting
    decreases n
  {
    hide Step;
    if p < n {
      LeftQueue(table, start, run, i, p, n - 1);
      StatusMoves(table, run[n - 1], run[n], i);
    }
  }

  // ---------- what guards and actions answered ----------

  // What happens between two moments: a new call, or call i going on with an answer of its guard or
  // action.
  datatype Event = NewCall | Answer(i: nat, ok: bool)

  // A run with its events: events[n] leads from run[n] to run[n + 1].
  ghost predicate IsAnswered<S(!new)>(table: Table<S>, start: S, run: seq<Machine<S>>, events: seq<Event>) {
    && |run| == |events| + 1 && run[0] == Init(start)
    && forall n :: 0 <= n < |events| ==> Happens(table, run[n], run[n + 1], events[n])
  }

  ghost predicate Happens<S(!new)>(table: Table<S>, m: Machine<S>, m': Machine<S>, e: Event) {
    match e
    case NewCall => exists to :: m' == Enqueue(m, to)
    case Answer(i, ok) => CallStep(table, m, m', i, ok)
  }

  // At moment p the guard of call i, under this key, was awaited, and answered true.
  ghost predicate GuardGranted<S>(run: seq<Machine<S>>, events: seq<Event>, i: nat, key: (S, S), p: nat) {
    && p < |events| && p < |run| && i < |run[p].calls| && run[p].calls[i].status == Guarding(key)
    && events[p] == Answer(i, true)
  }

  // At moment p the action of call i, under this key, was awaited, and succeeded.
  ghost predicate ActionDone<S>(run: seq<Machine<S>>, events: seq<Event>, i: nat, key: (S, S), p: nat) {
    && p < |events| && p < |run| && i < |run[p].calls| && run[p].calls[i].status == Acting(key)
    && events[p] == Answer(i, true)
  }

  // A call whose action is awaited and whose rule has a guard has had the guard's consent.
  lemma {:induction false} ActingWasGranted<S(!new)>(table: Table<S>, start: S, run: seq<Machine<S>>,
                                                     events: seq<Event>, i: nat, n: nat) returns (p: nat)
    requires IsAnswered(table, start, run, events) && n < |run| && i < |run[n].calls|
    requires run[n].calls[i].status.Acting? && run[n].calls[i].status.key in table
    requires table[run[n].calls[i].status.key].hasGuard
    ensures p < n && GuardGranted(run, events, i, run[n].calls[i].status.key, p)
    decreases n
  {
    assert n > 0;
    var q := n - 1;
    var m, m' := run[q], run[n];
    assert Happens(table, run[q], run[q + 1], events[q]);
    if i < |m.calls| && m.calls[i] == m'.calls[i] {
      p := ActingWasGranted(table, start, run, events, i, q);
    } else {
      p := q;
    }
  }

  // The step from moment p to the next adds a change: which call makes it, and with what consent.
  lemma {:induction false} ChangeStep<S(!new)>(table: Table<S>, start: S, run: seq<Machine<S>>,
                                               events: seq<Event>, p: nat)
    returns (i: nat)
    requires IsAnswered(table, start, run, events) && p < |events| && Invariant(table, start, run[p])
    requires run[p + 1].history != run[p].history
    ensures i < |run[p].calls| && run[p + 1].history == run[p].history + [Change(run[p].state, run[p].calls[i].to)]
    ensures Granted(table, run, events, i, (run[p].state, run[p].calls[i].to), p)
  {
    var m, m' := run[p], run[p + 1];
    assert Happens(table, m, m', events[p]);
    i := events[p].i;
    var key := (m.state, m.calls[i].to);
    hide IsPath, Succeeded, Targets;
    match m.calls[i].status
    case Guarding(_) =>
      assert GuardGranted(run, events, i, key, p);
    case Acting(_) =>
      assert ActionDone(run, events, i, key, p);
      if table[key].hasGuard {
        var g := ActingWasGranted(table, start, run, events, i, p);
      }
    case _ =>
  }

  // Call i changed the state at moment p with all the consent its rule asks for.
  ghost predicate Granted<S>(table: Table<S>, run: seq<Machine<S>>, events: seq<Event>, i: nat, key: (S, S), p: nat) {
    && key in table
    && (table[key].hasGuard ==> exists g: nat :: g <= p && GuardGranted(run, events, i, key, g))
    && (table[key].hasAction ==> exists a: nat :: a <= p && ActionDone(run, events, i, key, a))
  }

  lemma {:induction false} AnsweredIsRun<S(!new)>(table: Table<S>, start: S, run: seq<Machine<S>>, events: seq<Event>)
    requires IsAnswered(table, start, run, events)
    ensures IsRun(table, start, run)
  {
    hide CallStep;
    forall n | 0 < n < |run| ensures Step(table, run[n - 1], run[n]) {
      var q := n - 1;
      assert Happens(table, run[q], run[q + 1], events[q]);
    }
  }

  // Under every interleaving, every change in the history was made by a call whose rule's guard, if it
  // has one, answered true, and whose rule's action, if it has one, succeeded.
  lemma {:induction false} EveryChangeGranted<S(!new)>(table: Table<S>, start: S, run: seq<Machine<S>>,
                                                       events: seq<Event>, n: nat, k: nat)
    returns (i: nat, p: nat)
    requires IsAnswered(table, start, run, events) && n < |run| && k < |run[n].history|
    ensures p < n && i < |run[p].calls|
    ensures run[n].history[k] == Change(run[p].state, run[p].calls[i].to)
    ensures Granted(table, run, events, i, (run[p].state, run[p].calls[i].to), p)
    decreases n
  {
    AnsweredIsRun(table, start, run, events);
    assert n > 0;
    var q := n - 1;
    RunKeeps(table, start, run, q);
    hide Invariant, IsRun, Granted;
    assert Happens(table, run[q], run[q + 1], events[q]);
    if run[n].history == run[q].history {
      i, p := EveryChangeGranted(table, start, run, events, q, k);
    } else {
      i := ChangeStep(table, start, run, events, q);
      p := q;
      if k < |run[q].history| {
        i, p := EveryChangeGranted(table, start, run, events, q, k);
      }
    }
  }

  // ---------- progress ----------

  lemma {:induction false} FirstUnsettled<S>(calls: seq<Call<S>>) returns (i: nat)
    requires exists j :: 0 <= j < |calls| && !Settled(calls[j])
    ensures i < |calls| && !Settled(calls[i]) && forall j :: 0 <= j < i ==> Settled(calls[j])
  {
    var j :| 0 <= j < |calls| && !Settled(calls[j]);
    i := 0;
    while Settled(calls[i])
      invariant i <= j && forall k :: 0 <= k < i ==> Settled(calls[k])
      decreases j - i
    {
      i := i + 1;
    }
  }

  // Call i can go on, whatever its guard or action answers.
  ghost predicate CanGoOn<S(!new)>(table: Table<S>, m: Machine<S>, i: nat) {
    GoesOnWith(table, m, i, true) && GoesOnWith(table, m, i, false)
  }

  ghost predicate GoesOnWith<S(!new)>(table: Table<S>, m: Machine<S>, i: nat, ok: bool) {
    exists m' :: CallStep(table, m, m', i, ok)
  }

  // The queue never blocks: a call whose predecessors are all settled can go on, and in every
  // reachable state with a call that is not settled there is one.
  lemma {:induction false} QueueMoves<S(!new)>(table: Table<S>, start: S, run: seq<Machine<S>>, n: nat, i: nat)
    requires IsRun(table, start, run) && n < |run| && i < |run[n].calls| && !Settled(run[n].calls[i])
    ensures (forall j :: 0 <= j < i ==> Settled(run[n].calls[j])) ==> CanGoOn(table, run[n], i)
    ensures exists j: nat :: j <= i && CanGoOn(table, run[n], j)
  {
    RunKeeps(table, start, run, n);
    var m := run[n];
    hide IsRun, CanGoOn, Invariant;
    var first := FirstUnsettled(m.calls);
    GoesOn(table, start, m, first);
    if forall j :: 0 <= j < i ==> Settled(m.calls[j]) {
      GoesOn(table, start, m, i);
    }
  }

  lemma {:induction false} GoesOn<S(!new)>(table: Table<S>, start: S, m: Machine<S>, i: nat)
    requires Invariant(table, start, m) && i < |m.calls| && !Settled(m.calls[i])
    requires forall j :: 0 <= j < i ==> Settled(m.calls[j])
    ensures CanGoOn(table, m, i)
  {
    hide IsPath, Succeeded, Targets;
    Resumes(table, start, m, i, true);
    Resumes(table, start, m, i, false);
  }

  lemma {:induction false} Resumes<S(!new)>(table: Table<S>, start: S, m: Machine<S>, i: nat, ok: bool)
    requires Invariant(table, start, m) && i < |m.calls| && !Settled(m.calls[i])
    requires forall j :: 0 <= j < i ==> Settled(m.calls[j])
    ensures GoesOnWith(table, m, i, ok)
  {
    hide IsPath, Succeeded, Targets;
    var m' := match m.calls[i].status
      case Waiting => Start(table, m, i)
      case Guarding(_) => AfterGuard(table, m, i, ok)
      case Acting(_) => AfterAction(m, i, ok)
      case _ => m;
    assert CallStep(table, m, m', i, ok);
  }

  // How many steps a call may still take.
  function StepsLeft<S>(status: Status<S>): nat {
    match status
    case Waiting => 3
    case Guarding(_) => 2
    case Acting(_) => 1
    case _ => 0
  }

  function Work<S>(calls: seq<Call<S>>): (w: nat)
    ensures w <= 3 * |calls|
  {
    if calls == [] then 0 else Work(calls[..|calls| - 1]) + StepsLeft(calls[|calls| - 1].status)
  }

  lemma {:induction false} WorkUpdate<S>(calls: seq<Call<S>>, i: nat, status: Status<S>)
    requires i < |calls|
    ensures Work(calls[i := calls[i].(status := status)])
         == Work(calls) - StepsLeft(calls[i].status) + StepsLeft(status)
    decreases |calls|
  {
    var updated := calls[i := calls[i].(status := status)];
    var n := |calls| - 1;
    if i == n {
      assert updated[..n] == calls[..n];
    } else {
      assert updated[..n] == calls[..n][i := calls[i].(status := status)];
      WorkUpdate(calls[..n], i, status);
    }
  }

  lemma {:induction false} StepSpends<S>(table: Table<S>, m: Machine<S>, m': Machine<S>, i: nat, ok: bool)
    requires CallStep(table, m, m', i, ok)
    ensures |m'.calls| == |m.calls| && Work(m'.calls) < Work(m.calls)
  {
    hide Work;
    WorkUpdate(m.calls, i, m'.calls[i].status);
  }

  lemma {:induction false} CallsStay<S(!new)>(table: Table<S>, m: Machine<S>, m': Machine<S>)
    requires Step(table, m, m')
    ensures |m.calls| <= |m'.calls|
    ensures |m'.calls| == |m.calls| ==> Work(m'.calls) < Work(m.calls)
  {
    hide CallStep, Work;
    if !exists to :: m' == Enqueue(m, to) {
      var i: nat, ok :| CallStep(table, m, m', i, ok);
      StepSpends(table, m, m', i, ok);
    }
  }

  // Between two moments without a new call no more than three steps per call are taken.
  lemma {:induction false} Finishes<S(!new)>(table: Table<S>, start: S, run: seq<Machine<S>>, n: nat, k: nat)
    requires IsRun(table, start, run) && n <= k < |run|
    ensures |run[n].calls| <= |run[k].calls|
    ensures |run[k].calls| == |run[n].calls| ==> k - n <= Work(run[n].calls) - Work(run[k].calls) <= 3 * |run[n].calls|
    decreases k
  {
    hide Step, Work;
    if n < k {
      Finishes(table, start, run, n, k - 1);
      CallsStay(table, run[k - 1], run[k]);
    }
  }

  // From moment n on call i, in flight, goes on only after call j is settled: its guard or action
  // awaits that call.
  ghost predicate Awaits<S(!new)>(table: Table<S>, run: seq<Machine<S>>, n: nat, i: nat, j: nat) {
    forall k: nat :: n < k < |run| && MovesAt(table, run, k, i) ==> SettledBy(run, k, j)
  }

  // Call i takes the step between moments k - 1 and k.
  ghost predicate MovesAt<S>(table: Table<S>, run: seq<Machine<S>>, k: nat, i: nat) {
    0 < k < |run| && Moves(table, run[k - 1], run[k], i)
  }

  predicate Moves<S(==)>(table: Table<S>, m: Machine<S>, m': Machine<S>, i: nat) {
    CallStep(table, m, m', i, true) || CallStep(table, m, m', i, false)
  }

  ghost predicate SettledBy<S>(run: seq<Machine<S>>, k: nat, j: nat) {
    0 < k < |run| && j < |run[k - 1].calls| && Settled(run[k - 1].calls[j])
  }

  // A guard or action that awaits a further transition on its own machine never settles, and that
  // transition never starts.
  lemma {:induction false} SelfAwaitNeverSettles<S(!new)>(table: Table<S>, start: S, run: seq<Machine<S>>,
                                                          n: nat, k: nat, i: nat, j: nat)
    requires IsRun(table, start, run) && n <= k < |run| && InFlight(run[n], i) && i < j < |run[n].calls|
    requires Awaits(table, run, n, i, j)
    ensures j < |run[k].calls| && run[k].calls[i] == run[n].calls[i] && run[k].calls[j].status == Waiting
    ensures run[k].state == run[n].state && run[k].history == run[n].history
    decreases k
  {
    hide Step, Moves, Awaits, Invariant, Settled;
    RunKeeps(table, start, run, k);
    if n == k {
      hide IsRun;
      BehindInFlight(table, start, run[n], i, j);
    } else {
      SelfAwaitNeverSettles(table, start, run, n, k - 1, i, j);
      RunKeeps(table, start, run, k - 1);
      NotSettledYet(table, run, n, k, i, j);
      var a, m := run[k - 1], run[k];
      assert Step(table, a, m);
      hide IsRun;
      HeldUp(table, start, a, m, i);
      BehindInFlight(table, start, m, i, j);
    }
  }

  lemma {:induction false} BehindInFlight<S>(table: Table<S>, start: S, m: Machine<S>, i: nat, j: nat)
    requires Invariant(table, start, m) && InFlight(m, i) && i < j < |m.calls|
    ensures m.calls[j].status == Waiting
  {
    hide Invariant;
    OneAtATime(table, start, m, i, j);
  }

  lemma {:induction false} NotSettledYet<S(!new)>(table: Table<S>, run: seq<Machine<S>>, n: nat, k: nat, i: nat, j: nat)
    requires Awaits(table, run, n, i, j) && n < k < |run| && j < |run[k - 1].calls|
    requires run[k - 1].calls[j].status == Waiting
    ensures !Moves(table, run[k - 1], run[k], i)
  {
    hide Moves;
    assert MovesAt(table, run, k, i) ==> SettledBy(run, k, j);
  }

  // While a call in flight stands still, every step is a new call.
  lemma {:induction false} HeldUp<S(!new)>(table: Table<S>, start: S, m: Machine<S>, m': Machine<S>, i: nat)
    requires Invariant(table, start, m) && Step(table, m, m') && InFlight(m, i)
    requires !Moves(table, m, m', i)
    ensures |m'.calls| > |m.calls| && m'.calls[..|m.calls|] == m.calls
    ensures m'.calls[i] == m.calls[i] && m'.state == m.state && m'.history == m.history
  {
    hide Invariant;
    if !exists to :: m' == Enqueue(m, to) {
      var k: nat, ok :| CallStep(table, m, m', k, ok);
      OthersIdle(table, start, m, i, k);
      assert false;
    }
  }

  // ---------- the class ----------

  class QueuedMachine<S(==)> {
    const transitions: Table<S>
    var state: S
    var history: seq<Change<S>>
    var calls: seq<Call<S>>

    constructor (initial: S, transitions: Table<S>)
      ensures this.transitions == transitions && View() == Init(initial)
    {
      this.transitions, state, history, calls := transitions, initial, [], [];
    }

    function View(): Machine<S>
      reads this
    {
      Machine(state, history, calls)
    }

    // Since m only call i has moved: it has this status now, and state and history are as they were.
    predicate Stays(m: Machine<S>, i: nat, status: Status<S>)
      requires i < |m.calls|
      reads this
    {
      && state == m.state && history == m.history
      && calls == m.calls[..i] + [Call(m.calls[i].to, status)] + m.calls[i + 1..]
    }

    // Since m call i has succeeded: the state is its target, and the history has gained that change.
    predicate Changes(m: Machine<S>, i: nat)
      requires i < |m.calls|
      reads this
    {
      && state == m.calls[i].to && history == m.history + [Change(m.state, m.calls[i].to)]
      && calls == m.calls[..i] + [Call(m.calls[i].to, Done)] + m.calls[i + 1..]
    }

    // transition: chain behind the previous call.
    method Transition(to: S) returns (i: nat)
      modifies `calls
      ensures View() == Enqueue(old(View()), to) && i == |old(calls)|
      ensures state == old(state) && history == old(history) && calls == old(calls) + [Call(to, Waiting)]
    {
      i := |calls|;
      calls := calls + [Call(to, Waiting)];
    }

    method Settle(i: nat, status: Status<S>)
      requires i < |calls|
      modifies `calls
      ensures View() == WithStatus(old(View()), i, status)
    {
      calls := calls[i := calls[i].(status := status)];
    }

    method CommitCall(i: nat)
      requires i < |calls|
      modifies this
      ensures View() == Commit(old(View()), i)
    {
      history := history + [Change(state, calls[i].to)];
      state := calls[i].to;
      Settle(i, Done);
    }

    // applyTransition up to its first await.
    method Begin(i: nat)
      requires CanStart(View(), i)
      modifies this
      ensures View() == Start(transitions, old(View()), i)
      ensures CallStep(transitions, old(View()), View(), i, true)
      ensures var c, key := old(calls[i]), (old(state), old(calls[i].to));
        && (key !in transitions ==> Stays(old(View()), i, Failed))
        && (key in transitions && transitions[key].hasGuard ==> Stays(old(View()), i, Guarding(key)))
        && (key in transitions && !transitions[key].hasGuard && transitions[key].hasAction ==>
              Stays(old(View()), i, Acting(key)))
        && (key in transitions && !transitions[key].hasGuard && !transitions[key].hasAction ==>
              Changes(old(View()), i))
    {
      var key := (state, calls[i].to);
      if key !in transitions {
        Settle(i, Failed);
        return;
      }
      if transitions[key].hasGuard {
        Settle(i, Guarding(key));
      } else if transitions[key].hasAction {
        Settle(i, Acting(key));
      } else {
        CommitCall(i);
      }
    }

    // applyTransition after the awaited guard.
    method ResumeGuard(i: nat, ok: bool)
      requires i < |calls| && calls[i].status.Guarding? && calls[i].status.key in transitions
      modifies this
      ensures View() == AfterGuard(transitions, old(View()), i, ok)
      ensures CallStep(transitions, old(View()), View(), i, ok)
      ensures !ok ==> Stays(old(View()), i, Failed)
      ensures ok && transitions[old(calls[i].status.key)].hasAction ==>
        Stays(old(View()), i, Acting(old(calls[i].status.key)))
      ensures ok && !transitions[old(calls[i].status.key)].hasAction ==> Changes(old(View()), i)
    {
      var key := calls[i].status.key;
      if !ok {
        Settle(i, Failed);
        return;
      }
      if transitions[key].hasAction {
        Settle(i, Acting(key));
      } else {
        CommitCall(i);
      }
    }

    // applyTransition after the awaited action.
    method ResumeAction(i: nat, ok: bool)
      requires i < |calls| && calls[i].status.Acting?
      modifies this
      ensures View() == AfterAction(old(View()), i, ok)
      ensures CallStep(transitions, old(View()), View(), i, ok)
      ensures !ok ==> Stays(old(View()), i, Failed)
      ensures ok ==> Changes(old(View()), i)
    {
      if ok {
        CommitCall(i);
      } else {
        Settle(i, Failed);
      }
    }
  }
}
