// Concurrent signing as a step relation: any number of calls of signReceiptWithStore, for any
// tenants, interleaved at their awaits, against one store of any of the three kinds.
module ChainProtocol {
  import opened Wrappers
  import opened Sorting
  import opened Doubles
  import opened Receipts
  import opened ChainStore
  import opened ChainAudit

  // Where a call stands. Throwing covers a rejected event, a store error, and lost races.
  datatype Phase<D> =
    | Loading(attempt: nat)
    | Committing(attempt: nat, prev: ChainState<D>, signed: SignedReceipt<D>)
    | Returned(receipt: SignedReceipt<D>)
    | Threw

  // Every call brings its own event and key pair; `content` is all it gives to sign.
  datatype Call<!D> = Call(tenant: string, content: string, maxRetries: nat, signer: Signer<D>, phase: Phase<D>)

  // `winners` is a history variable: the call that committed each height of each tenant.
  datatype System<!D> = System(heads: Heads<D>, calls: seq<Call<D>>, winners: map<(string, nat), nat>)

  // The fixed surroundings of a run.
  datatype World<!D> = World(v: Verifier<D>, kind: StoreKind)

  function Move<D>(s: System<D>, i: nat, phase: Phase<D>): System<D>
    requires i < |s.calls|
  {
    s.(calls := s.calls[i := s.calls[i].(phase := phase)])
  }

  // One atomic step of call i. A call loads the head and signs on it without awaiting again;
  // `id` is the fresh receipt id of this attempt.
  ghost predicate CallStep<D>(w: World<D>, s: System<D>, s': System<D>, i: nat, id: string) {
    && i < |s.calls|
    && var c := s.calls[i];
    match c.phase
    case Loading(a) =>
      var prev := Head(s.heads, c.tenant, w.v.genesis);
      var built := BuildSignedReceipt(w.v, c.signer, c.tenant, id, c.content, prev);
      || (built.Ok? && s' == Move(s, i, Committing(a, prev, built.value)))
      || s' == Move(s, i, Threw)
    case Committing(a, prev, signed) =>
      if Allows(w.kind, s.heads, prev) then
        || s' == Commit(s, i, prev, signed)
        || s' == Move(s, i, Threw)
      else
        s' == Move(s, i, if a < c.maxRetries then Loading(a + 1) else Threw)
    case Returned(_) => false
    case Threw => false
  }

  function Commit<D>(s: System<D>, i: nat, prev: ChainState<D>, signed: SignedReceipt<D>): System<D>
    requires i < |s.calls|
  {
    var hash := if signed.integrity.Some? then signed.integrity.value.receiptHash else prev.previousHash;
    Move(s, i, Returned(signed)).(heads := s.heads[prev.tenant := AdvanceChain(prev, hash, signed.id)],
                                  winners := s.winners[(prev.tenant, prev.height + 1) := i])
  }

  ghost predicate Step<D>(w: World<D>, s: System<D>, s': System<D>) {
    || NewCall(s, s')
    || (exists i: nat, id :: CallStep(w, s, s', i, id))
  }

  // Anyone may call at any time, for any tenant, with any content and any key pair.
  ghost predicate NewCall<D>(s: System<D>, s': System<D>) {
    var n := |s.calls|;
    && s'.heads == s.heads && s'.winners == s.winners
    && |s'.calls| == n + 1 && s'.calls[..n] == s.calls && s'.calls[n].phase == Loading(0)
  }

  ghost predicate IsRun<D>(w: World<D>, run: seq<System<D>>) {
    && |run| >= 1
    && run[0] == System(map[], [], map[])
    && forall n :: 0 < n < |run| ==> Step(w, run[n - 1], run[n])
  }

  // ---------- the invariant ----------

  function HeadHeight<D>(s: System<D>, t: string): nat {
    if t in s.heads then s.heads[t].height else 0
  }

  ghost predicate ReturnedAt<D>(s: System<D>, i: nat, t: string, k: nat) {
    && i < |s.calls| && s.calls[i].phase.Returned?
    && var r := s.calls[i].phase.receipt;
    && r.tenant == Text(t) && r.integrity.Some? && r.integrity.value.height == Number(k as real)
  }

  // Height k of tenant t was won by a call that returned the receipt of that height.
  ghost predicate Won<D>(s: System<D>, t: string, k: nat) {
    (t, k) in s.winners && ReturnedAt(s, s.winners[(t, k)], t, k)
  }

  function WonReceipt<D>(s: System<D>, t: string, k: nat): SignedReceipt<D>
    requires Won(s, t, k)
  {
    s.calls[s.winners[(t, k)]].phase.receipt
  }

  // The hash that the receipt at height k + 1 must link to.
  function TipHash<D>(w: World<D>, s: System<D>, t: string, k: nat): D
    requires k > 0 ==> Won(s, t, k)
  {
    if k == 0 then w.v.genesis else WonReceipt(s, t, k).integrity.value.receiptHash
  }

  // A chain state that was once the head: it names a height still on the chain, and the hash there.
  ghost predicate OnChain<D>(w: World<D>, s: System<D>, prev: ChainState<D>) {
    && prev.height <= HeadHeight(s, prev.tenant)
    && (prev.height > 0 ==> Won(s, prev.tenant, prev.height))
    && prev.previousHash == TipHash(w, s, prev.tenant, prev.height)
    && (prev.height > 0 ==> prev.lastReceiptId == Some(WonReceipt(s, prev.tenant, prev.height).id))
  }

  // r is what the signer makes of this content on some head.
  ghost predicate SignedBy<D>(v: Verifier<D>, k: Signer<D>, t: string, content: string, r: SignedReceipt<D>) {
    r.integrity.Some? && exists id, height: nat :: r == SignedOn(v, k, t, id, content, Before(t, height, r))
  }

  // A chain state that r would extend at the given height.
  function Before<D>(t: string, height: nat, r: SignedReceipt<D>): ChainState<D>
    requires r.integrity.Some?
  {
    ChainState(t, height, r.integrity.value.previousHash, None)
  }

  ghost predicate HeightOk<D>(w: World<D>, s: System<D>, t: string, k: nat) {
    && k >= 1 && Won(s, t, k) && (k > 1 ==> Won(s, t, k - 1))
    && var r := WonReceipt(s, t, k);
    && (var c := s.calls[s.winners[(t, k)]]; SignedBy(w.v, c.signer, t, c.content, r))
    && r.integrity.value.previousHash == TipHash(w, s, t, k - 1)
  }

  ghost predicate HeadsOk<D>(w: World<D>, s: System<D>) {
    forall t :: t in s.heads ==>
      s.heads[t].tenant == t && 1 <= s.heads[t].height <= MAX_SAFE_INTEGER && OnChain(w, s, s.heads[t])
  }

  ghost predicate HeightsOk<D>(w: World<D>, s: System<D>) {
    forall t, k: nat :: 1 <= k <= HeadHeight(s, t) ==> HeightOk(w, s, t, k)
  }

  ghost predicate CallOk<D>(w: World<D>, s: System<D>, i: nat)
    requires i < |s.calls|
  {
    var c := s.calls[i];
    match c.phase
    case Loading(_) => true
    case Committing(_, prev, signed) =>
      && prev.tenant == c.tenant && OnChain(w, s, prev)
      && exists id :: BuildSignedReceipt(w.v, c.signer, c.tenant, id, c.content, prev) == Ok(signed)
    case Returned(r) =>
      exists k: nat :: 1 <= k <= HeadHeight(s, c.tenant) && s.winners.Keys >= {(c.tenant, k)}
                       && s.winners[(c.tenant, k)] == i && ReturnedAt(s, i, c.tenant, k)
    case Threw => true
  }

  ghost predicate Invariant<D>(w: World<D>, s: System<D>) {
    HeadsOk(w, s) && HeightsOk(w, s) && forall i :: 0 <= i < |s.calls| ==> CallOk(w, s, i)
  }

  // ---------- the invariant is kept ----------

  // s' keeps every committed receipt of s in place.
  ghost predicate Keeps<D>(s: System<D>, s': System<D>) {
    && (forall t :: HeadHeight(s, t) <= HeadHeight(s', t))
    && (forall t, k: nat :: 1 <= k <= HeadHeight(s, t) && Won(s, t, k) ==>
          Won(s', t, k) && WonReceipt(s', t, k) == WonReceipt(s, t, k) && s'.winners[(t, k)] == s.winners[(t, k)])
    && (forall i :: 0 <= i < |s.calls| && s.calls[i].phase.Returned? ==>
          i < |s'.calls| && s'.calls[i] == s.calls[i])
  }

  lemma {:induction false} OnChainKept<D>(w: World<D>, s: System<D>, s': System<D>, prev: ChainState<D>)
    requires Keeps(s, s') && OnChain(w, s, prev)
    ensures OnChain(w, s', prev)
  {
    hide Won, WonReceipt;
  }

  lemma {:induction false} HeightKept<D>(w: World<D>, s: System<D>, s': System<D>, t: string, k: nat)
    requires Keeps(s, s') && HeightOk(w, s, t, k) && k <= HeadHeight(s, t)
    ensures HeightOk(w, s', t, k)
  {
    hide WonReceipt, SignedBy;
  }

  lemma {:induction false} CallKept<D>(w: World<D>, s: System<D>, s': System<D>, i: nat)
    requires Keeps(s, s') && i < |s.calls| && CallOk(w, s, i)
    requires i < |s'.calls| && s'.calls[i] == s.calls[i]
    ensures CallOk(w, s', i)
  {
    if s.calls[i].phase.Committing? {
      OnChainKept(w, s, s', s.calls[i].phase.prev);
    } else if s.calls[i].phase.Returned? {
      var t := s.calls[i].tenant;
      var k: nat :| 1 <= k <= HeadHeight(s, t) && s.winners.Keys >= {(t, k)}
                    && s.winners[(t, k)] == i && ReturnedAt(s, i, t, k);
      assert Won(s, t, k);
      assert Won(s', t, k) && s'.winners[(t, k)] == i;
    }
  }

  lemma {:induction false} QuietKeeps<D>(s: System<D>, s': System<D>, i: nat)
    requires s'.heads == s.heads && s'.winners == s.winners
    requires i < |s'.calls| && |s'.calls| == (if i < |s.calls| then |s.calls| else i + 1)
    requires i < |s.calls| ==> !s.calls[i].phase.Returned?
    requires i <= |s.calls| && forall j :: 0 <= j < |s.calls| && j != i ==> s'.calls[j] == s.calls[j]
    ensures Keeps(s, s')
  {
  }

  lemma {:induction false} IdleOk<D>(w: World<D>, s: System<D>, i: nat)
    requires i < |s.calls| && (s.calls[i].phase.Loading? || s.calls[i].phase.Threw?)
    ensures CallOk(w, s, i)
  {
  }

  // A step that commits nothing.
  lemma {:induction false} QuietStep<D>(w: World<D>, s: System<D>, s': System<D>, i: nat)
    requires Invariant(w, s) && s'.heads == s.heads && s'.winners == s.winners
    requires i < |s'.calls| && |s'.calls| == (if i < |s.calls| then |s.calls| else i + 1)
    requires i < |s.calls| ==> !s.calls[i].phase.Returned?
    requires i <= |s.calls| && forall j :: 0 <= j < |s.calls| && j != i ==> s'.calls[j] == s.calls[j]
    requires s'.calls[i].phase.Loading? || s'.calls[i].phase.Threw? || CallOk(w, s', i)
    ensures Invariant(w, s') && Keeps(s, s')
  {
    hide OnChain, HeightOk, CallOk, Won, WonReceipt, ReturnedAt, Keeps;
    QuietKeeps(s, s', i);
    forall t | t in s'.heads ensures OnChain(w, s', s'.heads[t]) {
      OnChainKept(w, s, s', s.heads[t]);
    }
    forall t, k: nat | 1 <= k <= HeadHeight(s', t) ensures HeightOk(w, s', t, k) {
      HeightKept(w, s, s', t, k);
    }
    forall j | 0 <= j < |s'.calls| ensures CallOk(w, s', j) {
      if j != i {
        CallKept(w, s, s', j);
      } else if s'.calls[i].phase.Loading? || s'.calls[i].phase.Threw? {
        IdleOk(w, s', i);
      }
    }
  }

  // Heights never repeat, so equal heights mean that the caller still holds the head itself.
  lemma {:induction false} AllowedMeansHead<D>(w: World<D>, s: System<D>, prev: ChainState<D>)
    requires HeadsOk(w, s) && OnChain(w, s, prev)
    ensures Allows(w.kind, s.heads, prev) <==> prev.height == HeadHeight(s, prev.tenant)
    ensures Allows(w.kind, s.heads, prev) && prev.tenant in s.heads ==>
      prev.previousHash == s.heads[prev.tenant].previousHash
  {
    assert prev.tenant in s.heads ==> OnChain(w, s, s.heads[prev.tenant]);
  }

  lemma {:induction false} CommitKeeps<D>(w: World<D>, s: System<D>, i: nat)
    requires Invariant(w, s) && i < |s.calls| && s.calls[i].phase.Committing?
    requires Allows(w.kind, s.heads, s.calls[i].phase.prev)
    ensures var p := s.calls[i].phase;
      && Keeps(s, Commit(s, i, p.prev, p.signed))
      && Won(Commit(s, i, p.prev, p.signed), p.prev.tenant, p.prev.height + 1)
  {
    var p := s.calls[i].phase;
    var s' := Commit(s, i, p.prev, p.signed);
    assert CallOk(w, s, i);
    AllowedMeansHead(w, s, p.prev);
    hide Allows, HeadsOk, HeightsOk;
    forall t, k: nat | 1 <= k <= HeadHeight(s, t) && Won(s, t, k)
      ensures Won(s', t, k) && WonReceipt(s', t, k) == WonReceipt(s, t, k) && s'.winners[(t, k)] == s.winners[(t, k)]
    {
      WonStays(s, i, p.prev, p.signed, t, k);
    }
  }

  lemma {:induction false} WonStays<D>(s: System<D>, i: nat, prev: ChainState<D>, signed: SignedReceipt<D>,
                                       t: string, k: nat)
    requires i < |s.calls| && s.calls[i].phase.Committing? && Won(s, t, k)
    requires (t, k) != (prev.tenant, prev.height + 1)
    ensures var s' := Commit(s, i, prev, signed);
      Won(s', t, k) && WonReceipt(s', t, k) == WonReceipt(s, t, k) && s'.winners[(t, k)] == s.winners[(t, k)]
  {
    assert s.winners[(t, k)] != i;
  }

  // What is known of a call about to commit.
  lemma {:induction false} CommittingCall<D>(w: World<D>, s: System<D>, i: nat) returns (id: string)
    requires Invariant(w, s) && i < |s.calls| && s.calls[i].phase.Committing?
    ensures var c, p := s.calls[i], s.calls[i].phase;
      && p.prev.tenant == c.tenant && OnChain(w, s, p.prev) && p.prev.height < MAX_SAFE_INTEGER
      && p.signed == SignedOn(w.v, c.signer, c.tenant, id, c.content, p.prev)
  {
    hide OnChain, SignedOn;
    assert CallOk(w, s, i);
    var c, p := s.calls[i], s.calls[i].phase;
    id :| BuildSignedReceipt(w.v, c.signer, c.tenant, id, c.content, p.prev) == Ok(p.signed);
  }

  // What signing on a head yields.
  lemma {:induction false} SignedParts<D>(v: Verifier<D>, k: Signer<D>, t: string, id: string, content: string,
                                               prev: ChainState<D>)
    ensures var r := SignedOn(v, k, t, id, content, prev);
      && HasHeight(r, prev.height + 1) && r.tenant == Text(t) && r.integrity.value.previousHash == prev.previousHash
      && SignedBy(v, k, t, content, r)
  {
    var r := SignedOn(v, k, t, id, content, prev);
    assert r == SignedOn(v, k, t, id, content, Before(t, prev.height, r));
  }

  // The new top of the chain is in order.
  lemma {:induction false} CommitTop<D>(w: World<D>, s: System<D>, i: nat)
    requires Invariant(w, s) && i < |s.calls| && s.calls[i].phase.Committing?
    requires Allows(w.kind, s.heads, s.calls[i].phase.prev)
    ensures var p := s.calls[i].phase;
      var s' := Commit(s, i, p.prev, p.signed);
      && HeadHeight(s, p.prev.tenant) == p.prev.height < MAX_SAFE_INTEGER
      && HeightOk(w, s', p.prev.tenant, p.prev.height + 1)
      && OnChain(w, s', s'.heads[p.prev.tenant])
      && CallOk(w, s', i)
  {
    var p := s.calls[i].phase;
    var id := CommittingCall(w, s, i);
    AllowedMeansHead(w, s, p.prev);
    CommitKeeps(w, s, i);
    SignedParts(w.v, s.calls[i].signer, p.prev.tenant, id, s.calls[i].content, p.prev);
    TopOk(w, s, i);
  }

  lemma {:induction false} TopOk<D>(w: World<D>, s: System<D>, i: nat)
    requires i < |s.calls| && s.calls[i].phase.Committing?
    requires var c, p := s.calls[i], s.calls[i].phase;
      && p.prev.tenant == c.tenant && OnChain(w, s, p.prev) && HeadHeight(s, c.tenant) == p.prev.height
      && HasHeight(p.signed, p.prev.height + 1) && p.signed.tenant == Text(c.tenant)
      && p.signed.integrity.value.previousHash == p.prev.previousHash
      && SignedBy(w.v, c.signer, c.tenant, c.content, p.signed)
      && Keeps(s, Commit(s, i, p.prev, p.signed))
    ensures var p := s.calls[i].phase;
      var s' := Commit(s, i, p.prev, p.signed);
      && HeightOk(w, s', p.prev.tenant, p.prev.height + 1)
      && OnChain(w, s', s'.heads[p.prev.tenant])
      && CallOk(w, s', i)
  {
    var c, p := s.calls[i], s.calls[i].phase;
    var t, h := c.tenant, p.prev.height;
    var s' := Commit(s, i, p.prev, p.signed);
    OnChainKept(w, s, s', p.prev);
    hide SignedBy, Keeps;
    assert ReturnedAt(s', i, t, h + 1) && s'.winners[(t, h + 1)] == i;
    assert Won(s', t, h + 1) && WonReceipt(s', t, h + 1) == p.signed;
  }

  lemma {:induction false} CommitHeads<D>(w: World<D>, s: System<D>, i: nat)
    requires Invariant(w, s) && i < |s.calls| && s.calls[i].phase.Committing?
    requires Allows(w.kind, s.heads, s.calls[i].phase.prev)
    ensures var p := s.calls[i].phase; HeadsOk(w, Commit(s, i, p.prev, p.signed))
  {
    var p := s.calls[i].phase;
    var s' := Commit(s, i, p.prev, p.signed);
    hide OnChain, HeightOk, CallOk, Keeps, Allows, HeightsOk;
    CommitKeeps(w, s, i);
    CommitTop(w, s, i);
    forall u | u in s'.heads
      ensures s'.heads[u].tenant == u && 1 <= s'.heads[u].height <= MAX_SAFE_INTEGER && OnChain(w, s', s'.heads[u])
    {
      if u != p.prev.tenant {
        OnChainKept(w, s, s', s.heads[u]);
      }
    }
  }

  lemma {:induction false} CommitHeights<D>(w: World<D>, s: System<D>, i: nat)
    requires Invariant(w, s) && i < |s.calls| && s.calls[i].phase.Committing?
    requires Allows(w.kind, s.heads, s.calls[i].phase.prev)
    ensures var p := s.calls[i].phase; HeightsOk(w, Commit(s, i, p.prev, p.signed))
  {
    var p := s.calls[i].phase;
    var t, h := p.prev.tenant, p.prev.height;
    var s' := Commit(s, i, p.prev, p.signed);
    hide OnChain, HeightOk, CallOk, Keeps, Allows, HeadsOk;
    CommitKeeps(w, s, i);
    CommitTop(w, s, i);
    forall u, k: nat | 1 <= k <= HeadHeight(s', u) ensures HeightOk(w, s', u, k) {
      if u != t || k <= h {
        assert HeightOk(w, s, u, k);
        HeightKept(w, s, s', u, k);
      }
    }
  }

  lemma {:induction false} CommitStep<D>(w: World<D>, s: System<D>, i: nat)
    requires Invariant(w, s) && i < |s.calls| && s.calls[i].phase.Committing?
    requires Allows(w.kind, s.heads, s.calls[i].phase.prev)
    ensures var p := s.calls[i].phase; Invariant(w, Commit(s, i, p.prev, p.signed))
  {
    var p := s.calls[i].phase;
    var s' := Commit(s, i, p.prev, p.signed);
    hide HeadsOk, HeightsOk, HeightOk, OnChain, CallOk, Keeps, Allows;
    CommitHeads(w, s, i);
    CommitHeights(w, s, i);
    CommitKeeps(w, s, i);
    CommitTop(w, s, i);
    forall j | 0 <= j < |s'.calls| ensures CallOk(w, s', j) {
      if j != i {
        CallKept(w, s, s', j);
      }
    }
  }

  lemma {:induction false} LoadedIsOnChain<D>(w: World<D>, s: System<D>, t: string)
    requires Invariant(w, s)
    ensures Head(s.heads, t, w.v.genesis).tenant == t && OnChain(w, s, Head(s.heads, t, w.v.genesis))
  {
  }

  lemma {:induction false} NewCallKeeps<D>(w: World<D>, s: System<D>, s': System<D>)
    requires Invariant(w, s) && NewCall(s, s')
    ensures Invariant(w, s') && Keeps(s, s')
  {
    hide Invariant, Keeps, CallOk;
    assert forall j :: 0 <= j < |s.calls| ==> s'.calls[..|s.calls|][j] == s'.calls[j];
    QuietStep(w, s, s', |s.calls|);
  }

  lemma {:induction false} LoadKeeps<D>(w: World<D>, s: System<D>, i: nat, a: nat, id: string)
    requires Invariant(w, s) && i < |s.calls| && s.calls[i].phase.Loading?
    requires BuildSignedReceipt(w.v, s.calls[i].signer, s.calls[i].tenant, id, s.calls[i].content,
                                Head(s.heads, s.calls[i].tenant, w.v.genesis)).Ok?
    ensures var c, prev := s.calls[i], Head(s.heads, s.calls[i].tenant, w.v.genesis);
      var signed := BuildSignedReceipt(w.v, c.signer, c.tenant, id, c.content, prev).value;
      var s' := Move(s, i, Committing(a, prev, signed));
      Invariant(w, s') && Keeps(s, s')
  {
    var c, prev := s.calls[i], Head(s.heads, s.calls[i].tenant, w.v.genesis);
    var signed := BuildSignedReceipt(w.v, c.signer, c.tenant, id, c.content, prev).value;
    var s' := Move(s, i, Committing(a, prev, signed));
    LoadedIsOnChain(w, s, c.tenant);
    QuietKeeps(s, s', i);
    OnChainKept(w, s, s', prev);
    hide Invariant, Keeps, OnChain, BuildSignedReceipt, Head;
    assert CallOk(w, s', i);
    QuietStep(w, s, s', i);
  }

  lemma {:induction false} StepKeeps<D>(w: World<D>, s: System<D>, s': System<D>)
    requires Invariant(w, s) && Step(w, s, s')
    ensures Invariant(w, s') && Keeps(s, s')
  {
    hide Invariant, Keeps, Commit, Allows, Head, BuildSignedReceipt;
    if NewCall(s, s') {
      NewCallKeeps(w, s, s');
    } else {
      var i: nat, id :| CallStep(w, s, s', i, id);
      var c := s.calls[i];
      if s' == Move(s, i, Threw) {
        QuietStep(w, s, s', i);
      } else if c.phase.Loading? {
        LoadKeeps(w, s, i, c.phase.attempt, id);
      } else if Allows(w.kind, s.heads, c.phase.prev) {
        CommitKeeps(w, s, i);
        CommitStep(w, s, i);
      } else {
        QuietStep(w, s, s', i);
      }
    }
  }

  lemma {:induction false} RunKeeps<D>(w: World<D>, run: seq<System<D>>, n: nat)
    requires IsRun(w, run) && n < |run|
    ensures Invariant(w, run[n])
  {
    if n > 0 {
      hide Invariant, Step;
      RunKeeps(w, run, n - 1);
      StepKeeps(w, run[n - 1], run[n]);
    }
  }

  // ---------- fork freedom ----------

  ghost predicate ReturnedBySome<D>(s: System<D>, t: string, k: nat) {
    exists i: nat :: ReturnedAt(s, i, t, k)
  }

  // In every reachable state, each height up to the head was returned by exactly one call, and
  // no call returned anything else for the tenant.
  lemma {:induction false} ForkFree<D>(w: World<D>, run: seq<System<D>>, n: nat, t: string)
    requires IsRun(w, run) && n < |run|
    ensures forall k: nat :: ReturnedBySome(run[n], t, k) <==> 1 <= k <= HeadHeight(run[n], t)
    ensures forall i: nat, j: nat, k: nat :: ReturnedAt(run[n], i, t, k) && ReturnedAt(run[n], j, t, k) ==> i == j
  {
    RunKeeps(w, run, n);
    var s := run[n];
    forall k: nat | 1 <= k <= HeadHeight(s, t) ensures ReturnedBySome(s, t, k) {
      assert HeightOk(w, s, t, k);
      assert ReturnedAt(s, s.winners[(t, k)], t, k);
    }
    forall i: nat, k: nat | ReturnedAt(s, i, t, k)
      ensures 1 <= k <= HeadHeight(s, t) && (t, k) in s.winners && s.winners[(t, k)] == i
    {
      ReturnedWon(w, s, i, t, k);
    }
  }

  lemma {:induction false} ReturnedWon<D>(w: World<D>, s: System<D>, i: nat, t: string, k: nat)
    requires Invariant(w, s) && ReturnedAt(s, i, t, k)
    ensures 1 <= k <= HeadHeight(s, t) && Won(s, t, k) && s.winners[(t, k)] == i
  {
    assert CallOk(w, s, i);
    var u := s.calls[i].tenant;
    var m: nat :| 1 <= m <= HeadHeight(s, u) && s.winners.Keys >= {(u, m)}
                  && s.winners[(u, m)] == i && ReturnedAt(s, i, u, m);
    assert (m as real).Floor == (k as real).Floor;
  }

  // What a call gives to sign does not change.
  ghost predicate SameArguments<D>(c: Call<D>, c': Call<D>) {
    c'.tenant == c.tenant && c'.content == c.content && c'.signer == c.signer && c'.maxRetries == c.maxRetries
  }

  lemma {:induction false} ArgumentsStay<D>(w: World<D>, run: seq<System<D>>, m: nat, n: nat, i: nat)
    requires IsRun(w, run) && m <= n < |run| && i < |run[m].calls|
    ensures i < |run[n].calls| && SameArguments(run[m].calls[i], run[n].calls[i])
    decreases n
  {
    if m < n {
      hide Step;
      ArgumentsStay(w, run, m, n - 1, i);
      StepArguments(w, run[n - 1], run[n], i);
    }
  }

  lemma {:induction false} StepArguments<D>(w: World<D>, s: System<D>, s': System<D>, i: nat)
    requires Step(w, s, s') && i < |s.calls|
    ensures i < |s'.calls| && SameArguments(s.calls[i], s'.calls[i])
  {
    hide Allows, Head, BuildSignedReceipt;
    if NewCall(s, s') {
      assert s'.calls[..|s.calls|][i] == s'.calls[i];
    } else {
      var j: nat, id :| CallStep(w, s, s', j, id);
    }
  }

  // A returned receipt is the caller's own: it carries the tenant and content of its call, its hash is
  // that of the body with all its fields, and its one entry is the caller's EdDSA signature over them.
  lemma {:induction false} ReturnedCarriesItsCall<D>(w: World<D>, run: seq<System<D>>, m: nat, n: nat, i: nat)
    requires IsRun(w, run) && m <= n < |run| && i < |run[m].calls|
    ensures i < |run[n].calls|
    ensures run[n].calls[i].phase.Returned? ==>
      var c, r := run[m].calls[i], run[n].calls[i].phase.receipt;
      && r.tenant == Text(c.tenant) && r.content == c.content && r.integrity.Some?
      && var body := Body(Text(c.tenant), r.id, c.content, r.integrity.value.previousHash, r.integrity.value.height);
      && r.integrity.value.receiptHash == w.v.hash(body)
      && r.signatures == [Signature(true, c.signer.kid, c.signer.sign(body, w.v.hash(body)))]
  {
    ArgumentsStay(w, run, m, n, i);
    RunKeeps(w, run, n);
    var s := run[n];
    if s.calls[i].phase.Returned? {
      hide *;
      ReturnedSigned(w, s, i);
      SameArgumentsParts(run[m].calls[i], s.calls[i]);
    }
  }

  lemma {:induction false} SameArgumentsParts<D>(c: Call<D>, c': Call<D>)
    requires SameArguments(c, c')
    ensures c'.tenant == c.tenant && c'.content == c.content && c'.signer == c.signer
  {
  }

  lemma {:induction false} ReturnedSigned<D>(w: World<D>, s: System<D>, i: nat)
    requires Invariant(w, s) && i < |s.calls| && s.calls[i].phase.Returned?
    ensures var c, r := s.calls[i], s.calls[i].phase.receipt;
      && r.tenant == Text(c.tenant) && r.content == c.content && r.integrity.Some?
      && var body := Body(Text(c.tenant), r.id, c.content, r.integrity.value.previousHash, r.integrity.value.height);
      && r.integrity.value.receiptHash == w.v.hash(body)
      && r.signatures == [Signature(true, c.signer.kid, c.signer.sign(body, w.v.hash(body)))]
  {
    assert CallOk(w, s, i);
    var c, r := s.calls[i], s.calls[i].phase.receipt;
    var k: nat :| 1 <= k <= HeadHeight(s, c.tenant) && s.winners.Keys >= {(c.tenant, k)}
                  && s.winners[(c.tenant, k)] == i && ReturnedAt(s, i, c.tenant, k);
    assert HeightOk(w, s, c.tenant, k);
    hide Invariant, CallOk;
    assert SignedBy(w.v, c.signer, c.tenant, c.content, r);
    var id, height: nat :| r == SignedOn(w.v, c.signer, c.tenant, id, c.content, Before(c.tenant, height, r));
  }

  // The receipts at heights 1 to h, in order.
  function ChainOf<D>(s: System<D>, t: string, h: nat): (chain: seq<SignedReceipt<D>>)
    requires forall k: nat :: 1 <= k <= h ==> Won(s, t, k)
    ensures |chain| == h && forall i :: 0 <= i < h ==> chain[i] == WonReceipt(s, t, i + 1)
  {
    if h == 0 then [] else ChainOf(s, t, h - 1) + [WonReceipt(s, t, h)]
  }

  // The receipts at heights 1 to h carry those heights and link to each other from genesis, each as
  // its caller signed it, and the stored head is hash and id of the last.
  lemma {:induction false} ChainIsLinked<D>(w: World<D>, s: System<D>, t: string)
    requires Invariant(w, s) && t in s.heads
    ensures forall k: nat :: 1 <= k <= HeadHeight(s, t) ==> Won(s, t, k)
    ensures var chain := ChainOf(s, t, HeadHeight(s, t));
      && (forall i :: 0 <= i < |chain| ==> LinkedAt(w, s, t, chain, i))
      && s.heads[t].previousHash == chain[|chain| - 1].integrity.value.receiptHash
      && s.heads[t].lastReceiptId == Some(chain[|chain| - 1].id)
  {
    var h := HeadHeight(s, t);
    forall k: nat | 1 <= k <= h ensures Won(s, t, k) {
      assert HeightOk(w, s, t, k);
    }
    var chain := ChainOf(s, t, h);
    forall i | 0 <= i < |chain|
      ensures LinkedAt(w, s, t, chain, i)
    {
      assert HeightOk(w, s, t, i + 1);
      assert chain[i] == WonReceipt(s, t, i + 1);
    }
    assert HeightOk(w, s, t, h) && OnChain(w, s, s.heads[t]);
    assert chain[h - 1] == WonReceipt(s, t, h);
  }

  ghost predicate LinkedAt<D>(w: World<D>, s: System<D>, t: string, chain: seq<SignedReceipt<D>>, i: nat)
    requires i < |chain|
  {
    && HasHeight(chain[i], i + 1) && chain[i].tenant == Text(t)
    && (exists j: nat :: j < |s.calls| && SignedBy(w.v, s.calls[j].signer, t, s.calls[j].content, chain[i]))
    && (i == 0 ==> chain[i].integrity.value.previousHash == w.v.genesis)
    && (i > 0 ==> chain[i - 1].integrity.Some?
                  && chain[i].integrity.value.previousHash == chain[i - 1].integrity.value.receiptHash)
  }

  // The verifier holds the key of every caller.
  ghost predicate AllTrusted<D(!new)>(w: World<D>, s: System<D>) {
    forall i :: 0 <= i < |s.calls| ==> Trusts(w.v, s.calls[i].signer)
  }

  lemma {:induction false} TrustedChecks<D(!new)>(w: World<D>, s: System<D>, t: string, chain: seq<SignedReceipt<D>>,
                                                  i: nat)
    requires AllTrusted(w, s) && i < |chain| && LinkedAt(w, s, t, chain, i)
    ensures OwnChecks(w.v, chain[i])
  {
    var j: nat :| j < |s.calls| && SignedBy(w.v, s.calls[j].signer, t, s.calls[j].content, chain[i]);
    var c := s.calls[j];
    var id, h: nat :| chain[i] == SignedOn(w.v, c.signer, t, id, c.content, Before(t, h, chain[i]));
    hide SignedOn, OwnChecks;
    BuiltPassesOwnChecks(w.v, c.signer, t, id, c.content, Before(t, h, chain[i]));
  }

  lemma {:induction false} LinkedChain<D(!new)>(w: World<D>, s: System<D>, t: string, chain: seq<SignedReceipt<D>>)
    requires AllTrusted(w, s) && chain != [] && forall i :: 0 <= i < |chain| ==> LinkedAt(w, s, t, chain, i)
    ensures IsChain(w.v, chain) && StartsAtGenesis(w.v, chain)
  {
    hide AllTrusted, OwnChecks, SignedBy;
    assert LinkedAt(w, s, t, chain, 0);
    forall i | 0 <= i < |chain|
      ensures chain[i].tenant == chain[0].tenant != Other && OwnChecks(w.v, chain[i]) && HasHeight(chain[i], 1 + i)
    {
      assert LinkedAt(w, s, t, chain, i);
      TrustedChecks(w, s, t, chain, i);
    }
    forall i | 0 < i < |chain|
      ensures chain[i].integrity.value.previousHash == chain[i - 1].integrity.value.receiptHash
    {
      assert LinkedAt(w, s, t, chain, i);
    }
    assert IsBase(w.v, chain, 1);
  }

  // ---------- the auditor accepts what the signers returned ----------

  function ReturnedFor<D>(calls: seq<Call<D>>, t: string): seq<SignedReceipt<D>> {
    if calls == [] then []
    else
      var c := calls[|calls| - 1];
      ReturnedFor(calls[..|calls| - 1], t)
      + if c.phase.Returned? && c.phase.receipt.tenant == Text(t) then [c.phase.receipt] else []
  }

  ghost predicate IsReturned<D>(s: System<D>, i: nat, t: string, r: SignedReceipt<D>) {
    i < |s.calls| && s.calls[i].phase == Returned(r) && r.tenant == Text(t)
  }

  ghost predicate WasReturned<D>(s: System<D>, n: nat, t: string, r: SignedReceipt<D>) {
    exists i: nat :: i < n && IsReturned(s, i, t, r)
  }

  // Returned receipts of a tenant are those of its chain, each returned once.
  lemma {:induction false} ReturnedIsOnChain<D>(w: World<D>, s: System<D>, t: string, i: nat, r: SignedReceipt<D>)
    returns (k: nat)
    requires Invariant(w, s) && IsReturned(s, i, t, r)
    ensures ReturnedAt(s, i, t, k)
  {
    assert CallOk(w, s, i);
    var u := s.calls[i].tenant;
    k :| 1 <= k <= HeadHeight(s, u) && s.winners.Keys >= {(u, k)}
         && s.winners[(u, k)] == i && ReturnedAt(s, i, u, k);
  }

  lemma {:induction false} ReturnedForElements<D>(w: World<D>, s: System<D>, t: string, n: nat)
    requires Invariant(w, s) && n <= |s.calls|
    ensures forall r :: r in ReturnedFor(s.calls[..n], t) <==> WasReturned(s, n, t, r)
    ensures NoRepeats(ReturnedFor(s.calls[..n], t))
  {
    if n > 0 {
      hide Invariant;
      ReturnedForElements(w, s, t, n - 1);
      var before, c := ReturnedFor(s.calls[..n - 1], t), s.calls[n - 1];
      assert s.calls[..n][..n - 1] == s.calls[..n - 1];
      if c.phase.Returned? && c.phase.receipt.tenant == Text(t) {
        var r := c.phase.receipt;
        assert IsReturned(s, n - 1, t, r);
        if r in before {
          assert WasReturned(s, n - 1, t, r);
          var i: nat :| i < n - 1 && IsReturned(s, i, t, r);
          var k := ReturnedIsOnChain(w, s, t, i, r);
          ReturnedWon(w, s, i, t, k);
          ReturnedWon(w, s, n - 1, t, k);
          assert false;
        }
      }
    }
  }

  // In every reachable state and for every tenant with a head, if the verifier holds the callers'
  // keys: the returned receipts, in any order, pass the audit as complete from genesis, and the last
  // of them is the stored head.
  lemma {:induction false} AuditorAccepts<D(!new)>(w: World<D>, run: seq<System<D>>, n: nat, t: string,
                                                   receipts: seq<SignedReceipt<D>>)
    requires IsRun(w, run) && n < |run| && t in run[n].heads && AllTrusted(w, run[n])
    requires multiset(receipts) == multiset(ReturnedFor(run[n].calls, t))
    ensures AuditPasses(w.v, receipts) && StartsAtGenesis(w.v, InHeightOrder(receipts))
    ensures |receipts| == run[n].heads[t].height >= 1
    ensures var last := InHeightOrder(receipts)[|receipts| - 1].integrity;
      last.Some? && last.value.receiptHash == run[n].heads[t].previousHash
  {
    var s := run[n];
    RunKeeps(w, run, n);
    ChainIsLinked(w, s, t);
    var chain := ChainOf(s, t, HeadHeight(s, t));
    ReturnedIsChain(w, s, t);
    HeadIsSafe(w, s, t);
    hide Invariant, AuditPasses, InHeightOrder, IsChain, Won, WonReceipt, LinkedAt, SafeHeights;
    LinkedChain(w, s, t, chain);
    ChainOrder(w.v, chain, receipts);
    ChainIsSafe(w, s, t, chain, receipts);
    AuditMeaning(w.v, receipts);
  }

  lemma {:induction false} HeadIsSafe<D>(w: World<D>, s: System<D>, t: string)
    requires Invariant(w, s) && t in s.heads
    ensures 1 <= s.heads[t].height <= MAX_SAFE_INTEGER
  {
  }

  lemma {:induction false} ChainIsSafe<D>(w: World<D>, s: System<D>, t: string, chain: seq<SignedReceipt<D>>,
                                          receipts: seq<SignedReceipt<D>>)
    requires |chain| <= MAX_SAFE_INTEGER && forall i :: 0 <= i < |chain| ==> LinkedAt(w, s, t, chain, i)
    requires multiset(receipts) == multiset(chain)
    ensures SafeHeights(receipts)
  {
    forall r | r in receipts ensures HeightOf(r) <= MAX_SAFE_INTEGER as real {
      assert r in multiset(chain);
      var i :| 0 <= i < |chain| && chain[i] == r;
      assert LinkedAt(w, s, t, chain, i);
    }
  }

  lemma {:induction false} ReturnedInChain<D>(w: World<D>, s: System<D>, t: string, i: nat, r: SignedReceipt<D>)
    requires Invariant(w, s) && IsReturned(s, i, t, r)
    requires forall k: nat :: 1 <= k <= HeadHeight(s, t) ==> Won(s, t, k)
    ensures r in ChainOf(s, t, HeadHeight(s, t))
  {
    var k := ReturnedIsOnChain(w, s, t, i, r);
    ReturnedWon(w, s, i, t, k);
    assert ChainOf(s, t, HeadHeight(s, t))[k - 1] == WonReceipt(s, t, k) == r;
  }

  lemma {:induction false} ReturnedIsChain<D>(w: World<D>, s: System<D>, t: string)
    requires Invariant(w, s) && t in s.heads
    requires forall k: nat :: 1 <= k <= HeadHeight(s, t) ==> Won(s, t, k)
    ensures multiset(ReturnedFor(s.calls, t)) == multiset(ChainOf(s, t, HeadHeight(s, t)))
  {
    hide Invariant, Won, WonReceipt, IsReturned;
    var chain := ChainOf(s, t, HeadHeight(s, t));
    var returned := ReturnedFor(s.calls[..|s.calls|], t);
    assert s.calls[..|s.calls|] == s.calls;
    ReturnedForElements(w, s, t, |s.calls|);
    forall r | r in returned ensures r in chain {
      assert WasReturned(s, |s.calls|, t, r);
      var i: nat :| i < |s.calls| && IsReturned(s, i, t, r);
      ReturnedInChain(w, s, t, i, r);
    }
    forall r | r in chain ensures r in returned {
      var i :| 0 <= i < |chain| && chain[i] == r;
      WonIsReturned(s, t, i + 1);
      assert WonReceipt(s, t, i + 1) == chain[i];
      assert IsReturned(s, s.winners[(t, i + 1)], t, r);
      assert WasReturned(s, |s.calls|, t, r);
    }
    forall i, j | 0 <= i < j < |chain| ensures chain[i] != chain[j] {
      WonIsReturned(s, t, i + 1);
      WonIsReturned(s, t, j + 1);
      assert ((i + 1) as real).Floor != ((j + 1) as real).Floor;
    }
    SameElements(returned, chain);
  }

  lemma {:induction false} WonIsReturned<D>(s: System<D>, t: string, k: nat)
    requires Won(s, t, k)
    ensures (t, k) in s.winners && s.winners[(t, k)] < |s.calls|
    ensures IsReturned(s, s.winners[(t, k)], t, WonReceipt(s, t, k))
    ensures WonReceipt(s, t, k).integrity.Some? && WonReceipt(s, t, k).integrity.value.height == Number(k as real)
  {
  }

  // A call that throws, or has not returned, leaves no receipt on any chain.
  lemma {:induction false} OnlyReturnedCallsWin<D>(w: World<D>, run: seq<System<D>>, n: nat, t: string, k: nat)
    requires IsRun(w, run) && n < |run| && 1 <= k <= HeadHeight(run[n], t)
    ensures (t, k) in run[n].winners && run[n].winners[(t, k)] < |run[n].calls|
    ensures run[n].calls[run[n].winners[(t, k)]].phase.Returned?
  {
    RunKeeps(w, run, n);
    assert HeightOk(w, run[n], t, k);
  }
}
