// The append-only log of src/transparency-log/log.ts: its class, its provers, and its runs.
//
// publishSth takes its snapshot, awaits the signer, and only then records the head, so
// appends and other publications may happen in between. The class splits it at that point.
module TransparencyLog {
  import opened Wrappers
  import opened MerkleTree
  import Consistency

  datatype LogEntry<D> = LogEntry(logIndex: nat, leafHash: D, tenantId: string, receiptId: string)
  datatype Head<D> = Head(treeSize: nat, rootHash: D)
  datatype InclusionProof<D> = InclusionProof(logIndex: nat, treeSize: nat, auditPath: seq<D>)
  datatype ConsistencyProof<D> = ConsistencyProof(firstSize: int, secondSize: int, proof: seq<D>)

  // ---------- runs ----------

  // `signing` holds the snapshots whose signature is still awaited.
  datatype LogState<D> = LogState(leaves: seq<D>, signing: seq<Head<D>>, published: seq<Head<D>>)

  ghost predicate Appends<D>(s: LogState<D>, s': LogState<D>, leaf: D) {
    s' == s.(leaves := s.leaves + [leaf])
  }

  ghost predicate Begins<D>(h: (D, D) -> D, empty: D, s: LogState<D>, s': LogState<D>) {
    s' == s.(signing := s.signing + [Head(|s.leaves|, RootFromLeaves(h, empty, s.leaves))])
  }

  // The signer resolves for some awaited snapshot, in whatever order it likes.
  ghost predicate Finishes<D>(s: LogState<D>, s': LogState<D>, i: nat) {
    && i < |s.signing|
    && s' == s.(signing := s.signing[..i] + s.signing[i + 1..], published := s.published + [s.signing[i]])
  }

  // The signer rejects, and nothing is published.
  ghost predicate Rejects<D>(s: LogState<D>, s': LogState<D>, i: nat) {
    i < |s.signing| && s' == s.(signing := s.signing[..i] + s.signing[i + 1..])
  }

  ghost predicate Step<D(!new)>(h: (D, D) -> D, empty: D, s: LogState<D>, s': LogState<D>) {
    || (exists leaf :: Appends(s, s', leaf))
    || Begins(h, empty, s, s')
    || (exists i :: Finishes(s, s', i))
    || (exists i :: Rejects(s, s', i))
  }

  ghost predicate IsRun<D(!new)>(h: (D, D) -> D, empty: D, run: seq<LogState<D>>) {
    && |run| >= 1
    && run[0] == LogState([], [], [])
    && forall k :: 0 < k < |run| ==> Step(h, empty, run[k - 1], run[k])
  }

  // The head commits to a prefix of these leaves.
  ghost predicate IsHeadOf<D>(h: (D, D) -> D, empty: D, head: Head<D>, leaves: seq<D>) {
    head.treeSize <= |leaves| && head.rootHash == RootFromLeaves(h, empty, leaves[..head.treeSize])
  }

  ghost predicate Genuine<D>(h: (D, D) -> D, empty: D, s: LogState<D>) {
    && (forall head :: head in s.signing ==> IsHeadOf(h, empty, head, s.leaves))
    && (forall head :: head in s.published ==> IsHeadOf(h, empty, head, s.leaves))
  }

  lemma {:induction false} HeadOfLonger<D>(h: (D, D) -> D, empty: D, head: Head<D>, leaves: seq<D>, longer: seq<D>)
    requires leaves <= longer && IsHeadOf(h, empty, head, leaves)
    ensures IsHeadOf(h, empty, head, longer)
  {
    assert longer[..head.treeSize] == leaves[..head.treeSize];
  }

  // Every step keeps the leaves as a prefix, keeps every published head, and keeps all heads genuine.
  lemma {:induction false} StepKeeps<D(!new)>(h: (D, D) -> D, empty: D, s: LogState<D>, s': LogState<D>)
    requires Step(h, empty, s, s') && Genuine(h, empty, s)
    ensures Genuine(h, empty, s') && s.leaves <= s'.leaves && s.published <= s'.published
  {
    hide RootFromLeaves;
    assert s.leaves[..|s.leaves|] == s.leaves;
    if leaf :| Appends(s, s', leaf) {
      hide IsHeadOf;
      forall head | head in s.signing || head in s.published ensures IsHeadOf(h, empty, head, s'.leaves) {
        HeadOfLonger(h, empty, head, s.leaves, s'.leaves);
      }
    }
  }

  lemma {:induction false} RunKeeps<D(!new)>(h: (D, D) -> D, empty: D, run: seq<LogState<D>>, j: nat, k: nat)
    requires IsRun(h, empty, run) && j <= k < |run|
    ensures Genuine(h, empty, run[k]) && run[j].leaves <= run[k].leaves && run[j].published <= run[k].published
    decreases k
  {
    hide Step, Genuine;
    if k == 0 {
      GenuineStart<D>(h, empty);
    } else {
      RunKeeps(h, empty, run, if j < k then j else k - 1, k - 1);
      StepKeeps(h, empty, run[k - 1], run[k]);
    }
  }

  lemma {:induction false} GenuineStart<D>(h: (D, D) -> D, empty: D)
    ensures Genuine(h, empty, LogState([], [], []))
  {
  }

  // Append-only over every run: a head published at any time is, at every later time, still
  // published and still the root of the first treeSize leaves of the log.
  lemma {:induction false} PublishedHeadsStay<D(!new)>(h: (D, D) -> D, empty: D, run: seq<LogState<D>>,
                                                       j: nat, k: nat, head: Head<D>)
    requires IsRun(h, empty, run) && j <= k < |run| && head in run[j].published
    ensures head in run[k].published && IsHeadOf(h, empty, head, run[k].leaves)
  {
    hide Step, IsHeadOf;
    RunKeeps(h, empty, run, j, k);
    var i :| 0 <= i < |run[j].published| && run[j].published[i] == head;
    assert run[k].published[i] == head;
  }

  // Any two published heads, ordered by size, are joined by a proof that the verifier accepts.
  lemma {:induction false} PublishedHeadsAreConsistent<D(!new)>(h: (D, D) -> D, empty: D, run: seq<LogState<D>>,
                                                                k: nat, a: Head<D>, b: Head<D>)
    requires IsRun(h, empty, run) && k < |run|
    requires a in run[k].published && b in run[k].published && a.treeSize <= b.treeSize
    ensures b.treeSize <= |run[k].leaves|
    ensures Consistency.Accepts(h, a.treeSize, Some(a.rootHash), b.treeSize, Some(b.rootHash),
                                Present(Consistency.Proof(h, a.treeSize, run[k].leaves[..b.treeSize])))
  {
    hide Step, RootFromLeaves;
    PublishedHeadsStay(h, empty, run, k, k, a);
    PublishedHeadsStay(h, empty, run, k, k, b);
    Consistency.ConsistencyComplete(h, empty, a.treeSize, b.treeSize, run[k].leaves);
  }

  ghost predicate OutOfOrder<D>(heads: seq<Head<D>>) {
    exists i, j :: 0 <= i < j < |heads| && heads[i].treeSize > heads[j].treeSize
  }

  // The history itself need not be ordered by size: a slow signature is recorded late.
  lemma {:induction false} HistoryMayBeOutOfOrder<D(!new)>(h: (D, D) -> D, empty: D, x: D)
    ensures exists run: seq<LogState<D>> :: IsRun(h, empty, run) && OutOfOrder(run[|run| - 1].published)
  {
    var none, one := Head(0, empty), Head(1, x);
    var s0: LogState<D> := LogState([], [], []);
    var s1, s2 := LogState([], [none], []), LogState([x], [none], []);
    var s3, s4, s5 := LogState([x], [none, one], []), LogState([x], [none], [one]), LogState([x], [], [one, none]);
    assert Begins(h, empty, s0, s1) && Appends(s1, s2, x) && Begins(h, empty, s2, s3);
    assert Finishes(s3, s4, 1) && Finishes(s4, s5, 0);
    assert s5.published[0].treeSize > s5.published[1].treeSize;
    hide Begins, Finishes;
    var run1 := ExtendRun(h, empty, [s0], s1);
    var run2 := ExtendRun(h, empty, run1, s2);
    var run3 := ExtendRun(h, empty, run2, s3);
    var run4 := ExtendRun(h, empty, run3, s4);
    var run5 := ExtendRun(h, empty, run4, s5);
  }

  lemma {:induction false} ExtendRun<D(!new)>(h: (D, D) -> D, empty: D, run: seq<LogState<D>>, s: LogState<D>)
    returns (longer: seq<LogState<D>>)
    requires IsRun(h, empty, run) && Step(h, empty, run[|run| - 1], s)
    ensures IsRun(h, empty, longer) && longer[|longer| - 1] == s
  {
    hide Step;
    longer := run + [s];
  }

  // Signatures that resolve do so in the order in which they were asked for.
  ghost predicate OrderlyStep<D(!new)>(h: (D, D) -> D, empty: D, s: LogState<D>, s': LogState<D>) {
    || (exists leaf :: Appends(s, s', leaf))
    || Begins(h, empty, s, s')
    || Finishes(s, s', 0)
    || (exists i :: Rejects(s, s', i))
  }

  ghost predicate IsOrderlyRun<D(!new)>(h: (D, D) -> D, empty: D, run: seq<LogState<D>>) {
    && |run| >= 1
    && run[0] == LogState([], [], [])
    && forall k :: 0 < k < |run| ==> OrderlyStep(h, empty, run[k - 1], run[k])
  }

  ghost predicate SizesRise<D>(heads: seq<Head<D>>, bound: nat) {
    && (forall i, j :: 0 <= i < j < |heads| ==> heads[i].treeSize <= heads[j].treeSize)
    && (forall i :: 0 <= i < |heads| ==> heads[i].treeSize <= bound)
  }

  lemma {:induction false} RiseSnoc<D>(heads: seq<Head<D>>, bound: nat, head: Head<D>)
    requires SizesRise(heads, bound) && head.treeSize == bound
    ensures SizesRise(heads + [head], bound)
  {
  }

  lemma {:induction false} RiseWithout<D>(heads: seq<Head<D>>, bound: nat, k: nat)
    requires SizesRise(heads, bound) && k < |heads|
    ensures SizesRise(heads[..k] + heads[k + 1..], bound)
  {
  }

  lemma {:induction false} RiseBelow<D>(heads: seq<Head<D>>, bound: nat, more: nat)
    requires SizesRise(heads, bound) && bound <= more
    ensures SizesRise(heads, more)
  {
  }

  lemma {:induction false} OrderlyStepKeeps<D(!new)>(h: (D, D) -> D, empty: D, s: LogState<D>, s': LogState<D>)
    requires OrderlyStep(h, empty, s, s') && SizesRise(s.published + s.signing, |s.leaves|)
    ensures SizesRise(s'.published + s'.signing, |s'.leaves|)
  {
    hide RootFromLeaves, SizesRise;
    var all, all' := s.published + s.signing, s'.published + s'.signing;
    if Begins(h, empty, s, s') {
      var head := Head(|s.leaves|, RootFromLeaves(h, empty, s.leaves));
      assert all' == all + [head];
      RiseSnoc(all, |s.leaves|, head);
    } else if Finishes(s, s', 0) {
      assert all' == all;
    } else if i :| Rejects(s, s', i) {
      var k := |s.published| + i;
      assert all' == all[..k] + all[k + 1..];
      RiseWithout(all, |s.leaves|, k);
    } else {
      assert all' == all;
      RiseBelow(all, |s.leaves|, |s'.leaves|);
    }
  }

  lemma {:induction false} OrderlySizes<D(!new)>(h: (D, D) -> D, empty: D, run: seq<LogState<D>>, k: nat)
    requires IsOrderlyRun(h, empty, run) && k < |run|
    ensures SizesRise(run[k].published + run[k].signing, |run[k].leaves|)
  {
    if k > 0 {
      hide OrderlyStep, SizesRise;
      OrderlySizes(h, empty, run, k - 1);
      OrderlyStepKeeps(h, empty, run[k - 1], run[k]);
    }
  }

  // Then the history is in order of size.
  lemma {:induction false} OrderlyHistory<D(!new)>(h: (D, D) -> D, empty: D, run: seq<LogState<D>>, k: nat)
    requires IsOrderlyRun(h, empty, run) && k < |run|
    ensures !OutOfOrder(run[k].published)
  {
    OrderlySizes(h, empty, run, k);
    var all := run[k].published + run[k].signing;
    assert forall i :: 0 <= i < |run[k].published| ==> run[k].published[i] == all[i];
    hide IsOrderlyRun;
  }

  // In particular as long as no two publications overlap.
  lemma {:induction false} NoOverlapInOrder<D(!new)>(h: (D, D) -> D, empty: D, run: seq<LogState<D>>, k: nat)
    requires IsRun(h, empty, run) && k < |run| && forall n :: 0 <= n < |run| ==> |run[n].signing| <= 1
    ensures !OutOfOrder(run[k].published)
  {
    hide OutOfOrder, Begins, Appends, Rejects;
    forall n | 0 < n < |run| ensures OrderlyStep(h, empty, run[n - 1], run[n]) {
      assert Step(h, empty, run[n - 1], run[n]);
      assert |run[n - 1].signing| <= 1;
    }
    OrderlyHistory(h, empty, run, k);
  }

  // ---------- the class ----------

  class TransparencyLog<D(!new)> {
    const h: (D, D) -> D
    const empty: D
    var entries: seq<LogEntry<D>>
    var leafHashes: seq<D>
    var sthHistory: seq<Head<D>>
    ghost var signing: seq<Head<D>>

    constructor (h: (D, D) -> D, empty: D)
      ensures this.h == h && this.empty == empty
      ensures Valid() && View() == LogState([], [], []) && entries == []
    {
      this.h, this.empty := h, empty;
      entries, leafHashes, sthHistory, signing := [], [], [], [];
    }

    ghost function View(): LogState<D>
      reads this
    {
      LogState(leafHashes, signing, sthHistory)
    }

    ghost predicate Valid()
      reads this
    {
      && |entries| == |leafHashes|
      && (forall i :: 0 <= i < |entries| ==> entries[i].logIndex == i && entries[i].leafHash == leafHashes[i])
      && Genuine(h, empty, View())
    }

    method Append(leaf: Option<D>, receiptId: string, tenantId: string) returns (r: Result<LogEntry<D>>)
      requires Valid()
      modifies `entries, `leafHashes
      ensures Valid()
      ensures r.Err? <==> leaf.None?
      ensures r.Err? ==> View() == old(View()) && entries == old(entries)
      ensures r.Ok? ==> Appends(old(View()), View(), leaf.value)
      ensures r.Ok? ==> r.value == LogEntry(|old(entries)|, leaf.value, tenantId, receiptId)
      ensures r.Ok? ==> entries == old(entries) + [r.value]
    {
      if leaf.None? {
        return Err;
      }
      var entry := LogEntry(|entries|, leaf.value, tenantId, receiptId);
      entries := entries + [entry];
      leafHashes := leafHashes + [leaf.value];
      assert Appends(old(View()), View(), leaf.value);
      StepKeeps(h, empty, old(View()), View());
      r := Ok(entry);
    }

    // publishSth up to the awaited signature.
    method BeginPublish() returns (head: Head<D>)
      requires Valid()
      modifies `signing
      ensures Valid() && Begins(h, empty, old(View()), View())
      ensures head == Head(|leafHashes|, RootFromLeaves(h, empty, leafHashes)) && signing == old(signing) + [head]
    {
      head := Head(|entries|, RootFromLeaves(h, empty, leafHashes));
      signing := signing + [head];
      StepKeeps(h, empty, old(View()), View());
    }

    // publishSth after the signature: the snapshot taken then is recorded now.
    method FinishPublish(head: Head<D>, ghost i: nat)
      requires Valid() && i < |signing| && signing[i] == head
      modifies `signing, `sthHistory
      ensures Valid() && Finishes(old(View()), View(), i)
      ensures sthHistory == old(sthHistory) + [head]
    {
      sthHistory := sthHistory + [head];
      signing := signing[..i] + signing[i + 1..];
      assert Finishes(old(View()), View(), i);
      StepKeeps(h, empty, old(View()), View());
    }

    method ProveInclusion(logIndex: int, treeSize: int) returns (r: Result<InclusionProof<D>>)
      requires Valid()
      ensures r.Ok? <==> 0 <= logIndex < treeSize <= |leafHashes|
      ensures r.Ok? ==> r.value == InclusionProof(logIndex, treeSize, Path(h, logIndex, leafHashes[..treeSize]))
    {
      if logIndex < 0 || logIndex >= treeSize || treeSize > |leafHashes| {
        return Err;
      }
      var leaves := leafHashes[..treeSize];
      var path := InclusionInner(h, leaves, 0, treeSize, logIndex, []);
      assert leaves[0..treeSize] == leaves;
      r := Ok(InclusionProof(logIndex, treeSize, path));
    }

    // A negative first size below the second sends the recursion on without end, which the caller
    // sees as an error.
    method ProveConsistency(firstSize: int, secondSize: int) returns (r: Result<ConsistencyProof<D>>)
      requires Valid()
      ensures r.Ok? <==> firstSize <= secondSize <= |leafHashes| && (firstSize >= 0 || firstSize == secondSize)
      ensures r.Ok? ==>
        r.value == ConsistencyProof(firstSize, secondSize,
          if firstSize < 0 then [] else Consistency.Proof(h, firstSize, leafHashes[..secondSize]))
    {
      if firstSize > secondSize || secondSize > |leafHashes| {
        return Err;
      }
      if firstSize == 0 || firstSize == secondSize {
        return Ok(ConsistencyProof(firstSize, secondSize, []));
      }
      if firstSize < 0 {
        return Err;
      }
      var leaves := leafHashes[..secondSize];
      var path := ConsistencyInner(h, leaves, 0, secondSize, firstSize, true, []);
      assert leaves[0..secondSize] == leaves;
      r := Ok(ConsistencyProof(firstSize, secondSize, path));
    }
  }

  lemma {:induction false} SliceSplit<D>(leaves: seq<D>, start: nat, mid: nat, end: nat)
    requires start <= mid <= end <= |leaves|
    ensures leaves[start..end] == leaves[start..mid] + leaves[mid..end]
  {
  }

  // The recursion of proveInclusion, pushing onto `path`.
  method InclusionInner<D>(h: (D, D) -> D, leaves: seq<D>, start: nat, end: nat, target: nat, path: seq<D>)
    returns (longer: seq<D>)
    requires start <= target < end <= |leaves|
    ensures longer == path + Path(h, target - start, leaves[start..end])
    decreases end - start
  {
    hide *;
    var n := end - start;
    if n <= 1 {
      PathOfOne(h, leaves[start..end]);
      return path;
    }
    var k := FindSplit(n);
    var l, r := leaves[start..start + k], leaves[start + k..end];
    SliceSplit(leaves, start, start + k, end);
    if target - start < k {
      PathAt(h, target - start, l, r);
      longer := InclusionInner(h, leaves, start, start + k, target, path);
      longer := longer + [Root(h, r)];
    } else {
      PathAt(h, target - start - k, l, r);
      longer := InclusionInner(h, leaves, start + k, end, target, path);
      longer := longer + [Root(h, l)];
    }
  }

  // The end of the call at this depth of proveConsistency's recursion, while it keeps to the left.
  function LeftEnd(secondSize: int, depth: nat): int {
    if depth == 0 then secondSize
    else
      var n := LeftEnd(secondSize, depth - 1);
      if n < 2 then 1 else Split(n)
  }

  // Below zero no call at any depth is the base case, and each goes left again: the recursion does
  // not end.
  lemma {:induction false} NegativeNeverEnds(firstSize: int, secondSize: int, depth: nat)
    requires firstSize < 0 && firstSize < secondSize
    ensures LeftEnd(secondSize, depth) != firstSize && firstSize <= LeftEnd(secondSize, depth + 1)
    ensures depth >= secondSize - 1 && depth > 0 ==> LeftEnd(secondSize, depth) == 1
  {
    LeftEndShrinks(secondSize, depth);
    hide Split;
  }

  lemma {:induction false} LeftEndShrinks(secondSize: int, depth: nat)
    ensures depth > 0 ==> 1 <= LeftEnd(secondSize, depth)
    ensures depth > 0 ==> LeftEnd(secondSize, depth) == 1 || LeftEnd(secondSize, depth) <= secondSize - depth
  {
    if depth > 0 {
      LeftEndShrinks(secondSize, depth - 1);
    }
  }

  // The recursion of proveConsistency, pushing onto `path`.
  method ConsistencyInner<D>(h: (D, D) -> D, leaves: seq<D>, start: nat, end: nat, m: nat, b: bool, path: seq<D>)
    returns (longer: seq<D>)
    requires start < m <= end <= |leaves|
    ensures longer == path + Consistency.SubProof(h, m - start, leaves[start..end], b)
    decreases end - start
  {
    hide *;
    var n := end - start;
    if m - start == n {
      Consistency.SubProofWhole(h, leaves[start..end], b);
      return if b then path else path + [Root(h, leaves[start..end])];
    }
    var k := FindSplit(n);
    var l, r := leaves[start..start + k], leaves[start + k..end];
    SliceSplit(leaves, start, start + k, end);
    Consistency.SubProofAt(h, m - start, l, r, b);
    if m - start <= k {
      longer := ConsistencyInner(h, leaves, start, start + k, m, b, path);
      longer := longer + [Root(h, r)];
    } else {
      longer := ConsistencyInner(h, leaves, start + k, end, m, false, path);
      longer := longer + [Root(h, l)];
    }
  }
}
