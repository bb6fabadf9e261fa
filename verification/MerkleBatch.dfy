// The level-by-level trees: buildBatch of src/merkle.ts, merkleRoot of
// src/data-lineage/dataset-attestation.ts, and the proof check of src/evidence/evidence-pack.ts.
// Leaves are given as leaf digests.
module MerkleBatch {
  import opened Wrappers
  import opened MerkleTree
  import opened Inclusion
  import Consistency

  datatype InclusionProof<D> = InclusionProof(leafIndex: int, treeSize: int, auditPath: seq<Option<D>>)
  datatype Batch<D> = Batch(root: D, treeSize: nat, proofs: map<string, InclusionProof<D>>)

  lemma {:induction false} PairUpFrom<D>(h: (D, D) -> D, s: seq<D>, i: nat)
    requires i < |s|
    ensures i + 1 < |s| ==> PairUp(h, s[i..]) == [h(s[i], s[i + 1])] + PairUp(h, s[i + 2..])
    ensures i + 1 == |s| ==> PairUp(h, s[i..]) == [s[i]]
  {
    if i + 1 < |s| {
      assert s[i..][2..] == s[i + 2..];
    }
  }

  lemma {:induction false} PairUpNothing<D>(h: (D, D) -> D)
    ensures PairUp(h, []) == []
  {
  }

  // One level of pairing, with the odd last node promoted.
  method NextLevel<D>(h: (D, D) -> D, current: seq<D>) returns (next: seq<D>)
    ensures next == PairUp(h, current)
  {
    hide PairUp;
    next := [];
    var i := 0;
    PairUpNothing(h);
    assert current[0..] == current;
    while i < |current|
      invariant 0 <= i
      invariant i < |current| ==> next + PairUp(h, current[i..]) == PairUp(h, current)
      invariant i >= |current| ==> next == PairUp(h, current)
      decreases |current| - i
    {
      PairUpFrom(h, current, i);
      if i + 1 < |current| {
        next := next + [h(current[i], current[i + 1])];
      } else {
        next := next + [current[i]];
      }
      i := i + 2;
    }
  }

  ghost predicate AreLevels<D>(h: (D, D) -> D, levels: seq<seq<D>>) {
    && |levels| >= 1
    && (forall j :: 0 <= j < |levels| ==> |levels[j]| >= 1)
    && (forall j :: 0 < j < |levels| ==> levels[j] == PairUp(h, levels[j - 1]))
  }

  method BuildLevels<D>(h: (D, D) -> D, leaves: seq<D>) returns (levels: seq<seq<D>>)
    requires |leaves| >= 1
    ensures AreLevels(h, levels) && levels[0] == leaves
    ensures levels[|levels| - 1] == [Root(h, leaves)]
  {
    levels := [leaves];
    var current := leaves;
    while |current| > 1
      invariant AreLevels(h, levels) && levels[0] == leaves && levels[|levels| - 1] == current
      invariant Root(h, current) == Root(h, leaves)
      decreases |current|
    {
      RootLevel(h, current);
      current := NextLevel(h, current);
      levels := levels + [current];
    }
  }

  // The siblings met while climbing the retained levels.
  method AuditPath<D>(h: (D, D) -> D, levels: seq<seq<D>>, i: nat) returns (path: seq<D>)
    requires AreLevels(h, levels) && i < |levels[0]| && |levels[|levels| - 1]| == 1
    ensures path == Path(h, i, levels[0])
  {
    hide Path, PairUp;
    path := [];
    var idx := i;
    for lvl := 0 to |levels| - 1
      invariant 0 <= idx < |levels[lvl]|
      invariant path + Path(h, idx, levels[lvl]) == Path(h, i, levels[0])
    {
      var level := levels[lvl];
      assert levels[lvl + 1] == PairUp(h, level);
      PathLevel(h, idx, idx / 2, level);
      var sibling := if idx % 2 == 0 then idx + 1 else idx - 1;
      if sibling < |level| {
        path := path + [level[sibling]];
      }
      idx := idx / 2;
    }
    PathOfOne(h, levels[|levels| - 1]);
  }

  // The proof of leaf i as the batch records it.
  function ProofOf<D>(h: (D, D) -> D, i: nat, leaves: seq<D>): InclusionProof<D>
    requires i < |leaves|
  {
    InclusionProof(i, |leaves|, Present(Path(h, i, leaves)))
  }

  // Every id among the first n maps to the proof of its last occurrence there.
  ghost predicate LastOfItsId<K>(ids: seq<K>, i: nat, n: nat)
    requires n <= |ids|
  {
    i < n && forall j :: i < j < n ==> ids[j] != ids[i]
  }

  ghost function FirstIds<K>(ids: seq<K>, n: nat): set<K>
    requires n <= |ids|
  {
    set i | 0 <= i < n :: ids[i]
  }

  ghost predicate AreProofs<D, K>(h: (D, D) -> D, leaves: seq<D>, ids: seq<K>, n: nat,
                               proofs: map<K, InclusionProof<D>>)
    requires n <= |ids| == |leaves|
  {
    && proofs.Keys == FirstIds(ids, n)
    && forall i :: 0 <= i < n && LastOfItsId(ids, i, n) ==> proofs[ids[i]] == ProofOf(h, i, leaves)
  }

  // `ids` are the receipt ids; a repeated id keeps the proof of its last occurrence.
  method BuildBatch<D>(h: (D, D) -> D, leaves: seq<D>, ids: seq<string>) returns (r: Result<Batch<D>>)
    requires |ids| == |leaves|
    ensures r.Err? <==> leaves == []
    ensures r.Ok? ==> r.value.root == Root(h, leaves) && r.value.treeSize == |leaves|
    ensures r.Ok? ==> AreProofs(h, leaves, ids, |ids|, r.value.proofs)
  {
    if |leaves| == 0 {
      return Err;
    }
    hide Path, PairUp, Root, AreProofs;
    var levels := BuildLevels(h, leaves);
    assert |levels[|levels| - 1]| == 1;
    var proofs: map<string, InclusionProof<D>> := map[];
    NoProofs(h, leaves, ids);
    for i := 0 to |leaves|
      invariant AreProofs(h, leaves, ids, i, proofs)
    {
      var path := AuditPath(h, levels, i);
      AddProof(h, leaves, ids, i, proofs);
      proofs := proofs[ids[i] := InclusionProof(i, |leaves|, Present(path))];
    }
    r := Ok(Batch(levels[|levels| - 1][0], |leaves|, proofs));
  }

  lemma {:induction false} NoProofs<D>(h: (D, D) -> D, leaves: seq<D>, ids: seq<string>)
    requires |ids| == |leaves|
    ensures AreProofs(h, leaves, ids, 0, map[])
  {
  }

  lemma {:induction false} KeysGrow<K>(ids: seq<K>, n: nat)
    requires n < |ids|
    ensures FirstIds(ids, n + 1) == FirstIds(ids, n) + {ids[n]}
    ensures forall i :: 0 <= i < n ==> ids[i] in FirstIds(ids, n)
  {
  }

  lemma {:induction false} StillLast<K>(ids: seq<K>, i: nat, n: nat)
    requires n < |ids| && LastOfItsId(ids, i, n + 1) && i < n
    ensures LastOfItsId(ids, i, n) && ids[n] != ids[i]
  {
  }

  lemma {:induction false} AddProof<D, K>(h: (D, D) -> D, leaves: seq<D>, ids: seq<K>, n: nat,
                                       proofs: map<K, InclusionProof<D>>)
    requires n < |ids| == |leaves| && AreProofs(h, leaves, ids, n, proofs)
    ensures AreProofs(h, leaves, ids, n + 1,
                      proofs[ids[n] := ProofOf(h, n, leaves)])
  {
    hide ProofOf, FirstIds, LastOfItsId;
    KeysGrow(ids, n);
    var more := proofs[ids[n] := ProofOf(h, n, leaves)];
    assert more.Keys == proofs.Keys + {ids[n]};
    forall i | 0 <= i < n + 1 && LastOfItsId(ids, i, n + 1) ensures more[ids[i]] == ProofOf(h, i, leaves) {
      if i < n {
        StillLast(ids, i, n);
      }
    }
  }

  // With distinct ids every receipt has a proof, and both verifiers accept it.
  lemma {:induction false} BatchProofsVerify<D>(h: (D, D) -> D, leaves: seq<D>, ids: seq<string>,
                                                proofs: map<string, InclusionProof<D>>, i: nat)
    requires i < |ids| == |leaves| && AreProofs(h, leaves, ids, |ids|, proofs)
    requires forall j, k :: 0 <= j < k < |ids| ==> ids[j] != ids[k]
    ensures ids[i] in proofs
    ensures var p := proofs[ids[i]];
      && Inclusion.Accepts(h, leaves[i], p.leafIndex, p.treeSize, p.auditPath, Some(Root(h, leaves)))
      && LogAccepts(h, Some(leaves[i]), p.leafIndex, p.treeSize, p.auditPath, Some(Root(h, leaves)))
  {
    assert LastOfItsId(ids, i, |ids|);
    hide Path, Root;
    InclusionComplete(h, i, leaves);
  }

  // merkleRoot of the dataset attestation, including the empty list.
  method MerkleRoot<D>(h: (D, D) -> D, empty: D, leaves: seq<D>) returns (root: D)
    ensures root == RootFromLeaves(h, empty, leaves) && (leaves == [] ==> root == empty)
  {
    if |leaves| == 0 {
      return empty;
    }
    var layer := leaves;
    while |layer| > 1
      invariant |layer| >= 1 && Root(h, layer) == Root(h, leaves)
      decreases |layer|
    {
      RootLevel(h, layer);
      layer := NextLevel(h, layer);
    }
    return layer[0];
  }

  // ---------- the evidence pack's own copy of the loop ----------

  datatype PackReceipt<D> = PackReceipt(id: string, leaf: D)

  // The inlined loop has no range check on leaf_index.
  predicate PackAccepts<D(==)>(h: (D, D) -> D, leaf: D, p: InclusionProof<D>, root: Option<D>) {
    var r := Up(h, Progress(leaf, p.auditPath), p.leafIndex, p.treeSize);
    r.Some? && r.value.rest == [] && Some(r.value.hash) == root
  }

  // The inlined loop, for one receipt.
  method CheckPackProof<D(==)>(h: (D, D) -> D, leaf: D, proof: InclusionProof<D>, root: Option<D>) returns (ok: bool)
    ensures ok == PackAccepts(h, leaf, proof, root)
  {
    var path := proof.auditPath;
    var hash, idx, levelSize, pathPos, malformed := leaf, proof.leafIndex, proof.treeSize, 0, false;
    ghost var goal := Up(h, Progress(leaf, path), proof.leafIndex, proof.treeSize);
    while levelSize > 1
      invariant 0 <= pathPos <= |path| && !malformed
      invariant goal == Up(h, Progress(hash, path[pathPos..]), idx, levelSize)
      decreases levelSize
    {
      var isLastOdd := idx == levelSize - 1 && levelSize % 2 == 1;
      if !isLastOdd {
        if pathPos >= |path| {
          malformed := true;
          break;
        }
        var sibling := path[pathPos];
        if sibling.None? {
          malformed := true;
          break;
        }
        pathPos := pathPos + 1;
        hash := if idx % 2 == 0 then h(hash, sibling.value) else h(sibling.value, hash);
      }
      idx, levelSize := idx / 2, (levelSize + 1) / 2;
    }
    return !malformed && pathPos == |path| && Some(hash) == root;
  }

  // Returns the receipts that have no proof or one that the inlined loop rejects, each as often and in
  // the order as they are given; `at` says where they stand.
  method VerifyAllReceiptsInPack<D(==)>(h: (D, D) -> D, receipts: seq<PackReceipt<D>>,
                                        proofs: map<string, InclusionProof<D>>, root: Option<D>)
    returns (failed: seq<PackReceipt<D>>, ghost at: seq<nat>)
    ensures |at| == |failed| && forall k :: 0 <= k < |at| ==> at[k] < |receipts| && failed[k] == receipts[at[k]]
    ensures forall k, l :: 0 <= k < l < |at| ==> at[k] < at[l]
    ensures forall j :: 0 <= j < |receipts| ==>
      (j in at <==> receipts[j].id !in proofs || !PackAccepts(h, receipts[j].leaf, proofs[receipts[j].id], root))
    ensures failed == [] <==> forall r :: r in receipts ==>
      r.id in proofs && PackAccepts(h, r.leaf, proofs[r.id], root)
  {
    hide PackAccepts;
    failed, at := [], [];
    for k := 0 to |receipts|
      invariant |at| == |failed| && forall n :: 0 <= n < |at| ==> at[n] < k && failed[n] == receipts[at[n]]
      invariant forall m, n :: 0 <= m < n < |at| ==> at[m] < at[n]
      invariant forall j :: 0 <= j < k ==>
        (j in at <==> receipts[j].id !in proofs || !PackAccepts(h, receipts[j].leaf, proofs[receipts[j].id], root))
    {
      var r := receipts[k];
      var ok := false;
      if r.id in proofs {
        ok := CheckPackProof(h, r.leaf, proofs[r.id], root);
      }
      if !ok {
        failed, at := failed + [r], at + [k];
      }
    }
    assert failed == [] ==> forall j :: 0 <= j < |receipts| ==> j !in at;
    assert failed != [] ==> at[0] in at && receipts[at[0]] in receipts;
  }

  // The evidence pack's loop is the batch verifier without the range check, and nothing else.
  lemma {:induction false} PackAgrees<D>(h: (D, D) -> D, leaf: D, p: InclusionProof<D>, root: Option<D>)
    ensures Inclusion.Accepts(h, leaf, p.leafIndex, p.treeSize, p.auditPath, root)
       <==> 0 <= p.leafIndex < p.treeSize && PackAccepts(h, leaf, p, root)
  {
  }

  // A path that the loop consumes entirely, whatever the index.
  lemma {:induction false} SomePath<D>(h: (D, D) -> D, x: D, hash: D, i: int, n: int) returns (path: seq<Option<D>>)
    ensures var r := Up(h, Progress(hash, path), i, n); r.Some? && r.value.rest == []
    decreases n
  {
    if n <= 1 {
      path := [];
    } else if i == n - 1 && n % 2 == 1 {
      path := SomePath(h, x, hash, i / 2, (n + 1) / 2);
    } else {
      var above := SomePath(h, x, if i % 2 == 0 then h(hash, x) else h(x, hash), i / 2, (n + 1) / 2);
      path := [Some(x)] + above;
      assert path[1..] == above;
    }
  }

  // The two verdicts agree on every leaf, path and root exactly at the indexes in range.
  lemma {:induction false} PackAgreesExactly<D(!new)>(h: (D, D) -> D, x: D, i: int, n: int)
    ensures (forall leaf: D, path, root ::
               Inclusion.Accepts(h, leaf, i, n, path, root) <==> PackAccepts(h, leaf, InclusionProof(i, n, path), root))
       <==> 0 <= i < n
  {
    if !(0 <= i < n) {
      var path := SomePath(h, x, x, i, n);
      var root := Some(Up(h, Progress(x, path), i, n).value.hash);
      assert PackAccepts(h, x, InclusionProof(i, n, path), root) && !Inclusion.Accepts(h, x, i, n, path, root);
    } else {
      forall leaf: D, path, root
        ensures Inclusion.Accepts(h, leaf, i, n, path, root) <==> PackAccepts(h, leaf, InclusionProof(i, n, path), root)
      {
        PackAgrees(h, leaf, InclusionProof(i, n, path), root);
      }
    }
  }

  lemma {:induction false} StepAlias<D>(h: (D, D) -> D, p: Progress<D>, i: int, half: nat, j: int)
    requires half >= 1
    ensures LevelStep(h, p, i + 2 * j, 2 * half) == LevelStep(h, p, i, 2 * half)
    ensures (i + 2 * j) / 2 == i / 2 + j
  {
  }

  lemma {:induction false} UpHalves<D>(h: (D, D) -> D, p: Progress<D>, i: int, half: nat)
    requires half >= 1
    ensures var q := LevelStep(h, p, i, 2 * half);
      Up(h, p, i, 2 * half) == if q.None? then None else Up(h, q.value, i / 2, half)
  {
    assert (2 * half + 1) / 2 == half;
  }

  lemma {:induction false} UpOne<D>(h: (D, D) -> D, p: Progress<D>, i: int)
    ensures Up(h, p, i, 1) == Some(p)
  {
  }

  lemma {:induction false} UpAlias<D>(h: (D, D) -> D, p: Progress<D>, i: int, z: nat, j: int)
    ensures Up(h, p, i + j * Consistency.Pow2(z), Consistency.Pow2(z)) == Up(h, p, i, Consistency.Pow2(z))
    decreases z
  {
    hide LevelStep, Up;
    if z == 0 {
      UpOne(h, p, i);
      UpOne(h, p, i + j);
    } else {
      var half := Consistency.Pow2(z - 1);
      var n, k := 2 * half, j * half;
      assert Consistency.Pow2(z) == n && j * n == 2 * k;
      hide Consistency.Pow2;
      StepAlias(h, p, i, half, k);
      UpHalves(h, p, i, half);
      UpHalves(h, p, i + 2 * k, half);
      var q := LevelStep(h, p, i, n);
      if q.Some? {
        UpAlias(h, q.value, i / 2, z - 1, j);
      }
    }
  }

  // What the missing check lets through: on a tree whose size is a power of two every genuine
  // proof is also accepted at every index that differs by a multiple of the size.
  lemma {:induction false} PackAcceptsAliases<D>(h: (D, D) -> D, i: nat, s: seq<D>, z: nat, j: int)
    requires i < |s| == Consistency.Pow2(z)
    ensures PackAccepts(h, s[i], InclusionProof(i + j * |s|, |s|, Present(Path(h, i, s))), Some(Root(h, s)))
    ensures j != 0 ==>
      !Inclusion.Accepts(h, s[i], i + j * |s|, |s|, Present(Path(h, i, s)), Some(Root(h, s)))
  {
    hide Path, Root, Up, Consistency.Pow2, Present;
    PathLeadsToRoot(h, i, s);
    UpAlias(h, Progress(s[i], Present(Path(h, i, s))), i, z, j);
    assert j > 0 ==> j * |s| >= |s|;
    assert j < 0 ==> j * |s| <= -|s|;
  }

  // And nothing else gets through on such a tree: at index g + j * |s| exactly the leaf at g with
  // exactly its own path is accepted.
  lemma {:induction false} PackAliasesExactly<D(!new)>(h: (D, D) -> D, x: D, g: nat, s: seq<D>, z: nat, j: int,
                                                       path: seq<Option<D>>)
    requires Injective(h) && g < |s| == Consistency.Pow2(z)
    ensures PackAccepts(h, x, InclusionProof(g + j * |s|, |s|, path), Some(Root(h, s)))
       <==> x == s[g] && path == Present(Path(h, g, s))
  {
    hide Injective, Root, Path, Present;
    UpAlias(h, Progress(x, path), g, z, j);
    PackAgrees(h, x, InclusionProof(g, |s|, path), Some(Root(h, s)));
    InclusionExact(h, x, g, s, path);
  }

  // ---------- trees of any size ----------

  // Where the loop finds its node at one level.
  datatype Turn = Left | Right | Promoted

  function TurnAt(i: int, n: int): Turn {
    if i == n - 1 && n % 2 == 1 then Promoted else if i % 2 == 0 then Left else Right
  }

  // From a level of n nodes on, indexes i and g take the same turns.
  predicate SameTurns(i: int, g: int, n: int)
    decreases n
  {
    n <= 1 || (TurnAt(i, n) == TurnAt(g, n) && SameTurns(i / 2, g / 2, (n + 1) / 2))
  }

  function Depth(n: int): nat
    decreases n
  {
    if n <= 1 then 0 else 1 + Depth((n + 1) / 2)
  }

  // The leaf at g is promoted at no level.
  predicate FullDepth(g: int, n: int)
    decreases n
  {
    n <= 1 || (TurnAt(g, n) != Promoted && FullDepth(g / 2, (n + 1) / 2))
  }

  ghost predicate Multiple(x: int, p: int) {
    exists k: int :: x == k * p
  }

  lemma {:induction false} DepthCovers(n: int)
    ensures n <= Consistency.Pow2(Depth(n))
    decreases n
  {
    if n > 1 {
      DepthCovers((n + 1) / 2);
    }
  }

  lemma {:induction false} OwnTurns(i: int, n: int)
    ensures SameTurns(i, i, n)
    decreases n
  {
    if n > 1 {
      OwnTurns(i / 2, (n + 1) / 2);
    }
  }

  lemma {:induction false} SmallMultiple(i: int, g: int, n: int, p: int)
    requires 0 <= i < n && 0 <= g < n && n <= p && Multiple(i - g, p)
    ensures i == g
  {
    var k: int :| i - g == k * p;
    assert k >= 1 ==> k * p >= p;
    assert k <= -1 ==> k * p <= -p;
  }

  lemma {:induction false} HalvedMultiple(i: int, g: int, half: int)
    ensures Multiple(i - g, 2 * half) <==> i % 2 == g % 2 && Multiple(i / 2 - g / 2, half)
  {
    if Multiple(i - g, 2 * half) {
      var k: int :| i - g == k * (2 * half);
      EvenDifference(i, g, k * half);
    }
    if i % 2 == g % 2 && Multiple(i / 2 - g / 2, half) {
      var k: int :| i / 2 - g / 2 == k * half;
      assert i - g == k * (2 * half);
    }
  }

  lemma {:induction false} EvenDifference(i: int, g: int, m: int)
    requires i - g == 2 * m
    ensures i % 2 == g % 2 && i / 2 - g / 2 == m
  {
  }

  lemma {:induction false} AnyMultiple(x: int)
    ensures Multiple(x, 1)
  {
    assert x == x * 1;
  }

  // An index takes the turns of a leaf exactly if it is its own, or the leaf has full depth and the
  // two differ by a multiple of 2^depth.
  lemma {:induction false} SameTurnsExactly(i: int, g: int, n: int)
    requires 0 <= g < n
    ensures SameTurns(i, g, n) <==> i == g || (FullDepth(g, n) && Multiple(i - g, Consistency.Pow2(Depth(n))))
    decreases n
  {
    if n <= 1 {
      AnyMultiple(i - g);
      assert Consistency.Pow2(0) == 1;
    } else {
      var m := (n + 1) / 2;
      var half := Consistency.Pow2(Depth(m));
      assert Consistency.Pow2(Depth(n)) == 2 * half;
      SameTurnsExactly(i / 2, g / 2, m);
      HalvedMultiple(i, g, half);
      DepthCovers(n);
      OwnTurns(i, n);
      hide Multiple, Depth, Consistency.Pow2;
      if 0 <= i < n && Multiple(i - g, 2 * half) {
        SmallMultiple(i, g, n, 2 * half);
      }
    }
  }

  lemma {:induction false} SameUp<D>(h: (D, D) -> D, p: Progress<D>, i: int, g: int, n: int)
    requires SameTurns(i, g, n)
    ensures Up(h, p, i, n) == Up(h, p, g, n)
    decreases n
  {
    if n > 1 {
      assert LevelStep(h, p, i, n) == LevelStep(h, p, g, n);
      var q := LevelStep(h, p, i, n);
      if q.Some? {
        SameUp(h, q.value, i / 2, g / 2, (n + 1) / 2);
      }
    }
  }

  ghost predicate IsChild<D(!new)>(h: (D, D) -> D, x: D, d: D) {
    exists sib :: d == h(x, sib) || d == h(sib, x)
  }

  // Each digest of the chain is hashed into the one before.
  ghost predicate IsChain<D(!new)>(h: (D, D) -> D, c: seq<D>) {
    forall k :: 0 < k < |c| ==> IsChild(h, c[k], c[k - 1])
  }

  // x lies strictly below a node of s.
  ghost predicate Buried<D(!new)>(h: (D, D) -> D, s: seq<D>, x: D) {
    exists c :: IsChain(h, c) && |c| >= 2 && c[0] in s && c[|c| - 1] == x
  }

  ghost predicate Genuine<D>(h: (D, D) -> D, x: D, path: seq<Option<D>>, i: int, g: int, s: seq<D>) {
    0 <= g < |s| && SameTurns(i, g, |s|) && x == s[g] && path == Present(Path(h, g, s))
  }

  // Below a level: if what x was hashed into is genuine there, so is x here, or x lies below a node
  // that was promoted.
  lemma {:induction false} GenuineBelow<D(!new)>(h: (D, D) -> D, x: D, path: seq<Option<D>>, i: int, k: nat, s: seq<D>,
                                                 q: Progress<D>)
    requires Injective(h) && |s| >= 2 && !(0 <= i < |s|) && LevelStep(h, Progress(x, path), i, |s|) == Some(q)
    requires Genuine(h, q.hash, q.rest, i / 2, k, PairUp(h, s))
    ensures (exists g :: Genuine(h, x, path, i, g, s)) || Buried(h, s, x)
  {
    hide PairUp, Path, Buried;
    PairUpAt(h, s, k);
    if 2 * k + 1 < |s| {
      GenuineInPair(h, x, path, i, k, s, q);
    } else {
      var d := s[2 * k];
      assert IsChild(h, x, d);
      hide IsChild;
      BuriedOnce(h, s, x, d);
    }
  }

  lemma {:induction false} BuriedOnce<D(!new)>(h: (D, D) -> D, s: seq<D>, x: D, d: D)
    requires d in s && IsChild(h, x, d)
    ensures Buried(h, s, x)
  {
    hide IsChild;
    var c := [d, x];
    assert IsChain(h, c);
  }

  // Not promoted, x is the half of its pair that the turn says.
  lemma {:induction false} GenuineInPair<D(!new)>(h: (D, D) -> D, x: D, path: seq<Option<D>>, i: int, k: nat,
                                                  s: seq<D>, q: Progress<D>)
    requires Injective(h) && 2 * k + 1 < |s| && !(0 <= i < |s|)
    requires LevelStep(h, Progress(x, path), i, |s|) == Some(q)
    requires Genuine(h, q.hash, q.rest, i / 2, k, PairUp(h, s))
    ensures Genuine(h, x, path, i, 2 * k + i % 2, s)
  {
    hide PairUp, Path, SameTurns;
    PairUpAt(h, s, k);
    var sib, b := TurnTaken(h, x, path, i, |s|, q);
    var g := 2 * k + b;
    hide LevelStep, Injective;
    assert q.hash == PairUp(h, s)[k];
    HalvesOf(h, x, sib, s[2 * k], s[2 * k + 1], b == 0);
    PathLevel(h, g, k, s);
    assert Sibling(g, s) == [sib];
    assert path == Present([sib] + Path(h, k, PairUp(h, s)));
    PairTurns(i, b, k, |s|);
  }

  lemma {:induction false} HalvesOf<D(!new)>(h: (D, D) -> D, x: D, sib: D, l: D, r: D, left: bool)
    requires Injective(h) && (if left then h(x, sib) else h(sib, x)) == h(l, r)
    ensures if left then x == l && sib == r else x == r && sib == l
  {
  }

  // One turn outside the last, promoted place takes an entry off the path.
  lemma {:induction false} TurnTaken<D>(h: (D, D) -> D, x: D, path: seq<Option<D>>, i: int, n: nat, q: Progress<D>)
    returns (sib: D, b: nat)
    requires !(0 <= i < n) && n >= 1 && LevelStep(h, Progress(x, path), i, n) == Some(q)
    ensures b < 2 && b == i % 2 && path == [Some(sib)] + q.rest
    ensures q.hash == if b == 0 then h(x, sib) else h(sib, x)
  {
    sib, b := path[0].value, i % 2;
  }

  lemma {:induction false} PairTurns(i: int, b: nat, k: nat, n: nat)
    requires b < 2 && b == i % 2 && 2 * k + 1 < n && !(0 <= i < n) && SameTurns(i / 2, k, (n + 1) / 2)
    ensures SameTurns(i, 2 * k + b, n)
  {
    assert (2 * k + b) / 2 == k && TurnAt(2 * k + b, n) == TurnAt(i, n);
  }

  // Below a level: what x was hashed into lies below a node there, so x lies below a node here.
  lemma {:induction false} BuriedBelow<D(!new)>(h: (D, D) -> D, x: D, q: D, s: seq<D>)
    requires Injective(h) && |s| >= 2 && IsChild(h, x, q) && Buried(h, PairUp(h, s), q)
    ensures Buried(h, s, x)
  {
    var c :| IsChain(h, c) && |c| >= 2 && c[0] in PairUp(h, s) && c[|c| - 1] == q;
    var longer := c + [x];
    hide PairUp, IsChild;
    ChainSnoc(h, c, x);
    var k :| 0 <= k < |PairUp(h, s)| && PairUp(h, s)[k] == c[0];
    PairUpAt(h, s, k);
    if 2 * k + 1 < |s| {
      ChildOf(h, longer[1], s[2 * k], s[2 * k + 1], longer[0]);
      ChainTail(h, longer);
      var shorter := longer[1..];
      assert shorter[0] in s && |shorter| >= 2 && shorter[|shorter| - 1] == x;
    } else {
      assert longer[0] in s && |longer| >= 2 && longer[|longer| - 1] == x;
    }
  }

  lemma {:induction false} ChainSnoc<D(!new)>(h: (D, D) -> D, c: seq<D>, x: D)
    requires IsChain(h, c) && c != [] && IsChild(h, x, c[|c| - 1])
    ensures IsChain(h, c + [x]) && (|c| >= 2 ==> IsChild(h, (c + [x])[1], (c + [x])[0]))
  {
    hide IsChild;
  }

  lemma {:induction false} ChainTail<D(!new)>(h: (D, D) -> D, c: seq<D>)
    requires IsChain(h, c) && c != []
    ensures IsChain(h, c[1..])
  {
    hide IsChild;
    var t := c[1..];
    forall k | 0 < k < |t| ensures IsChild(h, t[k], t[k - 1]) {
      var u := k + 1;
      assert IsChild(h, c[u], c[u - 1]);
    }
  }

  lemma {:induction false} ChildOf<D(!new)>(h: (D, D) -> D, x: D, l: D, r: D, d: D)
    requires Injective(h) && d == h(l, r) && IsChild(h, x, d)
    ensures x == l || x == r
  {
  }

  lemma {:induction false} StepIsChild<D(!new)>(h: (D, D) -> D, p: Progress<D>, i: int, n: int)
    ensures LevelStep(h, p, i, n).Some? && TurnAt(i, n) != Promoted ==>
              IsChild(h, p.hash, LevelStep(h, p, i, n).value.hash)
  {
  }

  lemma {:induction false} UpStep<D>(h: (D, D) -> D, p: Progress<D>, i: int, s: seq<D>)
    requires |s| >= 2 && Up(h, p, i, |s|).Some?
    ensures var q := LevelStep(h, p, i, |s|);
      q.Some? && Up(h, p, i, |s|) == Up(h, q.value, i / 2, |PairUp(h, s)|)
  {
    hide PairUp;
    assert (|s| + 1) / 2 == |PairUp(h, s)|;
  }

  // Whatever index leads to the root leads there from a leaf by its own path, or from below a leaf.
  lemma {:induction false} GenuineOrBuried<D(!new)>(h: (D, D) -> D, x: D, path: seq<Option<D>>, i: int, s: seq<D>)
    requires Injective(h) && |s| >= 1 && Up(h, Progress(x, path), i, |s|) == Some(Progress(Root(h, s), []))
    ensures (exists g :: Genuine(h, x, path, i, g, s)) || Buried(h, s, x)
    decreases |s|
  {
    hide *;
    var p := Progress(x, path);
    if 0 <= i < |s| {
      OnlyPathLeadsToRoot(h, x, path, i, s);
      OwnTurns(i, |s|);
      GenuineIs(h, x, path, i, i, s);
    } else if |s| == 1 {
      LeafReached(h, x, path, i, s);
    } else {
      var up := PairUp(h, s);
      RootLevel(h, s);
      UpStep(h, p, i, s);
      var q := LevelStep(h, p, i, |s|).value;
      GenuineOrBuried(h, q.hash, q.rest, i / 2, up);
      if k :| Genuine(h, q.hash, q.rest, i / 2, k, up) {
        GenuineIndex(h, q.hash, q.rest, i / 2, k, up);
        GenuineBelow(h, x, path, i, k, s, q);
      } else {
        StepIsChild(h, p, i, |s|);
        NotPromoted(i, |s|);
        BuriedBelow(h, x, q.hash, s);
      }
    }
  }

  lemma {:induction false} GenuineIs<D>(h: (D, D) -> D, x: D, path: seq<Option<D>>, i: int, g: nat, s: seq<D>)
    requires g < |s|
    ensures Genuine(h, x, path, i, g, s) <==> SameTurns(i, g, |s|) && x == s[g] && path == Present(Path(h, g, s))
  {
  }

  lemma {:induction false} GenuineIndex<D>(h: (D, D) -> D, x: D, path: seq<Option<D>>, i: int, g: int, s: seq<D>)
    requires Genuine(h, x, path, i, g, s)
    ensures 0 <= g < |s|
  {
  }

  lemma {:induction false} NotPromoted(i: int, n: int)
    requires !(0 <= i < n) && n >= 1
    ensures TurnAt(i, n) != Promoted
  {
  }

  lemma {:induction false} LeafReached<D>(h: (D, D) -> D, x: D, path: seq<Option<D>>, i: int, s: seq<D>)
    requires |s| == 1 && Up(h, Progress(x, path), i, 1) == Some(Progress(Root(h, s), []))
    ensures Genuine(h, x, path, i, 0, s)
  {
    LeafIsRoot(h, Progress(x, path), s);
  }

  // Leaf digests are kept apart from node digests, as the two hash prefixes do.
  ghost predicate LeavesApart<D(!new)>(h: (D, D) -> D, s: seq<D>) {
    forall l, a, b :: l in s ==> h(a, b) != l
  }

  lemma {:induction false} NotBuried<D(!new)>(h: (D, D) -> D, s: seq<D>, x: D)
    requires LeavesApart(h, s)
    ensures !Buried(h, s, x)
  {
    forall c | IsChain(h, c) && |c| >= 2 ensures c[0] !in s {
      assert IsChild(h, c[1], c[0]);
    }
  }

  // What gets through on a tree of any size: the copy accepts, at any integer index, exactly the
  // leaves with their own paths whose turns the index takes.
  lemma {:induction false} PackAcceptsExactly<D(!new)>(h: (D, D) -> D, x: D, i: int, s: seq<D>, path: seq<Option<D>>)
    requires Injective(h) && |s| >= 1 && LeavesApart(h, s)
    ensures PackAccepts(h, x, InclusionProof(i, |s|, path), Some(Root(h, s)))
       <==> exists g :: Genuine(h, x, path, i, g, s)
  {
    hide Root, Path, Up, Present, SameTurns;
    NotBuried(h, s, x);
    hide LeavesApart, Injective, Buried;
    if PackAccepts(h, x, InclusionProof(i, |s|, path), Some(Root(h, s))) {
      GenuineOrBuried(h, x, path, i, s);
    }
    if g :| Genuine(h, x, path, i, g, s) {
      SameUp(h, Progress(x, path), i, g, |s|);
      PathLeadsToRoot(h, g, s);
    }
  }

  // What a pack without failures proves: against the root of s, with proofs for its size, every
  // receipt's leaf is a leaf of s, and its proof is that leaf's own path.
  lemma {:induction false} NoFailureMeansIncluded<D(!new)>(h: (D, D) -> D, receipts: seq<PackReceipt<D>>,
                                                           proofs: map<string, InclusionProof<D>>, s: seq<D>,
                                                           r: PackReceipt<D>)
    requires Injective(h) && |s| >= 1 && LeavesApart(h, s) && r in receipts
    requires forall id :: id in proofs ==> proofs[id].treeSize == |s|
    requires forall q :: q in receipts ==> q.id in proofs && PackAccepts(h, q.leaf, proofs[q.id], Some(Root(h, s)))
    ensures r.leaf in s
    ensures exists g :: 0 <= g < |s| && s[g] == r.leaf && proofs[r.id].auditPath == Present(Path(h, g, s))
  {
    var p := proofs[r.id];
    PackAcceptsExactly(h, r.leaf, p.leafIndex, s, p.auditPath);
    hide PackAccepts, LeavesApart, Injective, Present, Path, Root;
    assert p == InclusionProof(p.leafIndex, |s|, p.auditPath);
    var g :| Genuine(h, r.leaf, p.auditPath, p.leafIndex, g, s);
  }
}
