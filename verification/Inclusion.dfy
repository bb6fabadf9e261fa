// Inclusion proofs: the index-arithmetic loop of src/merkle.ts and src/evidence/evidence-pack.ts,
// and the recursive `climb` of src/transparency-log/log.ts.
//
// A proof entry is None when its text does not decode to 32 bytes.
module Inclusion {
  import opened Wrappers
  import opened MerkleTree

  // The hash computed so far and the proof entries not yet consumed.
  datatype Progress<D> = Progress(hash: D, rest: seq<Option<D>>)

  function Combine<D>(h: (D, D) -> D, p: Progress<D>, siblingOnRight: bool): Option<Progress<D>> {
    if p.rest == [] || p.rest[0].None? then None
    else
      var sib := p.rest[0].value;
      Some(Progress(if siblingOnRight then h(p.hash, sib) else h(sib, p.hash), p.rest[1..]))
  }

  // One turn of the loop: a promoted node consumes nothing.
  function LevelStep<D>(h: (D, D) -> D, p: Progress<D>, i: int, n: int): Option<Progress<D>> {
    if i == n - 1 && n % 2 == 1 then Some(p) else Combine(h, p, i % 2 == 0)
  }

  // The loop, for any integer index: `n` is the width of the current level.
  function Up<D>(h: (D, D) -> D, p: Progress<D>, i: int, n: int): Option<Progress<D>>
    decreases n
  {
    if n <= 1 then Some(p)
    else
      match LevelStep(h, p, i, n)
      case None => None
      case Some(q) => Up(h, q, i / 2, (n + 1) / 2)
  }

  predicate Accepts<D(==)>(h: (D, D) -> D, leaf: D, i: int, n: int, path: seq<Option<D>>, root: Option<D>) {
    && 0 <= i < n
    && var r := Up(h, Progress(leaf, path), i, n);
    && r.Some? && r.value.rest == [] && Some(r.value.hash) == root
  }

  // verifyInclusion of src/merkle.ts.
  method VerifyInclusion<D(==)>(h: (D, D) -> D, leaf: D, leafIndex: int, treeSize: int,
                                auditPath: seq<Option<D>>, trustedRoot: Option<D>) returns (ok: bool)
    ensures ok == Accepts(h, leaf, leafIndex, treeSize, auditPath, trustedRoot)
  {
    if treeSize < 1 || leafIndex < 0 || leafIndex >= treeSize {
      return false;
    }
    var hash, idx, levelSize, pathPos := leaf, leafIndex, treeSize, 0;
    while levelSize > 1
      invariant levelSize >= 1 && 0 <= pathPos <= |auditPath|
      invariant Up(h, Progress(leaf, auditPath), leafIndex, treeSize)
             == Up(h, Progress(hash, auditPath[pathPos..]), idx, levelSize)
      decreases levelSize
    {
      var isLastOdd := idx == levelSize - 1 && levelSize % 2 == 1;
      if !isLastOdd {
        if pathPos >= |auditPath| {
          return false;
        }
        var sibling := auditPath[pathPos];
        if sibling.None? {
          return false;
        }
        pathPos := pathPos + 1;
        hash := if idx % 2 == 0 then h(hash, sibling.value) else h(sibling.value, hash);
      }
      idx, levelSize := idx / 2, (levelSize + 1) / 2;
    }
    return pathPos == |auditPath| && Some(hash) == trustedRoot;
  }

  // `climb` of src/transparency-log/log.ts, on absolute positions, with the cursor it returns.
  function Climb<D>(h: (D, D) -> D, leaf: D, start: nat, end: nat, target: int, path: seq<Option<D>>, pos: nat)
    : (r: Option<(D, nat)>)
    requires pos <= |path|
    ensures r.Some? ==> pos <= r.value.1 <= |path|
    decreases end - start
  {
    if end - start <= 1 then Some((leaf, pos))
    else
      var k := Split(end - start);
      if target - start < k then
        var inner := Climb(h, leaf, start, start + k, target, path, pos);
        if inner.None? || inner.value.1 >= |path| || path[inner.value.1].None? then None
        else Some((h(inner.value.0, path[inner.value.1].value), inner.value.1 + 1))
      else
        var inner := Climb(h, leaf, start + k, end, target, path, pos);
        if inner.None? || inner.value.1 >= |path| || path[inner.value.1].None? then None
        else Some((h(path[inner.value.1].value, inner.value.0), inner.value.1 + 1))
  }

  // The static verifyInclusion of the log, which also checks the leaf's length.
  predicate LogAccepts<D(==)>(h: (D, D) -> D, leaf: Option<D>, i: int, n: int, path: seq<Option<D>>, root: Option<D>) {
    && leaf.Some?
    && 0 <= i < n
    && var r := Climb(h, leaf.value, 0, n, i, path, 0);
    && r.Some? && r.value.1 == |path| && Some(r.value.0) == root
  }

  // The same descent on relative positions.
  function Down<D>(h: (D, D) -> D, p: Progress<D>, i: nat, n: nat): Option<Progress<D>>
    requires i < n
    decreases n
  {
    if n == 1 then Some(p)
    else
      var k := Split(n);
      var inner := if i < k then Down(h, p, i, k) else Down(h, p, i - k, n - k);
      if inner.None? then None else Combine(h, inner.value, i < k)
  }

  // What `climb` returns, as progress: the rest of the path from its cursor on.
  function ClimbProgress<D>(h: (D, D) -> D, leaf: D, start: nat, end: nat, target: int, path: seq<Option<D>>, pos: nat)
    : Option<Progress<D>>
    requires pos <= |path|
  {
    var c := Climb(h, leaf, start, end, target, path, pos);
    if c.None? then None else Some(Progress(c.value.0, path[c.value.1..]))
  }

  lemma {:induction false} ClimbAt<D>(h: (D, D) -> D, leaf: D, start: nat, end: nat, target: int,
                                      path: seq<Option<D>>, pos: nat, k: nat)
    requires end - start >= 2 && k == Split(end - start) && pos <= |path|
    ensures var onRight := target - start < k;
      var inner := if onRight then ClimbProgress(h, leaf, start, start + k, target, path, pos)
                   else ClimbProgress(h, leaf, start + k, end, target, path, pos);
      ClimbProgress(h, leaf, start, end, target, path, pos)
      == if inner.None? then None else Combine(h, inner.value, onRight)
  {
  }

  lemma {:induction false} ClimbIsDown<D>(h: (D, D) -> D, leaf: D, start: nat, end: nat, target: nat,
                                          path: seq<Option<D>>, pos: nat)
    requires start <= target < end && pos <= |path|
    ensures ClimbProgress(h, leaf, start, end, target, path, pos)
         == Down(h, Progress(leaf, path[pos..]), target - start, end - start)
    decreases end - start
  {
    if end - start > 1 {
      hide Climb, ClimbProgress, Combine, Split;
      var k := Split(end - start);
      ClimbAt(h, leaf, start, end, target, path, pos, k);
      if target - start < k {
        ClimbIsDown(h, leaf, start, start + k, target, path, pos);
      } else {
        ClimbIsDown(h, leaf, start + k, end, target, path, pos);
      }
    }
  }

  lemma {:induction false} DownAt<D>(h: (D, D) -> D, p: Progress<D>, i: nat, n: nat, k: nat)
    requires i < n && n >= 2 && k == Split(n)
    ensures var inner := if i < k then Down(h, p, i, k) else Down(h, p, i - k, n - k);
      Down(h, p, i, n) == if inner.None? then None else Combine(h, inner.value, i < k)
  {
  }

  lemma {:induction false} LevelStepSplit<D>(h: (D, D) -> D, p: Progress<D>, i: nat, n: nat, half: nat)
    requires i < n && 2 * half < n
    ensures i < 2 * half ==> LevelStep(h, p, i, n) == LevelStep(h, p, i, 2 * half)
    ensures i >= 2 * half ==> LevelStep(h, p, i, n) == LevelStep(h, p, i - 2 * half, n - 2 * half)
  {
    assert n % 2 == (n - 2 * half) % 2;
    assert i >= 2 * half ==> (i - 2 * half) % 2 == i % 2;
  }

  lemma {:induction false} DownLevelShort<D>(h: (D, D) -> D, p: Progress<D>, i: nat, n: nat, g: nat, m: nat)
    requires i < n <= 2 && 2 * g <= i <= 2 * g + 1 && n <= 2 * m <= n + 1
    ensures var q := LevelStep(h, p, i, n);
      Down(h, p, i, n) == if q.None? then None else Down(h, q.value, g, m)
  {
    assert m == 1 && g == 0;
  }

  // The recursive descent also decomposes level by level. Here g is i / 2 and m is ceil(n / 2).
  lemma {:induction false} DownLevel<D>(h: (D, D) -> D, p: Progress<D>, i: nat, n: nat, g: nat, m: nat)
    requires i < n && 2 * g <= i <= 2 * g + 1 && n <= 2 * m <= n + 1
    ensures var q := LevelStep(h, p, i, n);
      Down(h, p, i, n) == if q.None? then None else Down(h, q.value, g, m)
    decreases n
  {
    hide *;
    if n <= 2 {
      DownLevelShort(h, p, i, n, g, m);
    } else {
      SplitHalf(n, m);
      var half := Split(m);
      var k := 2 * half;
      LevelStepSplit(h, p, i, n, half);
      DownAt(h, p, i, n, k);
      var q := LevelStep(h, p, i, n);
      if i < k {
        DownLevel(h, p, i, k, g, half);
      } else {
        DownLevel(h, p, i - k, n - k, g - half, m - half);
      }
      if q.Some? {
        DownAt(h, q.value, g, m, half);
      }
    }
  }

  lemma {:induction false} UpIsDown<D>(h: (D, D) -> D, p: Progress<D>, i: nat, n: nat)
    requires i < n
    ensures Up(h, p, i, n) == Down(h, p, i, n)
    decreases n
  {
    if n > 1 {
      DownLevel(h, p, i, n, i / 2, (n + 1) / 2);
      var q := LevelStep(h, p, i, n);
      if q.Some? {
        UpIsDown(h, q.value, i / 2, (n + 1) / 2);
      }
    }
  }

  // Both verifiers give the same hash after consuming the same entries, hence the same verdict.
  lemma {:induction false} VerifiersAgree<D>(h: (D, D) -> D, leaf: D, i: int, n: int,
                                             path: seq<Option<D>>, root: Option<D>)
    ensures LogAccepts(h, Some(leaf), i, n, path, root) <==> Accepts(h, leaf, i, n, path, root)
    ensures 0 <= i < n ==>
      var c, u := Climb(h, leaf, 0, n, i, path, 0), Up(h, Progress(leaf, path), i, n);
      && (c.None? <==> u.None?)
      && (c.Some? ==> u.value.hash == c.value.0 && |path| - |u.value.rest| == c.value.1)
  {
    if 0 <= i < n {
      ClimbIsDown(h, leaf, 0, n, i, path, 0);
      UpIsDown(h, Progress(leaf, path), i, n);
      assert path[0..] == path;
    }
  }

  // One turn of the loop on a genuine node and sibling reaches the node above.
  lemma {:induction false} GenuineStep<D>(h: (D, D) -> D, i: nat, g: nat, s: seq<D>, rest: seq<D>)
    requires i < |s| && 2 <= |s| && g < |PairUp(h, s)| && 2 * g <= i <= 2 * g + 1
    ensures LevelStep(h, Progress(s[i], Present(Sibling(i, s) + rest)), i, |s|)
         == Some(Progress(PairUp(h, s)[g], Present(rest)))
  {
    PairUpAt(h, s, g);
    var path := Present(Sibling(i, s) + rest);
    if i == |s| - 1 && |s| % 2 == 1 {
      assert Sibling(i, s) + rest == rest;
    } else {
      assert path[1..] == Present(rest);
    }
  }

  lemma {:induction false} OnlyGenuineStep<D(!new)>(h: (D, D) -> D, x: D, path: seq<Option<D>>, i: nat, g: nat,
                                                    s: seq<D>, rest: seq<D>)
    requires Injective(h) && i < |s| && 2 <= |s| && g < |PairUp(h, s)| && 2 * g <= i <= 2 * g + 1
    requires LevelStep(h, Progress(x, path), i, |s|) == Some(Progress(PairUp(h, s)[g], Present(rest)))
    ensures x == s[i] && path == Present(Sibling(i, s) + rest)
  {
    PairUpAt(h, s, g);
    if i == |s| - 1 && |s| % 2 == 1 {
      assert Sibling(i, s) + rest == rest;
    } else {
      assert path == [path[0]] + Present(rest);
    }
  }

  lemma {:induction false} UpAt<D>(h: (D, D) -> D, p: Progress<D>, i: nat, g: nat, n: nat, m: nat)
    requires n >= 2 && 2 * g <= i <= 2 * g + 1 && n <= 2 * m <= n + 1
    ensures var q := LevelStep(h, p, i, n);
      Up(h, p, i, n) == if q.None? then None else Up(h, q.value, g, m)
  {
    assert g == i / 2 && m == (n + 1) / 2;
  }

  lemma {:induction false} LeafIsRoot<D>(h: (D, D) -> D, p: Progress<D>, s: seq<D>)
    requires |s| == 1
    ensures Up(h, p, 0, 1) == Some(p) && Root(h, s) == s[0] && Path(h, 0, s) == []
  {
  }

  // A genuine path leads from the leaf to the root and is consumed entirely.
  lemma {:induction false} PathLeadsToRoot<D>(h: (D, D) -> D, i: nat, s: seq<D>)
    requires i < |s|
    ensures Up(h, Progress(s[i], Present(Path(h, i, s))), i, |s|) == Some(Progress(Root(h, s), []))
    decreases |s|
  {
    hide *;
    var p, up, g := Progress(s[i], Present(Path(h, i, s))), PairUp(h, s), i / 2;
    if |s| == 1 {
      LeafIsRoot(h, p, s);
    } else {
      PathLevel(h, i, g, s);
      RootLevel(h, s);
      GenuineStep(h, i, g, s, Path(h, g, up));
      UpAt(h, p, i, g, |s|, |up|);
      PathLeadsToRoot(h, g, up);
    }
  }

  // With an injective h only the genuine leaf and the genuine path lead to the root.
  lemma {:induction false} OnlyPathLeadsToRoot<D(!new)>(h: (D, D) -> D, x: D, path: seq<Option<D>>, i: nat, s: seq<D>)
    requires Injective(h) && i < |s|
    requires Up(h, Progress(x, path), i, |s|) == Some(Progress(Root(h, s), []))
    ensures x == s[i] && path == Present(Path(h, i, s))
    decreases |s|
  {
    hide *;
    var p, up, g := Progress(x, path), PairUp(h, s), i / 2;
    if |s| == 1 {
      LeafIsRoot(h, p, s);
    } else {
      PathLevel(h, i, g, s);
      RootLevel(h, s);
      UpAt(h, p, i, g, |s|, |up|);
      var q := LevelStep(h, p, i, |s|).value;
      OnlyPathLeadsToRoot(h, q.hash, q.rest, g, up);
      OnlyGenuineStep(h, x, path, i, g, s, Path(h, g, up));
    }
  }

  // Completeness and position binding in one statement: against the root of s, the loop accepts
  // exactly the leaf at index i with exactly its own audit path.
  lemma {:induction false} InclusionExact<D(!new)>(h: (D, D) -> D, x: D, i: int, s: seq<D>, path: seq<Option<D>>)
    requires Injective(h) && |s| >= 1
    ensures Accepts(h, x, i, |s|, path, Some(Root(h, s)))
       <==> 0 <= i < |s| && x == s[i] && path == Present(Path(h, i, s))
  {
    if 0 <= i < |s| {
      PathLeadsToRoot(h, i, s);
      if Accepts(h, x, i, |s|, path, Some(Root(h, s))) {
        OnlyPathLeadsToRoot(h, x, path, i, s);
      }
    }
  }

  // Completeness needs no assumption on h.
  lemma {:induction false} InclusionComplete<D>(h: (D, D) -> D, i: nat, s: seq<D>)
    requires i < |s|
    ensures Accepts(h, s[i], i, |s|, Present(Path(h, i, s)), Some(Root(h, s)))
    ensures LogAccepts(h, Some(s[i]), i, |s|, Present(Path(h, i, s)), Some(Root(h, s)))
  {
    PathLeadsToRoot(h, i, s);
    VerifiersAgree(h, s[i], i, |s|, Present(Path(h, i, s)), Some(Root(h, s)));
  }
}
