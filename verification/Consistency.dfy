// Consistency proofs of src/transparency-log/log.ts: the recursive SUBPROOF prover of RFC 6962,
// section 2.1.2, and the iterative verifier that walks up from the last node of the old tree.
module Consistency {
  import opened Wrappers
  import opened MerkleTree

  // ---------- the prover ----------

  function SubProof<D>(h: (D, D) -> D, m: nat, s: seq<D>, b: bool): seq<D>
    requires 0 < m <= |s|
    decreases |s|
  {
    if m == |s| then
      if b then [] else [Root(h, s)]
    else
      var k := Split(|s|);
      if m <= k then SubProof(h, m, s[..k], b) + [Root(h, s[k..])]
      else SubProof(h, m - k, s[k..], false) + [Root(h, s[..k])]
  }

  // proveConsistency(m, |s|), on the first |s| leaves.
  function Proof<D>(h: (D, D) -> D, m: nat, s: seq<D>): seq<D>
    requires m <= |s|
  {
    if m == 0 || m == |s| then [] else SubProof(h, m, s, true)
  }

  // ---------- the verifier ----------

  // The two roots rebuilt so far and the proof nodes not yet popped.
  datatype Roots<D> = Roots(oldHash: D, newHash: D, rest: seq<D>)

  // One turn of either final loop, for a node that is not above the last node of its level.
  function AscendStep<D>(h: (D, D) -> D, node: nat, last: nat, r: Roots<D>): Option<Roots<D>> {
    if node % 2 == 1 then
      if r.rest == [] then None else Some(Roots(h(r.rest[0], r.oldHash), h(r.rest[0], r.newHash), r.rest[1..]))
    else if node < last then
      if r.rest == [] then None else Some(Roots(r.oldHash, h(r.newHash, r.rest[0]), r.rest[1..]))
    else
      Some(r)
  }

  function Ascend<D>(h: (D, D) -> D, node: nat, last: nat, r: Roots<D>): Option<Roots<D>>
    requires node <= last
    decreases last
  {
    if last == 0 then Some(r)
    else
      var q := AscendStep(h, node, last, r);
      if q.None? then None else Ascend(h, node / 2, last / 2, q.value)
  }

  // The whole reconstruction; node and lastNode of the source are m - 1 and n - 1.
  function Rebuild<D>(h: (D, D) -> D, m: nat, n: nat, first: D, proof: seq<D>): Option<Roots<D>>
    requires 0 < m <= n
    decreases m
  {
    if m % 2 == 0 then Rebuild(h, m / 2, (n + 1) / 2, first, proof)
    else if m == 1 then Ascend(h, 0, n - 1, Roots(first, first, proof))
    else if proof == [] then None
    else Ascend(h, m - 1, n - 1, Roots(proof[0], proof[0], proof[1..]))
  }

  predicate Rebuilds<D(==)>(h: (D, D) -> D, m: nat, n: nat, r1: D, r2: D, proof: seq<D>)
    requires 0 < m <= n
  {
    Rebuild(h, m, n, r1, proof) == Some(Roots(r1, r2, []))
  }

  function Decoded<D>(s: seq<Option<D>>): (r: seq<D>)
    requires forall i :: 0 <= i < |s| ==> s[i].Some?
    ensures |r| == |s| && s == Present(r)
  {
    seq(|s|, i requires 0 <= i < |s| => s[i].value)
  }

  predicate Accepts<D(==)>(h: (D, D) -> D, m: int, r1: Option<D>, n: int, r2: Option<D>, proof: seq<Option<D>>) {
    && 0 <= m <= n
    && r1.Some? && r2.Some?
    && if m == n then proof == [] && r1 == r2
       else m == 0 || ((forall i :: 0 <= i < |proof| ==> proof[i].Some?)
                       && Rebuilds(h, m, n, r1.value, r2.value, Decoded(proof)))
  }

  method AllDecode<D>(proof: seq<Option<D>>) returns (ok: bool)
    ensures ok <==> forall i :: 0 <= i < |proof| ==> proof[i].Some?
  {
    for i := 0 to |proof|
      invariant forall j :: 0 <= j < i ==> proof[j].Some?
    {
      if proof[i].None? {
        return false;
      }
    }
    return true;
  }

  lemma {:induction false} AcceptsIs<D>(h: (D, D) -> D, m: int, r1: D, n: int, r2: D, proof: seq<Option<D>>)
    requires 0 < m < n && forall i :: 0 <= i < |proof| ==> proof[i].Some?
    ensures Accepts(h, m, Some(r1), n, Some(r2), proof)
       <==> Rebuild(h, m, n, r1, Decoded(proof)) == Some(Roots(r1, r2, []))
  {
    hide Rebuild, Decoded;
  }

  // What the first loop keeps: the rest of the reconstruction gives `goal`.
  ghost predicate Seeking<D>(h: (D, D) -> D, node: int, last: int, first: D, nodes: seq<D>, goal: Option<Roots<D>>) {
    0 <= node <= last && Rebuild(h, node + 1, last + 1, first, nodes) == goal
  }

  // What the final loops keep, with the nodes from position pi not yet popped.
  ghost predicate Heading<D>(h: (D, D) -> D, node: int, last: int, a: D, b: D, nodes: seq<D>, pi: int,
                             goal: Option<Roots<D>>)
  {
    && 0 <= node <= last && 0 <= pi <= |nodes|
    && Ascend(h, node, last, Roots(a, b, nodes[pi..])) == goal
  }

  lemma {:induction false} SeekTurn<D>(h: (D, D) -> D, node: int, last: int, first: D, nodes: seq<D>,
                                       goal: Option<Roots<D>>)
    requires Seeking(h, node, last, first, nodes, goal)
    ensures 0 <= node <= last
    ensures node % 2 == 1 ==> Seeking(h, node / 2, last / 2, first, nodes, goal)
    ensures node == 0 ==> Heading(h, 0, last, first, first, nodes, 0, goal)
    ensures node % 2 == 0 && node > 0 && nodes == [] ==> goal == None
    ensures node % 2 == 0 && node > 0 && nodes != [] ==> Heading(h, node, last, nodes[0], nodes[0], nodes, 1, goal)
  {
    hide Ascend;
    assert nodes[0..] == nodes;
    assert node % 2 == 1 ==> (node + 1) / 2 == node / 2 + 1 && (last + 2) / 2 == last / 2 + 1;
  }

  // One turn of a final loop.
  lemma {:induction false} AscendTurn<D>(h: (D, D) -> D, node: int, last: int, a: D, b: D, nodes: seq<D>, pi: int,
                                         goal: Option<Roots<D>>)
    requires Heading(h, node, last, a, b, nodes, pi, goal) && last > 0
    ensures 0 <= node <= last && 0 <= pi <= |nodes|
    ensures (node % 2 == 1 || node < last) && pi == |nodes| ==> goal == None
    ensures node % 2 == 1 && pi < |nodes| ==>
              Heading(h, node / 2, last / 2, h(nodes[pi], a), h(nodes[pi], b), nodes, pi + 1, goal)
    ensures node % 2 == 0 && node < last && pi < |nodes| ==>
              Heading(h, node / 2, last / 2, a, h(b, nodes[pi]), nodes, pi + 1, goal)
    ensures node % 2 == 0 && node == last ==> Heading(h, node / 2, last / 2, a, b, nodes, pi, goal)
  {
    if pi < |nodes| {
      assert nodes[pi..][1..] == nodes[pi + 1..] && nodes[pi..][0] == nodes[pi];
    }
  }

  lemma {:induction false} AscendDone<D>(h: (D, D) -> D, a: D, b: D, nodes: seq<D>, pi: int, goal: Option<Roots<D>>,
                                         r1: D, r2: D)
    requires Heading(h, 0, 0, a, b, nodes, pi, goal)
    ensures goal == Some(Roots(r1, r2, [])) <==> pi == |nodes| && a == r1 && b == r2
  {
    assert nodes[pi..] == [] <==> pi == |nodes|;
  }

  method VerifyConsistency<D(==)>(h: (D, D) -> D, firstSize: int, firstRoot: Option<D>,
                                  secondSize: int, secondRoot: Option<D>, proof: seq<Option<D>>) returns (ok: bool)
    ensures ok == Accepts(h, firstSize, firstRoot, secondSize, secondRoot, proof)
    ensures firstSize < 0 || secondSize < firstSize || firstRoot.None? || secondRoot.None? ==> !ok
    ensures 0 <= firstSize == secondSize && firstRoot.Some? && secondRoot.Some? ==>
      (ok <==> proof == [] && firstRoot == secondRoot)
    ensures 0 < firstSize < secondSize && None in proof ==> !ok
  {
    if firstSize < 0 || secondSize < firstSize {
      return false;
    }
    if firstRoot.None? || secondRoot.None? {
      return false;
    }
    if firstSize == secondSize {
      return |proof| == 0 && firstRoot == secondRoot;
    }
    if firstSize == 0 {
      return true;
    }
    var decodes := AllDecode(proof);
    if !decodes {
      return false;
    }
    var nodes, pi := Decoded(proof), 0;
    var node, lastNode := firstSize - 1, secondSize - 1;
    ghost var goal := Rebuild(h, firstSize, secondSize, firstRoot.value, nodes);
    AcceptsIs(h, firstSize, firstRoot.value, secondSize, secondRoot.value, proof);
    assert Seeking(h, node, lastNode, firstRoot.value, nodes, goal);
    hide *;
    while node % 2 == 1
      invariant Seeking(h, node, lastNode, firstRoot.value, nodes, goal) && node >= 0
      decreases node
    {
      SeekTurn(h, node, lastNode, firstRoot.value, nodes, goal);
      node, lastNode := node / 2, lastNode / 2;
    }
    SeekTurn(h, node, lastNode, firstRoot.value, nodes, goal);
    var oldHash, newHash := firstRoot.value, firstRoot.value;
    if node > 0 {
      if pi >= |nodes| {
        return false;
      }
      oldHash, newHash, pi := nodes[pi], nodes[pi], pi + 1;
    }
    while node > 0
      invariant Heading(h, node, lastNode, oldHash, newHash, nodes, pi, goal) && node >= 0 && pi >= 0
      decreases node
    {
      HeadingBelow(h, node, lastNode, oldHash, newHash, nodes, pi, goal);
      AscendTurn(h, node, lastNode, oldHash, newHash, nodes, pi, goal);
      if node % 2 == 1 {
        if pi >= |nodes| {
          return false;
        }
        oldHash, newHash, pi := h(nodes[pi], oldHash), h(nodes[pi], newHash), pi + 1;
      } else if node < lastNode {
        if pi >= |nodes| {
          return false;
        }
        newHash, pi := h(newHash, nodes[pi]), pi + 1;
      }
      node, lastNode := node / 2, lastNode / 2;
    }
    HeadingBelow(h, node, lastNode, oldHash, newHash, nodes, pi, goal);
    while lastNode > 0
      invariant Heading(h, 0, lastNode, oldHash, newHash, nodes, pi, goal) && lastNode >= 0 && pi >= 0
      decreases lastNode
    {
      AscendTurn(h, 0, lastNode, oldHash, newHash, nodes, pi, goal);
      if pi >= |nodes| {
        return false;
      }
      newHash, pi, lastNode := h(newHash, nodes[pi]), pi + 1, lastNode / 2;
    }
    AscendDone(h, oldHash, newHash, nodes, pi, goal, firstRoot.value, secondRoot.value);
    return pi == |nodes| && oldHash == firstRoot.value && newHash == secondRoot.value;
  }

  lemma {:induction false} HeadingBelow<D>(h: (D, D) -> D, node: int, last: int, a: D, b: D, nodes: seq<D>, pi: int,
                                           goal: Option<Roots<D>>)
    requires Heading(h, node, last, a, b, nodes, pi, goal)
    ensures 0 <= node <= last && 0 <= pi <= |nodes|
  {
  }

  // ---------- what the prover emits ----------

  lemma {:induction false} SubProofAt<D>(h: (D, D) -> D, m: nat, l: seq<D>, r: seq<D>, b: bool)
    requires |l| >= 1 && |r| >= 1 && |l| == Split(|l| + |r|) && 0 < m < |l| + |r|
    ensures m <= |l| ==> SubProof(h, m, l + r, b) == SubProof(h, m, l, b) + [Root(h, r)]
    ensures m > |l| ==> SubProof(h, m, l + r, b) == SubProof(h, m - |l|, r, false) + [Root(h, l)]
  {
    assert (l + r)[..|l|] == l && (l + r)[|l|..] == r;
  }

  lemma {:induction false} SubProofWhole<D>(h: (D, D) -> D, s: seq<D>, b: bool)
    requires |s| >= 1
    ensures SubProof(h, |s|, s, b) == if b then [] else [Root(h, s)]
  {
  }

  // An even old size climbs one level without contributing a node.
  lemma {:induction false} SubProofEven<D>(h: (D, D) -> D, q: nat, s: seq<D>, b: bool)
    requires 0 < 2 * q <= |s|
    ensures SubProof(h, 2 * q, s, b) == SubProof(h, q, PairUp(h, s), b)
    decreases |s|
  {
    hide *;
    var up := PairUp(h, s);
    RootLevel(h, s);
    if 2 * q == |s| {
      SubProofWhole(h, s, b);
      SubProofWhole(h, up, b);
    } else {
      SplitHalf(|s|, |up|);
      var half := Split(|up|);
      var l, r := s[..2 * half], s[2 * half..];
      assert s == l + r;
      HalvesUp(h, l, r);
      RootLevel(h, l);
      RootLevel(h, r);
      SubProofAt(h, 2 * q, l, r, b);
      SubProofAt(h, q, PairUp(h, l), PairUp(h, r), b);
      if q <= half {
        SubProofEven(h, q, l, b);
      } else {
        SubProofEven(h, q - half, r, false);
      }
    }
  }

  function Seed<D>(m: nat, s: seq<D>, b: bool): seq<D>
    requires 0 < m <= |s|
  {
    if m == 1 && b then [] else [s[m - 1]]
  }

  lemma {:induction false} SeedAppend<D>(m: nat, l: seq<D>, r: seq<D>, b: bool)
    requires 0 < m <= |l| + |r|
    ensures m <= |l| ==> Seed(m, l + r, b) == Seed(m, l, b)
    ensures m > |l| > 0 ==> Seed(m, l + r, b) == Seed(m - |l|, r, false)
  {
  }

  lemma {:induction false} SubProofOne<D>(h: (D, D) -> D, s: seq<D>, b: bool)
    requires |s| == 1
    ensures SubProof(h, 1, s, b) == Seed(1, s, b) + Path(h, 0, s)
  {
  }

  // An odd old size emits its last leaf as the seed, unless that is the verifier's own root,
  // and then the audit path of that leaf.
  lemma {:induction false} SplitEven(n: nat)
    requires n > 2
    ensures Split(n) % 2 == 0
  {
    hide Split;
    SplitHalf(n, n - n / 2);
  }

  lemma {:induction false} SubProofOdd<D>(h: (D, D) -> D, m: nat, s: seq<D>, b: bool)
    requires m % 2 == 1 && (m < |s| || m == |s| == 1)
    ensures SubProof(h, m, s, b) == Seed(m, s, b) + Path(h, m - 1, s)
    decreases |s|
  {
    hide *;
    if |s| == 1 {
      SubProofOne(h, s, b);
    } else {
      var k := Split(|s|);
      if |s| > 2 {
        SplitEven(|s|);
      }
      var l, r := s[..k], s[k..];
      assert s == l + r;
      SeedAppend(m, l, r, b);
      if m <= k {
        SubProofOdd(h, m, l, b);
        SubProofOddLeft(h, m, l, r, b, Seed(m, l, b));
      } else {
        SubProofOdd(h, m - k, r, false);
        SubProofOddRight(h, m - k, l, r, b, Seed(m - k, r, false));
      }
    }
  }

  lemma {:induction false} SubProofOddLeft<D>(h: (D, D) -> D, m: nat, l: seq<D>, r: seq<D>, b: bool, seed: seq<D>)
    requires |l| >= 1 && |r| >= 1 && |l| == Split(|l| + |r|) && 0 < m <= |l|
    requires SubProof(h, m, l, b) == seed + Path(h, m - 1, l)
    ensures SubProof(h, m, l + r, b) == seed + Path(h, m - 1, l + r)
  {
    hide *;
    SubProofAt(h, m, l, r, b);
    PathAt(h, m - 1, l, r);
    assert (seed + Path(h, m - 1, l)) + [Root(h, r)] == seed + (Path(h, m - 1, l) + [Root(h, r)]);
  }

  lemma {:induction false} SubProofOddRight<D>(h: (D, D) -> D, m: nat, l: seq<D>, r: seq<D>, b: bool, seed: seq<D>)
    requires |l| >= 1 && |r| >= 1 && |l| == Split(|l| + |r|) && 0 < m < |r|
    requires SubProof(h, m, r, false) == seed + Path(h, m - 1, r)
    ensures SubProof(h, |l| + m, l + r, b) == seed + Path(h, |l| + m - 1, l + r)
  {
    hide *;
    SubProofAt(h, |l| + m, l, r, b);
    PathAt(h, m - 1, l, r);
    assert (seed + Path(h, m - 1, r)) + [Root(h, l)] == seed + (Path(h, m - 1, r) + [Root(h, l)]);
  }

  // ---------- completeness and soundness of the ascent ----------

  // t is one level of the old tree and s the same level of the new one: they differ at most
  // from the last node of t on.
  ghost predicate Aligned<D>(t: seq<D>, s: seq<D>) {
    1 <= |t| <= |s| && t[..|t| - 1] == s[..|t| - 1]
  }

  lemma {:induction false} AlignedUp<D>(h: (D, D) -> D, t: seq<D>, s: seq<D>)
    requires Aligned(t, s)
    ensures Aligned(PairUp(h, t), PairUp(h, s)) && |PairUp(h, t)| <= |PairUp(h, s)|
  {
    hide PairUp;
    var tu, su := PairUp(h, t), PairUp(h, s);
    forall i | 0 <= i < |tu| - 1 ensures tu[i] == su[i] {
      PairUpAt(h, t, i);
      PairUpAt(h, s, i);
      assert t[..|t| - 1][2 * i] == s[..|t| - 1][2 * i] && t[..|t| - 1][2 * i + 1] == s[..|t| - 1][2 * i + 1];
    }
  }

  lemma {:induction false} GenuineAscend<D>(h: (D, D) -> D, t: seq<D>, s: seq<D>, g: nat, rest: seq<D>)
    requires Aligned(t, s) && 2 <= |s| && 2 * g <= |t| - 1 <= 2 * g + 1
    ensures g == |PairUp(h, t)| - 1 < |PairUp(h, s)|
    ensures AscendStep(h, |t| - 1, |s| - 1, Roots(t[|t| - 1], s[|t| - 1], Sibling(|t| - 1, s) + rest))
         == Some(Roots(PairUp(h, t)[g], PairUp(h, s)[g], rest))
  {
    hide PairUp;
    PairUpAt(h, t, g);
    PairUpAt(h, s, g);
    var proof := Sibling(|t| - 1, s) + rest;
    if (|t| - 1) % 2 == 1 {
      assert t[..|t| - 1][2 * g] == s[..|t| - 1][2 * g];
      assert proof[1..] == rest;
    } else if |t| < |s| {
      assert proof[1..] == rest;
    } else {
      assert proof == rest;
    }
  }

  lemma {:induction false} OnlyGenuineAscend<D(!new)>(h: (D, D) -> D, t: seq<D>, s: seq<D>, g: nat,
                                                      r: Roots<D>, q: Roots<D>)
    requires Injective(h) && Aligned(t, s) && 2 <= |s| && 2 * g <= |t| - 1 <= 2 * g + 1
    requires AscendStep(h, |t| - 1, |s| - 1, r) == Some(q) && g < |PairUp(h, s)| && q.newHash == PairUp(h, s)[g]
    ensures r.newHash == s[|t| - 1] && r.rest == Sibling(|t| - 1, s) + q.rest
    ensures g == |PairUp(h, t)| - 1
    ensures r.oldHash == t[|t| - 1] ==> q.oldHash == PairUp(h, t)[g]
  {
    hide PairUp;
    PairUpAt(h, t, g);
    PairUpAt(h, s, g);
    if (|t| - 1) % 2 == 1 {
      assert t[..|t| - 1][2 * g] == s[..|t| - 1][2 * g];
      assert r.rest == [r.rest[0]] + q.rest;
    } else if |t| < |s| {
      assert r.rest == [r.rest[0]] + q.rest;
    } else {
      assert Sibling(|t| - 1, s) + q.rest == q.rest;
    }
  }

  lemma {:induction false} AscendAt<D>(h: (D, D) -> D, node: nat, last: nat, g: nat, l: nat, r: Roots<D>)
    requires node <= last && 0 < last && 2 * g <= node <= 2 * g + 1 && 2 * l <= last <= 2 * l + 1
    ensures var q := AscendStep(h, node, last, r);
      Ascend(h, node, last, r) == if q.None? then None else Ascend(h, g, l, q.value)
  {
    assert g == node / 2 && l == last / 2;
  }

  lemma {:induction false} AscendSome<D>(h: (D, D) -> D, node: nat, last: nat, g: nat, l: nat, r: Roots<D>)
    returns (q: Roots<D>)
    requires node <= last && 0 < last && 2 * g <= node <= 2 * g + 1 && 2 * l <= last <= 2 * l + 1
    requires Ascend(h, node, last, r).Some?
    ensures AscendStep(h, node, last, r) == Some(q) && Ascend(h, node, last, r) == Ascend(h, g, l, q)
  {
    hide AscendStep, Ascend;
    AscendAt(h, node, last, g, l, r);
    q := AscendStep(h, node, last, r).value;
  }

  lemma {:induction false} AscendRoot<D>(h: (D, D) -> D, t: seq<D>, s: seq<D>, r: Roots<D>)
    requires Aligned(t, s) && |s| == 1
    ensures Ascend(h, 0, 0, r) == Some(r) && |t| == 1
    ensures Root(h, s) == s[0] && Root(h, t) == t[0] && Path(h, 0, s) == []
  {
  }

  // One turn takes the genuine nodes of a level to those of the next.
  lemma {:induction false} PathStep<D>(h: (D, D) -> D, t: seq<D>, s: seq<D>, g: nat)
    requires Aligned(t, s) && 2 <= |s| && g == |PairUp(h, t)| - 1
    ensures 1 <= |t| <= |s| && g < |PairUp(h, s)|
    ensures AscendStep(h, |t| - 1, |s| - 1, Roots(t[|t| - 1], s[|t| - 1], Path(h, |t| - 1, s)))
         == Some(Roots(PairUp(h, t)[g], PairUp(h, s)[g], Path(h, g, PairUp(h, s))))
  {
    assert 1 <= |t| <= |s|;
    hide *;
    AlignedUp(h, t, s);
    var i := |t| - 1;
    PathLevel(h, i, g, s);
    var rest := Path(h, g, PairUp(h, s));
    assert Path(h, i, s) == Sibling(i, s) + rest;
    GenuineAscend(h, t, s, g, rest);
  }

  lemma {:induction false} PathTurn<D>(h: (D, D) -> D, t: seq<D>, s: seq<D>)
    requires Aligned(t, s) && 2 <= |s|
    ensures 1 <= |t| <= |s| && 1 <= |PairUp(h, t)| <= |PairUp(h, s)|
    ensures var tu, su := PairUp(h, t), PairUp(h, s);
            Ascend(h, |t| - 1, |s| - 1, Roots(t[|t| - 1], s[|t| - 1], Path(h, |t| - 1, s)))
            == Ascend(h, |tu| - 1, |su| - 1, Roots(tu[|tu| - 1], su[|tu| - 1], Path(h, |tu| - 1, su)))
  {
    assert 1 <= |t| <= |s|;
    hide *;
    var g := |PairUp(h, t)| - 1;
    PathStep(h, t, s, g);
    AscendAt(h, |t| - 1, |s| - 1, g, |PairUp(h, s)| - 1, Roots(t[|t| - 1], s[|t| - 1], Path(h, |t| - 1, s)));
  }

  // The path leads the last node of the old tree to the two roots.
  ghost predicate ClimbsToRoots<D>(h: (D, D) -> D, t: seq<D>, s: seq<D>)
    requires 1 <= |t| <= |s|
  {
    Ascend(h, |t| - 1, |s| - 1, Roots(t[|t| - 1], s[|t| - 1], Path(h, |t| - 1, s)))
    == Some(Roots(Root(h, t), Root(h, s), []))
  }

  lemma {:induction false} ClimbsFromAbove<D>(h: (D, D) -> D, t: seq<D>, s: seq<D>)
    requires Aligned(t, s) && 2 <= |s| && 1 <= |PairUp(h, t)| <= |PairUp(h, s)|
    requires ClimbsToRoots(h, PairUp(h, t), PairUp(h, s))
    ensures 1 <= |t| <= |s| && ClimbsToRoots(h, t, s)
  {
    hide PairUp, Root, Path, Ascend;
    PathTurn(h, t, s);
    RootLevel(h, t);
    RootLevel(h, s);
  }

  lemma {:induction false} ClimbsAtRoot<D>(h: (D, D) -> D, t: seq<D>, s: seq<D>)
    requires Aligned(t, s) && |s| == 1
    ensures 1 <= |t| <= |s| && ClimbsToRoots(h, t, s)
  {
    hide Ascend, Root, Path;
    AscendRoot(h, t, s, Roots(t[0], s[0], Path(h, 0, s)));
  }

  lemma {:induction false} PathClimbs<D>(h: (D, D) -> D, t: seq<D>, s: seq<D>)
    requires Aligned(t, s)
    ensures 1 <= |t| <= |s|
    ensures ClimbsToRoots(h, t, s)
    decreases |s|
  {
    AlignedSizes(t, s);
    hide *;
    if |s| == 1 {
      ClimbsAtRoot(h, t, s);
    } else {
      AlignedUp(h, t, s);
      AlignedSizes(PairUp(h, t), PairUp(h, s));
      PathClimbs(h, PairUp(h, t), PairUp(h, s));
      ClimbsFromAbove(h, t, s);
    }
  }

  lemma {:induction false} AlignedSizes<D>(t: seq<D>, s: seq<D>)
    requires Aligned(t, s)
    ensures 1 <= |t| <= |s|
  {
  }

  lemma {:induction false} PathAscends<D>(h: (D, D) -> D, t: seq<D>, s: seq<D>)
    requires Aligned(t, s)
    ensures Ascend(h, |t| - 1, |s| - 1, Roots(t[|t| - 1], s[|t| - 1], Path(h, |t| - 1, s)))
         == Some(Roots(Root(h, t), Root(h, s), []))
  {
    hide Ascend, Root, Path;
    PathClimbs(h, t, s);
  }

  // From r the climb ends in the genuine new root and the old root old1.
  ghost predicate Reaches<D>(h: (D, D) -> D, t: seq<D>, s: seq<D>, r: Roots<D>, old1: D) {
    Aligned(t, s) && Ascend(h, |t| - 1, |s| - 1, r) == Some(Roots(old1, Root(h, s), []))
  }

  // r holds the genuine nodes of the new root's climb, and of the old one's where it can tell.
  ghost predicate Forced<D>(h: (D, D) -> D, t: seq<D>, s: seq<D>, r: Roots<D>, old1: D)
    requires 1 <= |t| <= |s|
  {
    && r.newHash == s[|t| - 1] && r.rest == Path(h, |t| - 1, s)
    && (r.oldHash == t[|t| - 1] ==> old1 == Root(h, t))
  }

  lemma {:induction false} AscendUp<D>(h: (D, D) -> D, t: seq<D>, s: seq<D>, r: Roots<D>, old1: D) returns (q: Roots<D>)
    requires Reaches(h, t, s, r, old1) && |s| >= 2
    ensures 1 <= |t| <= |s| && 1 <= |PairUp(h, t)| <= |PairUp(h, s)|
    ensures Reaches(h, PairUp(h, t), PairUp(h, s), q, old1)
    ensures AscendStep(h, |t| - 1, |s| - 1, r) == Some(q)
  {
    hide PairUp, Root, Ascend, AscendStep;
    AlignedUp(h, t, s);
    RootLevel(h, s);
    hide Aligned;
    q := AscendSome(h, |t| - 1, |s| - 1, |PairUp(h, t)| - 1, |PairUp(h, s)| - 1, r);
  }

  lemma {:induction false} ForcedAtRoot<D>(h: (D, D) -> D, t: seq<D>, s: seq<D>, r: Roots<D>, old1: D)
    requires Reaches(h, t, s, r, old1) && |s| == 1
    ensures 1 <= |t| <= |s| && Forced(h, t, s, r, old1)
  {
    hide Ascend, Root, Path;
    AscendRoot(h, t, s, r);
  }

  lemma {:induction false} ForcedUp<D(!new)>(h: (D, D) -> D, t: seq<D>, s: seq<D>, r: Roots<D>, q: Roots<D>, old1: D)
    requires Injective(h) && Aligned(t, s) && |s| >= 2
    requires 1 <= |t| <= |s| && 1 <= |PairUp(h, t)| <= |PairUp(h, s)|
    requires AscendStep(h, |t| - 1, |s| - 1, r) == Some(q) && Forced(h, PairUp(h, t), PairUp(h, s), q, old1)
    ensures Forced(h, t, s, r, old1)
  {
    hide PairUp, Root, Path, AscendStep, Aligned, Injective, Sibling;
    var g := |PairUp(h, t)| - 1;
    OnlyGenuineAscend(h, t, s, g, r, q);
    PathLevel(h, |t| - 1, g, s);
    RootLevel(h, t);
  }

  lemma {:induction false} ReachesForces<D(!new)>(h: (D, D) -> D, t: seq<D>, s: seq<D>, r: Roots<D>, old1: D)
    requires Injective(h) && Reaches(h, t, s, r, old1)
    ensures 1 <= |t| <= |s| && Forced(h, t, s, r, old1)
    decreases |s|
  {
    assert Aligned(t, s) && 1 <= |t| <= |s|;
    hide *;
    if |s| == 1 {
      ForcedAtRoot(h, t, s, r, old1);
    } else {
      var q := AscendUp(h, t, s, r, old1);
      ReachesForces(h, PairUp(h, t), PairUp(h, s), q, old1);
      ForcedUp(h, t, s, r, q, old1);
    }
  }

  // Reaching the genuine new root forces every node used, and turns a genuine start of the
  // old chain into the genuine old root.
  lemma {:induction false} OnlyPathAscends<D(!new)>(h: (D, D) -> D, t: seq<D>, s: seq<D>, r: Roots<D>, old1: D)
    requires Injective(h) && Aligned(t, s)
    requires Ascend(h, |t| - 1, |s| - 1, r) == Some(Roots(old1, Root(h, s), []))
    ensures r.newHash == s[|t| - 1] && r.rest == Path(h, |t| - 1, s)
    ensures r.oldHash == t[|t| - 1] ==> old1 == Root(h, t)
  {
    hide Ascend, Root, Path;
    ReachesForces(h, t, s, r, old1);
  }

  // ---------- the two main results ----------

  lemma {:induction false} PrefixUp<D>(h: (D, D) -> D, q: nat, s: seq<D>)
    requires 2 * q <= |s|
    ensures q <= |PairUp(h, s)| && PairUp(h, s[..2 * q]) == PairUp(h, s)[..q]
  {
    assert s == s[..2 * q] + s[2 * q..];
    PairUpAppend(h, s[..2 * q], s[2 * q..], q);
  }

  lemma {:induction false} RebuildEven<D>(h: (D, D) -> D, q: nat, n: nat, up: nat, first: D, proof: seq<D>)
    requires 0 < 2 * q <= n <= 2 * up <= n + 1
    ensures Rebuild(h, 2 * q, n, first, proof) == Rebuild(h, q, up, first, proof)
  {
    assert (n + 1) / 2 == up;
  }

  lemma {:induction false} RebuildOdd<D>(h: (D, D) -> D, m: nat, n: nat, first: D, proof: seq<D>)
    requires m % 2 == 1 && m <= n
    ensures m == 1 ==> Rebuild(h, m, n, first, proof) == Ascend(h, 0, n - 1, Roots(first, first, proof))
    ensures m > 1 && proof == [] ==> Rebuild(h, m, n, first, proof) == None
    ensures m > 1 && proof != [] ==>
      Rebuild(h, m, n, first, proof) == Ascend(h, m - 1, n - 1, Roots(proof[0], proof[0], proof[1..]))
  {
  }

  lemma {:induction false} AlignedPrefix<D>(h: (D, D) -> D, m: nat, s: seq<D>)
    requires 0 < m <= |s|
    ensures Aligned(s[..m], s) && s[..m][m - 1] == s[m - 1]
    ensures m == 1 ==> Root(h, s[..m]) == s[0]
  {
  }

  // Completeness: the verifier accepts what the prover emits, whatever h is.
  lemma {:induction false} ProofRebuilds<D>(h: (D, D) -> D, m: nat, s: seq<D>)
    requires 0 < m < |s|
    ensures Rebuild(h, m, |s|, Root(h, s[..m]), SubProof(h, m, s, true))
         == Some(Roots(Root(h, s[..m]), Root(h, s), []))
    decreases m
  {
    hide *;
    var t, proof := s[..m], SubProof(h, m, s, true);
    if m % 2 == 0 {
      var q, up := m / 2, PairUp(h, s);
      SubProofEven(h, q, s, true);
      PrefixUp(h, q, s);
      RootLevel(h, s);
      RootLevel(h, t);
      RebuildEven(h, q, |s|, |up|, Root(h, t), proof);
      ProofRebuilds(h, q, up);
    } else {
      SubProofOdd(h, m, s, true);
      SeedIs(m, s);
      AlignedPrefix(h, m, s);
      PathAscends(h, t, s);
      RebuildOdd(h, m, |s|, Root(h, t), proof);
      if m > 1 {
        assert proof[1..] == Path(h, m - 1, s);
      } else {
        assert proof == Path(h, m - 1, s);
      }
    }
  }

  lemma {:induction false} SeedIs<D>(m: nat, s: seq<D>)
    requires 0 < m <= |s|
    ensures Seed(m, s, true) == if m == 1 then [] else [s[m - 1]]
  {
  }

  // Soundness: against a genuine new root only the genuine old root and proof are accepted.
  lemma {:induction false} OnlyProofRebuilds<D(!new)>(h: (D, D) -> D, m: nat, r1: D, s: seq<D>, proof: seq<D>)
    requires Injective(h) && 0 < m < |s|
    requires Rebuild(h, m, |s|, r1, proof) == Some(Roots(r1, Root(h, s), []))
    ensures r1 == Root(h, s[..m]) && proof == SubProof(h, m, s, true)
    decreases m
  {
    hide *;
    var t := s[..m];
    if m % 2 == 0 {
      var q, up := m / 2, PairUp(h, s);
      SubProofEven(h, q, s, true);
      PrefixUp(h, q, s);
      RootLevel(h, s);
      RootLevel(h, t);
      RebuildEven(h, q, |s|, |up|, r1, proof);
      OnlyProofRebuilds(h, q, r1, up, proof);
    } else {
      SubProofOdd(h, m, s, true);
      SeedIs(m, s);
      AlignedPrefix(h, m, s);
      RebuildOdd(h, m, |s|, r1, proof);
      if m == 1 {
        OnlyPathAscends(h, t, s, Roots(r1, r1, proof), r1);
      } else {
        OnlyPathAscends(h, t, s, Roots(proof[0], proof[0], proof[1..]), r1);
        assert proof == [proof[0]] + proof[1..];
      }
    }
  }

  // Completeness, for every pair of sizes including the empty and the equal ones.
  lemma {:induction false} ConsistencyComplete<D>(h: (D, D) -> D, empty: D, m: nat, n: nat, leaves: seq<D>)
    requires m <= n <= |leaves|
    ensures Accepts(h, m, Some(RootFromLeaves(h, empty, leaves[..m])), n, Some(RootFromLeaves(h, empty, leaves[..n])),
                    Present(Proof(h, m, leaves[..n])))
  {
    var s := leaves[..n];
    assert s[..m] == leaves[..m];
    if 0 < m < n {
      ProofRebuilds(h, m, s);
      assert Decoded(Present(Proof(h, m, s))) == Proof(h, m, s);
    }
  }

  // Soundness and completeness in one statement. Against the root of s, an old size m > 0 is
  // accepted exactly with the root of the first m leaves and exactly with the prover's output.
  // For m = 0 the code accepts whatever root and proof it is given.
  lemma {:induction false} ConsistencyExact<D(!new)>(h: (D, D) -> D, m: int, r1: Option<D>, s: seq<D>,
                                                     proof: seq<Option<D>>)
    requires Injective(h) && |s| >= 1
    ensures Accepts(h, m, r1, |s|, Some(Root(h, s)), proof)
       <==> if m == 0 then r1.Some?
            else 0 < m <= |s| && r1 == Some(Root(h, s[..m])) && proof == Present(Proof(h, m, s))
  {
    if m == |s| {
      assert s[..m] == s;
    } else if 0 < m < |s| {
      ProofRebuilds(h, m, s);
      assert Decoded(Present(Proof(h, m, s))) == Proof(h, m, s);
      if Accepts(h, m, r1, |s|, Some(Root(h, s)), proof) {
        OnlyProofRebuilds(h, m, r1.value, s, Decoded(proof));
      }
    }
  }

  // ---------- the shape of a proof ----------

  function Pow2(z: nat): (p: nat)
    ensures p >= 1
  {
    if z == 0 then 1 else 2 * Pow2(z - 1)
  }

  ghost predicate IsPow2(m: nat) {
    exists z: nat :: m == Pow2(z)
  }

  // The split point is a power of two; below n and not below half of n it is the largest one.
  lemma {:induction false} SplitIsPow2(n: nat)
    requires n >= 2
    ensures IsPow2(Split(n)) && Split(n) < n <= 2 * Split(n)
  {
    DoubledIsPow2(1, n, 0);
  }

  lemma {:induction false} DoubledIsPow2(k: nat, n: nat, z: nat)
    requires 1 <= k < n && k == Pow2(z)
    ensures IsPow2(DoubleBelow(k, n))
    decreases n - k
  {
    if k * 2 < n {
      assert k * 2 == Pow2(z + 1);
      DoubledIsPow2(k * 2, n, z + 1);
    }
  }

  // No proof nodes are emitted exactly for the empty old tree and for equal sizes.
  lemma {:induction false} NoProofExactly<D>(h: (D, D) -> D, m: nat, s: seq<D>)
    requires m <= |s|
    ensures Proof(h, m, s) == [] <==> m == 0 || m == |s|
  {
    hide Root;
  }

  lemma {:induction false} IsPow2Half(q: nat)
    ensures IsPow2(2 * q) <==> IsPow2(q)
  {
    if IsPow2(q) {
      var z: nat :| q == Pow2(z);
      assert 2 * q == Pow2(z + 1);
    }
    if IsPow2(2 * q) {
      var z: nat :| 2 * q == Pow2(z);
      assert q == Pow2(z - 1);
    }
  }

  // A proof is the audit path of one node of the level where the old size turns odd, headed by
  // that node itself unless the old size is a power of two.
  lemma {:induction false} ProofShape<D>(h: (D, D) -> D, m: nat, s: seq<D>) returns (z: nat, q: nat)
    requires 0 < m < |s|
    ensures m == q * Pow2(z) && q % 2 == 1 && q <= |Level(h, s, z)|
    ensures Proof(h, m, s) == (if IsPow2(m) then [] else [Level(h, s, z)[q - 1]]) + Path(h, q - 1, Level(h, s, z))
    decreases m, 1
  {
    hide *;
    if m % 2 == 0 {
      z, q := ProofShapeEven(h, m / 2, s);
    } else {
      z, q := 0, m;
      SubProofOdd(h, m, s, true);
      SeedIs(m, s);
      OddIsPow2(m);
      LevelZero(h, m, s);
    }
  }

  lemma {:induction false} ProofShapeEven<D>(h: (D, D) -> D, p: nat, s: seq<D>) returns (z: nat, q: nat)
    requires 0 < 2 * p < |s|
    ensures 2 * p == q * Pow2(z) && q % 2 == 1 && q <= |Level(h, s, z)|
    ensures Proof(h, 2 * p, s)
         == (if IsPow2(2 * p) then [] else [Level(h, s, z)[q - 1]]) + Path(h, q - 1, Level(h, s, z))
    decreases 2 * p, 0
  {
    hide Path, SubProof, PairUp, IsPow2;
    SubProofEven(h, p, s, true);
    IsPow2Half(p);
    var y, r := ProofShape(h, p, PairUp(h, s));
    z, q := y + 1, r;
    assert r * Pow2(y + 1) == 2 * (r * Pow2(y));
  }

  lemma {:induction false} LevelZero<D>(h: (D, D) -> D, m: nat, s: seq<D>)
    requires 0 < m < |s|
    ensures Level(h, s, 0) == s && Proof(h, m, s) == SubProof(h, m, s, true) && Pow2(0) == 1
  {
  }

  lemma {:induction false} Pow2Even(y: nat)
    ensures Pow2(y) == 1 || Pow2(y) % 2 == 0
  {
  }

  lemma {:induction false} OddIsPow2(m: nat)
    requires m % 2 == 1
    ensures IsPow2(m) <==> m == 1
  {
    assert m == 1 ==> m == Pow2(0);
    if m != 1 && IsPow2(m) {
      var y: nat :| m == Pow2(y);
      Pow2Even(y);
      assert false;
    }
  }
}
