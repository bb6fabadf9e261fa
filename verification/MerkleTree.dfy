// The Merkle tree of RFC 9162 over opaque digests.
//
// `h` stands for SHA-256 of 0x01 || left || right. It is never interpreted; only the
// soundness results of Inclusion and Consistency assume that it is injective.
// The repository builds this tree twice, by recursive splitting and level by level.
module MerkleTree {
  // Doubling from k while the double stays below n.
  function DoubleBelow(k: nat, n: nat): (r: nat)
    requires 1 <= k < n
    ensures k <= r < n <= 2 * r
    decreases n - k
  {
    if k * 2 < n then DoubleBelow(k * 2, n) else k
  }

  // The largest power of two strictly below n.
  function Split(n: nat): (k: nat)
    requires n >= 2
    ensures 1 <= k < n <= 2 * k
  {
    DoubleBelow(1, n)
  }

  // The doubling loop that every recursion of the log runs to find the split point.
  method FindSplit(n: nat) returns (k: nat)
    requires n >= 2
    ensures k == Split(n)
  {
    k := 1;
    while k * 2 < n
      invariant 1 <= k < n && DoubleBelow(k, n) == Split(n)
      decreases n - k
    {
      k := k * 2;
    }
  }

  lemma {:induction false} DoubleBelowHalf(k: nat, n: nat, m: nat)
    requires 1 <= k < m && n <= 2 * m <= n + 1
    ensures DoubleBelow(2 * k, n) == 2 * DoubleBelow(k, m)
    decreases m - k
  {
    if k * 2 < m {
      DoubleBelowHalf(k * 2, n, m);
    }
  }

  // The split point of the level above is half the split point, which is even.
  lemma {:induction false} SplitHalf(n: nat, m: nat)
    requires n > 2 && n <= 2 * m <= n + 1
    ensures Split(n) == 2 * Split(m)
  {
    DoubleBelowHalf(1, n, m);
  }

  // The root by recursive splitting.
  function Root<D>(h: (D, D) -> D, s: seq<D>): D
    requires |s| >= 1
  {
    if |s| == 1 then s[0]
    else
      var k := Split(|s|);
      h(Root(h, s[..k]), Root(h, s[k..]))
  }

  function RootFromLeaves<D>(h: (D, D) -> D, empty: D, s: seq<D>): D {
    if |s| == 0 then empty else Root(h, s)
  }

  // The smallest trees.
  lemma {:induction false} SmallRoots<D>(h: (D, D) -> D, empty: D, a: D, b: D, c: D)
    ensures RootFromLeaves(h, empty, []) == empty && RootFromLeaves(h, empty, [a]) == a
    ensures RootFromLeaves(h, empty, [a, b]) == h(a, b) && RootFromLeaves(h, empty, [a, b, c]) == h(h(a, b), c)
  {
    var two, three := [a, b], [a, b, c];
    assert two[..1] == [a] && two[1..] == [b] && three[..2] == two && three[2..] == [c];
    assert Split(2) == 1 && Split(3) == 2;
    assert Root(h, [a]) == a && Root(h, [b]) == b && Root(h, [c]) == c;
    assert Root(h, two) == h(Root(h, two[..1]), Root(h, two[1..]));
    assert Root(h, three) == h(Root(h, three[..2]), Root(h, three[2..]));
  }

  // One level up: neighbours are combined and an odd last node is promoted.
  function PairUp<D>(h: (D, D) -> D, s: seq<D>): (r: seq<D>)
    ensures |s| <= 2 * |r| <= |s| + 1
  {
    if |s| <= 1 then s else [h(s[0], s[1])] + PairUp(h, s[2..])
  }

  // Root unfolded once, over halves that are given.
  lemma {:induction false} RootAt<D>(h: (D, D) -> D, l: seq<D>, r: seq<D>)
    requires |l| >= 1 && |r| >= 1 && |l| == Split(|l| + |r|)
    ensures Root(h, l + r) == h(Root(h, l), Root(h, r))
  {
    assert (l + r)[..|l|] == l && (l + r)[|l|..] == r;
  }

  lemma {:induction false} PairUpAt<D>(h: (D, D) -> D, s: seq<D>, i: nat)
    requires i < |PairUp(h, s)|
    ensures PairUp(h, s)[i] == if 2 * i + 1 < |s| then h(s[2 * i], s[2 * i + 1]) else s[2 * i]
    decreases i
  {
    if i > 0 {
      PairUpAt(h, s[2..], i - 1);
    }
  }

  lemma {:induction false} PairUpAppend<D>(h: (D, D) -> D, l: seq<D>, r: seq<D>, half: nat)
    requires |l| == 2 * half
    ensures PairUp(h, l + r) == PairUp(h, l) + PairUp(h, r) && |PairUp(h, l)| == half
    decreases half
  {
    if half == 0 {
      assert l + r == r;
    } else {
      assert (l + r)[2..] == l[2..] + r;
      PairUpAppend(h, l[2..], r, half - 1);
    }
  }

  // The halves of a list of more than two leaves go up to the halves of the level above.
  lemma {:induction false} HalvesUp<D>(h: (D, D) -> D, l: seq<D>, r: seq<D>)
    requires |l| >= 2 && |r| >= 1 && |l| == Split(|l| + |r|)
    ensures PairUp(h, l + r) == PairUp(h, l) + PairUp(h, r)
    ensures |l| == 2 * |PairUp(h, l)|
    ensures |PairUp(h, l)| == Split(|PairUp(h, l)| + |PairUp(h, r)|)
  {
    var m := |PairUp(h, l + r)|;
    SplitHalf(|l| + |r|, m);
    PairUpAppend(h, l, r, Split(m));
  }

  // Going up one level leaves the recursively split root unchanged.
  lemma {:induction false} RootLevel<D>(h: (D, D) -> D, s: seq<D>)
    requires |s| >= 1
    ensures Root(h, s) == Root(h, PairUp(h, s))
    decreases |s|
  {
    if |s| == 1 {
      assert PairUp(h, s) == s;
    } else if |s| == 2 {
      assert PairUp(h, s) == [h(s[0], s[1])];
    } else {
      hide *;
      var k := Split(|s|);
      var l, r := s[..k], s[k..];
      assert s == l + r;
      RootLevel(h, l);
      RootLevel(h, r);
      RootAppend(h, l, r);
    }
  }

  lemma {:induction false} RootAppend<D>(h: (D, D) -> D, l: seq<D>, r: seq<D>)
    requires |l| >= 2 && |r| >= 1 && |l| == Split(|l| + |r|)
    requires Root(h, l) == Root(h, PairUp(h, l)) && Root(h, r) == Root(h, PairUp(h, r))
    ensures Root(h, l + r) == Root(h, PairUp(h, l + r))
  {
    hide *;
    HalvesUp(h, l, r);
    RootAt(h, l, r);
    RootAt(h, PairUp(h, l), PairUp(h, r));
  }

  // Level `z` of the tree over s.
  function Level<D>(h: (D, D) -> D, s: seq<D>, z: nat): seq<D>
    decreases z
  {
    if z == 0 then s else Level(h, PairUp(h, s), z - 1)
  }

  // The audit path of leaf i, leaf to root, as the recursive prover emits it.
  function Path<D>(h: (D, D) -> D, i: nat, s: seq<D>): seq<D>
    requires i < |s|
    decreases |s|
  {
    if |s| == 1 then []
    else
      var k := Split(|s|);
      if i < k then Path(h, i, s[..k]) + [Root(h, s[k..])]
      else Path(h, i - k, s[k..]) + [Root(h, s[..k])]
  }

  lemma {:induction false} PathOfOne<D>(h: (D, D) -> D, s: seq<D>)
    requires |s| == 1
    ensures Path(h, 0, s) == []
  {
  }

  // What one level contributes to the path: the sibling, or nothing for a promoted node.
  function Sibling<D>(i: nat, s: seq<D>): seq<D>
    requires i < |s|
  {
    if i % 2 == 1 then [s[i - 1]] else if i + 1 < |s| then [s[i + 1]] else []
  }

  // Path unfolded once, over halves that are given.
  lemma {:induction false} PathAt<D>(h: (D, D) -> D, i: nat, l: seq<D>, r: seq<D>)
    requires |l| >= 1 && |r| >= 1 && |l| == Split(|l| + |r|)
    ensures i < |l| ==> Path(h, i, l + r) == Path(h, i, l) + [Root(h, r)]
    ensures i < |r| ==> Path(h, |l| + i, l + r) == Path(h, i, r) + [Root(h, l)]
  {
    hide Root, Split;
    assert (l + r)[..|l|] == l && (l + r)[|l|..] == r;
  }

  lemma {:induction false} PathLeft<D>(h: (D, D) -> D, i: nat, g: nat, l: seq<D>, r: seq<D>, sib: seq<D>)
    requires |l| >= 2 && |r| >= 1 && |l| == Split(|l| + |r|) && i < |l| && g < |PairUp(h, l)|
    requires Root(h, r) == Root(h, PairUp(h, r)) && Path(h, i, l) == sib + Path(h, g, PairUp(h, l))
    ensures g < |PairUp(h, l + r)| && Path(h, i, l + r) == sib + Path(h, g, PairUp(h, l + r))
  {
    hide *;
    HalvesUp(h, l, r);
    PathAt(h, i, l, r);
    PathAt(h, g, PairUp(h, l), PairUp(h, r));
    assert (sib + Path(h, g, PairUp(h, l))) + [Root(h, r)] == sib + (Path(h, g, PairUp(h, l)) + [Root(h, r)]);
  }

  lemma {:induction false} PathRight<D>(h: (D, D) -> D, j: nat, g: nat, l: seq<D>, r: seq<D>, sib: seq<D>)
    requires |l| >= 2 && |r| >= 1 && |l| == Split(|l| + |r|) && j < |r| && g < |PairUp(h, r)|
    requires Root(h, l) == Root(h, PairUp(h, l)) && Path(h, j, r) == sib + Path(h, g, PairUp(h, r))
    ensures |l| == 2 * |PairUp(h, l)| && |PairUp(h, l)| + g < |PairUp(h, l + r)|
    ensures Path(h, |l| + j, l + r) == sib + Path(h, |PairUp(h, l)| + g, PairUp(h, l + r))
  {
    hide *;
    HalvesUp(h, l, r);
    PathAt(h, j, l, r);
    PathAt(h, g, PairUp(h, l), PairUp(h, r));
    assert (sib + Path(h, g, PairUp(h, r))) + [Root(h, l)] == sib + (Path(h, g, PairUp(h, r)) + [Root(h, l)]);
  }

  lemma {:induction false} SiblingAppend<D>(i: nat, l: seq<D>, r: seq<D>, half: nat)
    requires |l| == 2 * half && i < |l| + |r|
    ensures i < |l| ==> Sibling(i, l) == Sibling(i, l + r)
    ensures i >= |l| ==> Sibling(i - |l|, r) == Sibling(i, l + r)
  {
    assert i >= |l| ==> (i - |l|) % 2 == i % 2;
  }

  lemma {:induction false} PathLevelShort<D>(h: (D, D) -> D, i: nat, g: nat, s: seq<D>)
    requires i < |s| <= 2 && 2 * g <= i <= 2 * g + 1
    ensures g < |PairUp(h, s)| && Path(h, i, s) == Sibling(i, s) + Path(h, g, PairUp(h, s))
  {
    if |s| == 2 {
      assert PairUp(h, s) == [h(s[0], s[1])] && Path(h, g, PairUp(h, s)) == [];
      assert Path(h, i, s) == Sibling(i, s);
    }
  }

  // The recursive path is the list of level siblings. Here g is i / 2.
  lemma {:induction false} PathLevel<D>(h: (D, D) -> D, i: nat, g: nat, s: seq<D>)
    requires i < |s| && 2 * g <= i <= 2 * g + 1
    ensures g < |PairUp(h, s)| && Path(h, i, s) == Sibling(i, s) + Path(h, g, PairUp(h, s))
    decreases |s|
  {
    hide *;
    if |s| <= 2 {
      PathLevelShort(h, i, g, s);
    } else {
      var k, m := Split(|s|), |PairUp(h, s)|;
      SplitHalf(|s|, m);
      var half := Split(m);
      var l, r := s[..k], s[k..];
      assert s == l + r;
      RootLevel(h, l);
      RootLevel(h, r);
      SiblingAppend(i, l, r, half);
      if i < k {
        PathLevel(h, i, g, l);
        PathLeft(h, i, g, l, r, Sibling(i, l));
      } else {
        PathLevel(h, i - k, g - half, r);
        PathRight(h, i - k, g - half, l, r, Sibling(i - k, r));
      }
    }
  }

  // No two pairs of digests combine to the same digest.
  ghost predicate Injective<D(!new)>(h: (D, D) -> D) {
    forall a, b, c, d :: h(a, b) == h(c, d) ==> a == c && b == d
  }
}
