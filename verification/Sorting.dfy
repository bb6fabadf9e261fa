// Stable sorting by a comparison, standing for the sorts of the JavaScript and Go libraries,
// and the fact that makes sorted output independent of input order.
module Sorting {
  ghost predicate TotalPreorder<T(!new)>(le: (T, T) -> bool) {
    && (forall x, y :: le(x, y) || le(y, x))
    && (forall x, y, z :: le(x, y) && le(y, z) ==> le(x, z))
  }

  ghost predicate Sorted<T>(le: (T, T) -> bool, s: seq<T>) {
    forall i, j :: 0 <= i < j < |s| ==> le(s[i], s[j])
  }

  // Sorted, and no two positions compare as equal.
  ghost predicate StrictlySorted<T>(le: (T, T) -> bool, s: seq<T>) {
    forall i, j :: 0 <= i < j < |s| ==> le(s[i], s[j]) && !le(s[j], s[i])
  }

  function Insert<T>(le: (T, T) -> bool, x: T, s: seq<T>): (r: seq<T>)
    ensures multiset(r) == multiset{x} + multiset(s)
    ensures |r| == |s| + 1
  {
    if s == [] || le(x, s[0]) then [x] + s
    else
      assert s == [s[0]] + s[1..];
      [s[0]] + Insert(le, x, s[1..])
  }

  function Sort<T>(le: (T, T) -> bool, s: seq<T>): (r: seq<T>)
    ensures multiset(r) == multiset(s)
    ensures |r| == |s|
  {
    if s == [] then []
    else
      assert s == [s[0]] + s[1..];
      Insert(le, s[0], Sort(le, s[1..]))
  }

  lemma {:induction false} InsertSorted<T(!new)>(le: (T, T) -> bool, x: T, s: seq<T>)
    requires TotalPreorder(le) && Sorted(le, s)
    ensures Sorted(le, Insert(le, x, s))
  {
    if s != [] && !le(x, s[0]) {
      var rest := Insert(le, x, s[1..]);
      InsertSorted(le, x, s[1..]);
      forall j | 0 <= j < |rest| ensures le(s[0], rest[j]) {
        assert rest[j] in multiset(rest);
        assert rest[j] == x || rest[j] in s[1..];
      }
    }
  }

  lemma {:induction false} SortStays<T>(le: (T, T) -> bool, s: seq<T>)
    requires Sorted(le, s)
    ensures Sort(le, s) == s
  {
    if s != [] {
      SortStays(le, s[1..]);
      assert |s| > 1 ==> le(s[0], s[1]);
      assert s == [s[0]] + s[1..];
    }
  }

  lemma {:induction false} SortSorted<T(!new)>(le: (T, T) -> bool, s: seq<T>)
    requires TotalPreorder(le)
    ensures Sorted(le, Sort(le, s))
  {
    if s != [] {
      SortSorted(le, s[1..]);
      InsertSorted(le, s[0], Sort(le, s[1..]));
    }
  }

  lemma {:induction false} SameHead<T>(le: (T, T) -> bool, a: seq<T>, b: seq<T>, i: nat, j: nat)
    requires StrictlySorted(le, a) && Sorted(le, b)
    requires i < |a| && j < |b| && a[i] == b[0] && b[j] == a[0]
    ensures a[0] == b[0]
  {
    if i > 0 && j > 0 {
      assert false;
    }
  }

  lemma {:induction false} SameTails<T>(a: seq<T>, b: seq<T>)
    requires multiset(a) == multiset(b) && a != [] && b != [] && a[0] == b[0]
    ensures multiset(a[1..]) == multiset(b[1..])
  {
    assert a == [a[0]] + a[1..] && b == [b[0]] + b[1..];
    assert multiset(a[1..]) == multiset(a) - multiset{a[0]};
    assert multiset(b[1..]) == multiset(b) - multiset{b[0]};
  }

  lemma {:induction false} SortedTails<T>(le: (T, T) -> bool, a: seq<T>, b: seq<T>)
    requires StrictlySorted(le, a) && Sorted(le, b) && a != [] && b != []
    ensures StrictlySorted(le, a[1..]) && Sorted(le, b[1..])
  {
  }

  // A strictly sorted list is the only sorted arrangement of its elements.
  lemma {:induction false} SortedUnique<T>(le: (T, T) -> bool, a: seq<T>, b: seq<T>)
    requires StrictlySorted(le, a) && Sorted(le, b) && multiset(a) == multiset(b)
    ensures a == b
  {
    hide *;
    assert |a| == |multiset(a)| == |multiset(b)| == |b|;
    if a != [] {
      assert b[0] in multiset(a) && a[0] in multiset(b);
      var i :| 0 <= i < |a| && a[i] == b[0];
      var j :| 0 <= j < |b| && b[j] == a[0];
      SameHead(le, a, b, i, j);
      SameTails(a, b);
      SortedTails(le, a, b);
      SortedUnique(le, a[1..], b[1..]);
    }
  }

  lemma {:induction false} SortStrict<T(!new)>(le: (T, T) -> bool, a: seq<T>, b: seq<T>)
    requires TotalPreorder(le) && StrictlySorted(le, a) && multiset(a) == multiset(b)
    ensures Sort(le, b) == a
  {
    SortSorted(le, b);
    SortedUnique(le, a, Sort(le, b));
  }

  ghost predicate NoRepeats<T>(s: seq<T>) {
    forall i, j :: 0 <= i < j < |s| ==> s[i] != s[j]
  }

  lemma {:induction false} CountOnce<T>(s: seq<T>, x: T)
    requires NoRepeats(s)
    ensures multiset(s)[x] == if x in s then 1 else 0
  {
    if s != [] {
      var front, last := s[..|s| - 1], s[|s| - 1];
      assert s == front + [last];
      CountOnce(front, x);
    }
  }

  lemma {:induction false} SameElements<T>(a: seq<T>, b: seq<T>)
    requires NoRepeats(a) && NoRepeats(b) && forall x :: x in a <==> x in b
    ensures multiset(a) == multiset(b)
  {
    forall x | x in multiset(a) || x in multiset(b) ensures multiset(a)[x] == multiset(b)[x] {
      CountOnce(a, x);
      CountOnce(b, x);
    }
  }

  // A list of the elements of a set, each once.
  lemma {:induction false} SetHasNoRepeats<T>(s: seq<T>, elements: set<T>)
    requires multiset(s) == multiset(elements)
    ensures NoRepeats(s) && forall x :: x in s <==> x in elements
  {
    forall x ensures x in s <==> x in elements {
      assert x in s <==> x in multiset(s);
    }
    forall i, j | 0 <= i < j < |s| ensures s[i] != s[j] {
      assert s == s[..i] + [s[i]] + s[i + 1..j] + [s[j]] + s[j + 1..];
      assert multiset(s)[s[i]] <= 1;
    }
  }
}
