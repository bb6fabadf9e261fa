// The de-overlap pass of scanPii in src/safety/pii-detector.ts. The matches, found by regular
// expressions, are its input; a match is never empty.
module PiiScan {
  import opened Sorting

  type Category = string

  // `confidence` in hundredths: 70 for a pattern alone, 95 with a checksum.
  datatype Finding = Finding(category: Category, start: nat, size: nat, confidence: nat) {
    function End(): nat {
      start + size
    }
  }

  datatype ScanResult = ScanResult(
    count: nat, categories: map<Category, nat>, findings: seq<Finding>, hasHighConfidence: bool)

  function StartsFirst(a: Finding, b: Finding): bool {
    a.start <= b.start
  }

  ghost predicate Ordered(s: seq<Finding>) {
    forall i, j :: 0 <= i < j < |s| ==> s[i].start <= s[j].start
  }

  ghost predicate NonEmpty(s: seq<Finding>) {
    forall i :: 0 <= i < |s| ==> s[i].size > 0
  }

  predicate Overlap(a: Finding, b: Finding) {
    a.start < b.End() && b.start < a.End()
  }

  // Overlapping the last kept finding, f replaces it.
  predicate Beats(f: Finding, last: Finding) {
    f.confidence > last.confidence || (f.confidence == last.confidence && f.size > last.size)
  }

  function Keep(kept: seq<Finding>, f: Finding): seq<Finding> {
    if kept == [] || f.start >= kept[|kept| - 1].End() then kept + [f]
    else if Beats(f, kept[|kept| - 1]) then kept[|kept| - 1 := f]
    else kept
  }

  // What is kept of a list in order of start.
  function Kept(s: seq<Finding>): seq<Finding> {
    if s == [] then [] else Keep(Kept(s[..|s| - 1]), s[|s| - 1])
  }

  function Tally(s: seq<Finding>): map<Category, nat> {
    if s == [] then map[]
    else
      var m, c := Tally(s[..|s| - 1]), s[|s| - 1].category;
      m[c := (if c in m then m[c] else 0) + 1]
  }

  predicate IsHigh(f: Finding) {
    f.confidence >= 90
  }

  predicate SomeHigh(s: seq<Finding>) {
    exists i :: 0 <= i < |s| && IsHigh(s[i])
  }

  function Scan(matches: seq<Finding>): ScanResult {
    var kept := Kept(Sort(StartsFirst, matches));
    ScanResult(|kept|, Tally(kept), kept, SomeHigh(kept))
  }

  method ScanPii(matches: seq<Finding>) returns (r: ScanResult)
    ensures r == Scan(matches)
  {
    hide Kept, Sort, Beats, Tally;
    KeptNone();
    var findings := Sort(StartsFirst, matches);
    var kept: seq<Finding> := [];
    for i := 0 to |findings|
      invariant kept == Kept(findings[..i])
    {
      var f := findings[i];
      assert findings[..i + 1] == findings[..i] + [f];
      KeptSnoc(findings[..i], f);
      if kept == [] || f.start >= kept[|kept| - 1].End() {
        kept := kept + [f];
      } else if Beats(f, kept[|kept| - 1]) {
        kept := kept[|kept| - 1 := f];
      }
    }
    assert findings[..|findings|] == findings;
    var categories: map<Category, nat> := map[];
    TallyNone();
    for i := 0 to |kept|
      invariant categories == Tally(kept[..i])
    {
      assert kept[..i + 1] == kept[..i] + [kept[i]];
      TallySnoc(kept[..i], kept[i]);
      var c := kept[i].category;
      categories := categories[c := (if c in categories then categories[c] else 0) + 1];
    }
    assert kept[..|kept|] == kept;
    r := ScanResult(|kept|, categories, kept, SomeHigh(kept));
  }

  lemma {:induction false} TallyNone()
    ensures Tally([]) == map[]
  {
  }

  lemma {:induction false} TallySnoc(s: seq<Finding>, f: Finding)
    ensures var m, c := Tally(s), f.category;
            Tally(s + [f]) == m[c := (if c in m then m[c] else 0) + 1]
  {
    assert (s + [f])[..|s|] == s;
  }

  // ---------- order and disjointness ----------

  ghost predicate Disjoint(s: seq<Finding>) {
    forall i, j :: 0 <= i < j < |s| ==> s[i].End() <= s[j].start
  }

  // The last match is where it should be with respect to what has been kept.
  ghost predicate Tidy(s: seq<Finding>, kept: seq<Finding>) {
    && Disjoint(kept)
    && (kept == [] <==> s == [])
    && (forall k :: 0 <= k < |kept| ==> kept[k] in s)
    && (s != [] ==> kept[|kept| - 1].start <= s[|s| - 1].start)
  }

  ghost predicate Before(s: seq<Finding>, f: Finding) {
    f.size > 0 && forall i :: 0 <= i < |s| ==> s[i].start <= f.start
  }

  lemma {:induction false} PrefixOrdered(s: seq<Finding>)
    requires Ordered(s) && NonEmpty(s) && s != []
    ensures Ordered(s[..|s| - 1]) && NonEmpty(s[..|s| - 1])
    ensures Before(s[..|s| - 1], s[|s| - 1])
  {
  }

  lemma {:induction false} TidyEmpty(s: seq<Finding>, kept: seq<Finding>)
    requires Tidy(s, kept)
    ensures kept == [] <==> s == []
  {
  }

  lemma {:induction false} AppendTidy(s: seq<Finding>, kept: seq<Finding>, f: Finding)
    requires Tidy(s, kept) && Before(s, f) && (kept == [] || f.start >= kept[|kept| - 1].End())
    ensures Tidy(s + [f], kept + [f])
  {
    forall k | 0 <= k < |kept| ensures (kept + [f])[k] in s + [f] && kept[k].End() <= f.start {
      assert kept[k] in s;
    }
    assert (s + [f])[|s|] == f;
  }

  lemma {:induction false} ReplaceTidy(s: seq<Finding>, kept: seq<Finding>, f: Finding)
    requires Tidy(s, kept) && Before(s, f) && s != [] && kept != []
    ensures Tidy(s + [f], kept[|kept| - 1 := f]) && Tidy(s + [f], kept)
  {
    var last := |kept| - 1;
    assert s[|s| - 1].start <= f.start;
    forall k | 0 <= k < |kept| ensures kept[last := f][k] in s + [f] && kept[k] in s + [f] {
      assert kept[k] in s;
      assert (s + [f])[|s|] == f;
    }
  }

  // In order of start, pairwise disjoint, each one of the matches, and nothing is kept only of
  // nothing.
  lemma {:induction false} KeptTidy(s: seq<Finding>)
    requires Ordered(s) && NonEmpty(s)
    ensures Tidy(s, Kept(s))
  {
    hide Tidy, Ordered, NonEmpty, Before, Kept;
    KeptNone();
    if s == [] {
      TidyNone();
    } else {
      var front, f := s[..|s| - 1], s[|s| - 1];
      PrefixOrdered(s);
      KeptTidy(front);
      var kept := Kept(front);
      TidyEmpty(front, kept);
      KeptSnoc(front, f);
      assert s == front + [f];
      if kept == [] || f.start >= kept[|kept| - 1].End() {
        AppendTidy(front, kept, f);
      } else {
        ReplaceTidy(front, kept, f);
      }
    }
  }

  lemma {:induction false} TidyNone()
    ensures Tidy([], [])
  {
  }

  lemma {:induction false} KeptNone()
    ensures Kept([]) == []
  {
  }

  lemma {:induction false} KeptSnoc(s: seq<Finding>, f: Finding)
    ensures Kept(s + [f]) == Keep(Kept(s), f)
  {
    assert (s + [f])[..|s|] == s;
  }

  // Of two matches that overlap, the one that starts first is kept, unless the other is more confident,
  // or as confident and longer.
  lemma {:induction false} BetterOfTwo(a: Finding, b: Finding)
    requires a.start <= b.start < a.start + a.size
    ensures Kept([a, b]) ==
      if b.confidence > a.confidence || (b.confidence == a.confidence && b.size > a.size) then [b] else [a]
  {
    assert [a, b][..1] == [a] && [a][..0] == [];
    assert Kept([]) == [];
    assert Kept([a]) == [a];
  }

  // No match that starts within a kept one is more confident than it, or as confident and longer.
  lemma {:induction false} KeptUnbeaten(s: seq<Finding>, f: Finding, m: Finding)
    requires Ordered(s) && NonEmpty(s) && f in Kept(s) && m in s && f.start < m.start < f.start + f.size
    ensures m.confidence <= f.confidence && (m.confidence == f.confidence ==> m.size <= f.size)
  {
    hide Ordered, NonEmpty, Tidy, Kept, Beats, Before;
    var n := |s| - 1;
    var front, x := s[..n], s[n];
    assert s == front + [x];
    PrefixOrdered(s);
    KeptTidy(front);
    KeptSnoc(front, x);
    OrderedLast(s, m);
    KeptBefore(s, f, x);
    if m != x && f in Kept(front) {
      KeptUnbeaten(front, f, m);
    } else {
      UnbeatenLast(front, Kept(front), f, m, x);
    }
  }

  lemma {:induction false} OrderedLast(s: seq<Finding>, m: Finding)
    requires Ordered(s) && m in s
    ensures m.start <= s[|s| - 1].start
  {
  }

  lemma {:induction false} KeptBefore(s: seq<Finding>, f: Finding, x: Finding)
    requires s != [] && x == s[|s| - 1] && Kept(s) == Keep(Kept(s[..|s| - 1]), x) && f in Kept(s)
    ensures f == x || f in Kept(s[..|s| - 1])
  {
    hide Kept, Beats;
  }

  // What the last match does to the kept ones before it.
  lemma {:induction false} UnbeatenLast(front: seq<Finding>, kept: seq<Finding>, f: Finding, m: Finding, x: Finding)
    requires Tidy(front, kept) && Before(front, x) && f in Keep(kept, x) && (f == x || f in kept) && (m == x || f == x)
    requires m.start <= x.start && f.start < m.start < f.start + f.size
    ensures m.confidence <= f.confidence && (m.confidence == f.confidence ==> m.size <= f.size)
  {
    assert m == x && f in kept;
    var after, last := Keep(kept, x), |kept| - 1;
    var i :| 0 <= i < |after| && after[i] == f;
    assert i <= last && kept[i] == f;
    assert kept[last].start <= x.start && i == last;
  }

  function Sum(m: map<Category, nat>, keys: seq<Category>): nat {
    if keys == [] then 0
    else Sum(m, keys[..|keys| - 1]) + if keys[|keys| - 1] in m then m[keys[|keys| - 1]] else 0
  }

  function Count(s: seq<Finding>, c: Category): nat {
    if s == [] then 0 else Count(s[..|s| - 1], c) + if s[|s| - 1].category == c then 1 else 0
  }

  // The tally of a category is the number of findings of that category.
  lemma {:induction false} TallyCounts(s: seq<Finding>, c: Category)
    ensures c in Tally(s) <==> Count(s, c) > 0
    ensures c in Tally(s) ==> Tally(s)[c] == Count(s, c)
  {
    if s != [] {
      TallyCounts(s[..|s| - 1], c);
    }
  }

  lemma {:induction false} SumAbsent(m: map<Category, nat>, keys: seq<Category>, c: Category, n: nat)
    requires c !in keys
    ensures Sum(m[c := n], keys) == Sum(m, keys)
  {
    if keys != [] {
      SumAbsent(m, keys[..|keys| - 1], c, n);
    }
  }

  lemma {:induction false} SumUpdate(m: map<Category, nat>, keys: seq<Category>, c: Category, n: nat)
    requires NoRepeats(keys) && c in keys
    ensures Sum(m[c := n], keys) == Sum(m, keys) + n - if c in m then m[c] else 0
  {
    var front, last := keys[..|keys| - 1], keys[|keys| - 1];
    assert keys == front + [last];
    if last == c {
      SumAbsent(m, front, c, n);
    } else {
      SumUpdate(m, front, c, n);
    }
  }

  lemma {:induction false} SumEmpty(keys: seq<Category>)
    ensures Sum(map[], keys) == 0
  {
    if keys != [] {
      SumEmpty(keys[..|keys| - 1]);
    }
  }

  lemma {:induction false} TallySums(s: seq<Finding>, keys: seq<Category>)
    requires NoRepeats(keys) && forall c :: c in Tally(s) ==> c in keys
    ensures Sum(Tally(s), keys) == |s|
  {
    if s == [] {
      SumEmpty(keys);
    } else {
      var front, c := s[..|s| - 1], s[|s| - 1].category;
      assert c in Tally(s);
      TallySums(front, keys);
      SumUpdate(Tally(front), keys, c, (if c in Tally(front) then Tally(front)[c] else 0) + 1);
    }
  }

  // ---------- which matches are ever kept ----------

  // f overlaps the last kept finding and is dropped.
  predicate Yields(f: Finding, last: Finding) {
    f.start < last.End() && !Beats(f, last)
  }

  // f overlaps the last kept finding and replaces it.
  predicate TakesOver(f: Finding, last: Finding) {
    f.start < last.End() && Beats(f, last)
  }

  // Where the reign of line position t ends.
  function ReignEnd(s: seq<Finding>, c: seq<nat>, t: nat): nat
    requires t < |c|
  {
    if t + 1 < |c| then c[t + 1] else |s|
  }

  ghost predicate Rules(s: seq<Finding>, c: seq<nat>, t: nat, m: nat) {
    t < |c| && c[t] <= m < ReignEnd(s, c, t) <= |s|
  }

  // c lists, in order, the matches that hold the last place at some time: the first match, then each
  // time the next one that does not yield to the one before.
  ghost predicate IsLine(s: seq<Finding>, c: seq<nat>) {
    && (s == [] <==> c == []) && (c != [] ==> c[0] == 0)
    && (forall t :: 0 <= t < |c| ==> c[t] < |s|)
    && (forall t :: 0 < t < |c| ==> c[t - 1] < c[t] && !Yields(s[c[t]], s[c[t - 1]]))
    && (forall t: nat, m: nat :: Rules(s, c, t, m) && m != c[t] ==> Yields(s[m], s[c[t]]))
  }

  function LineOf(s: seq<Finding>): seq<nat> {
    if s == [] then []
    else
      var c, n := LineOf(s[..|s| - 1]), |s| - 1;
      if c != [] && c[|c| - 1] < |s| && Yields(s[n], s[c[|c| - 1]]) then c else c + [n]
  }

  lemma {:induction false} LineExists(s: seq<Finding>)
    ensures IsLine(s, LineOf(s))
  {
    if s != [] {
      var n := |s| - 1;
      var c := LineOf(s[..n]);
      LineExists(s[..n]);
      hide Yields, Beats;
      LineBounds(s[..n], c);
      assert LineOf(s) == if c != [] && Yields(s[n], s[c[|c| - 1]]) then c else c + [n];
      hide LineOf, IsLine;
      if c != [] && Yields(s[n], s[c[|c| - 1]]) {
        LineGoesOn(s, c);
      } else {
        LineGrows(s, c);
      }
    }
  }

  lemma {:induction false} LineBounds(s: seq<Finding>, c: seq<nat>)
    requires IsLine(s, c)
    ensures forall t :: 0 <= t < |c| ==> c[t] < |s|
  {
  }

  // Yielding extends the reign.
  lemma {:induction false} LineGoesOn(s: seq<Finding>, c: seq<nat>)
    requires s != [] && c != [] && c[|c| - 1] < |s| && IsLine(s[..|s| - 1], c) && Yields(s[|s| - 1], s[c[|c| - 1]])
    ensures IsLine(s, c)
  {
    hide Yields;
    var n := |s| - 1;
    var s' := s[..n];
    forall t: nat, m: nat | Rules(s, c, t, m) && m != c[t] ensures Yields(s[m], s[c[t]]) {
      assert m < n ==> Rules(s', c, t, m);
    }
  }

  // Anything else begins a new one.
  lemma {:induction false} LineGrows(s: seq<Finding>, c: seq<nat>)
    requires s != [] && IsLine(s[..|s| - 1], c)
    requires c == [] || (c[|c| - 1] < |s| && !Yields(s[|s| - 1], s[c[|c| - 1]]))
    ensures IsLine(s, c + [|s| - 1])
  {
    hide Yields;
    var n := |s| - 1;
    var s', c' := s[..n], c + [n];
    forall t: nat, m: nat | Rules(s, c', t, m) && m != c'[t] ensures Yields(s[m], s[c'[t]]) {
      assert Rules(s', c, t, m);
    }
  }

  // Dropping the last match shortens the line by at most that match.
  lemma {:induction false} LineShrinks(s: seq<Finding>, c: seq<nat>)
    requires s != [] && IsLine(s, c)
    ensures c[|c| - 1] == |s| - 1 ==> IsLine(s[..|s| - 1], c[..|c| - 1])
    ensures c[|c| - 1] < |s| - 1 ==> IsLine(s[..|s| - 1], c) && Yields(s[|s| - 1], s[c[|c| - 1]])
  {
    hide Yields, Rules;
    LineRises(s, c);
    if c[|c| - 1] == |s| - 1 {
      LineDropsLast(s, c);
    } else {
      LineKeepsLast(s, c);
    }
  }

  lemma {:induction false} LineDropsLast(s: seq<Finding>, c: seq<nat>)
    requires s != [] && IsLine(s, c) && c[|c| - 1] == |s| - 1
    ensures IsLine(s[..|s| - 1], c[..|c| - 1])
  {
    hide Yields;
    LineRises(s, c);
    var s', c' := s[..|s| - 1], c[..|c| - 1];
    forall t: nat, m: nat | Rules(s', c', t, m) && m != c'[t] ensures Yields(s'[m], s'[c'[t]]) {
      DroppedRules(s, c, t, m);
    }
  }

  lemma {:induction false} DroppedRules(s: seq<Finding>, c: seq<nat>, t: nat, m: nat)
    requires s != [] && c != [] && c[|c| - 1] == |s| - 1 && Rules(s[..|s| - 1], c[..|c| - 1], t, m)
    ensures Rules(s, c, t, m) && t < |c| - 1 && m < |s| - 1
  {
  }

  lemma {:induction false} LineKeepsLast(s: seq<Finding>, c: seq<nat>)
    requires s != [] && IsLine(s, c) && c[|c| - 1] < |s| - 1
    ensures IsLine(s[..|s| - 1], c) && Yields(s[|s| - 1], s[c[|c| - 1]])
  {
    LineRises(s, c);
    var s' := s[..|s| - 1];
    assert Rules(s, c, |c| - 1, |s| - 1);
    hide Yields;
    forall t: nat, m: nat | Rules(s', c, t, m) && m != c[t] ensures Yields(s'[m], s'[c[t]]) {
      KeptRules(s, c, t, m);
    }
  }

  lemma {:induction false} KeptRules(s: seq<Finding>, c: seq<nat>, t: nat, m: nat)
    requires s != [] && c != [] && c[|c| - 1] < |s| - 1 && Rules(s[..|s| - 1], c, t, m)
    ensures Rules(s, c, t, m) && m < |s| - 1
  {
  }

  lemma {:induction false} LineRises(s: seq<Finding>, c: seq<nat>)
    requires IsLine(s, c)
    ensures forall t, u :: 0 <= t < u < |c| ==> c[t] < c[u]
  {
    hide Yields;
    for n := 0 to |c|
      invariant forall t, u :: 0 <= t < u < n ==> c[t] < c[u]
    {
      if n > 0 {
        assert c[n - 1] < c[n];
      }
    }
  }

  // Line position t is not replaced: nothing comes after it, or what does opens a new place.
  predicate Stays(s: seq<Finding>, c: seq<nat>, t: nat)
    requires InRange(s, c)
  {
    t < |c| && (t + 1 == |c| || s[c[t + 1]].start >= s[c[t]].End())
  }

  predicate InRange(s: seq<Finding>, c: seq<nat>) {
    forall u :: 0 <= u < |c| ==> c[u] < |s|
  }

  // The line positions that hold a place in the end.
  function Places(s: seq<Finding>, c: seq<nat>): (r: seq<nat>)
    requires InRange(s, c)
    ensures c == [] <==> r == []
    ensures c != [] ==> r[|r| - 1] == |c| - 1 && forall k :: 0 <= k < |r| - 1 ==> r[k] < |c| - 1
  {
    if c == [] then []
    else
      var n := |c| - 1;
      var front := Places(s, c[..n]);
      if n > 0 && s[c[n]].start < s[c[n - 1]].End() then front[..|front| - 1] + [n] else front + [n]
  }

  // The last line position takes the last place or a new one.
  lemma {:induction false} PlacesLast(s: seq<Finding>, c: seq<nat>)
    requires c != [] && InRange(s, c)
    ensures var n := |c| - 1;
            var front := Places(s, c[..n]);
            Places(s, c) == if n > 0 && s[c[n]].start < s[c[n - 1]].End() then front[..|front| - 1] + [n]
                            else front + [n]
    ensures var front := Places(s, c[..|c| - 1]);
            (front == [] <==> |c| == 1) && forall k :: 0 <= k < |front| ==> front[k] < |c| - 1
    ensures |c| > 1 ==> Places(s, c[..|c| - 1])[|Places(s, c[..|c| - 1])| - 1] == |c| - 2
  {
  }

  lemma {:induction false} StaysPrefix(s: seq<Finding>, c: seq<nat>, t: nat)
    requires c != [] && InRange(s, c) && t + 2 < |c|
    ensures Stays(s, c[..|c| - 1], t) <==> Stays(s, c, t)
  {
  }

  lemma {:induction false} InReplaced(front: seq<nat>, n: nat, t: nat)
    requires front != [] && n > 0 && front[|front| - 1] == n - 1
    requires forall k :: 0 <= k < |front| - 1 ==> front[k] < n - 1
    ensures t in front[..|front| - 1] + [n] <==> t == n || (t in front && t != n - 1)
  {
    assert front == front[..|front| - 1] + [n - 1];
  }

  // Which line positions hold a place, from one position to the next.
  lemma {:induction false} PlacesNext(s: seq<Finding>, c: seq<nat>, t: nat)
    requires c != [] && InRange(s, c)
    ensures var n := |c| - 1;
      t in Places(s, c) <==>
        t == n || (t in Places(s, c[..n]) && (t + 1 == n ==> s[c[n]].start >= s[c[n - 1]].End()))
  {
    var n := |c| - 1;
    var front := Places(s, c[..n]);
    PlacesLast(s, c);
    if n > 0 && s[c[n]].start < s[c[n - 1]].End() {
      InReplaced(front, n, t);
    }
    hide Places;
  }

  lemma {:induction false} PlacesStay(s: seq<Finding>, c: seq<nat>, t: nat)
    requires InRange(s, c)
    ensures t in Places(s, c) <==> Stays(s, c, t)
  {
    if c == [] {
    } else {
      hide Places;
      PlacesNext(s, c, t);
      PlacesStay(s, c[..|c| - 1], t);
      if t + 2 < |c| {
        StaysPrefix(s, c, t);
        hide Stays;
      }
    }
  }

  function At(s: seq<Finding>, c: seq<nat>, places: seq<nat>): (r: seq<Finding>)
    requires InRange(s, c) && forall k :: 0 <= k < |places| ==> places[k] < |c|
    ensures |r| == |places| && forall k :: 0 <= k < |r| ==> r[k] == s[c[places[k]]]
  {
    seq(|places|, k requires 0 <= k < |places| => s[c[places[k]]])
  }

  // What is kept in the end are the line positions that are not replaced.
  lemma {:induction false} KeptIsLine(s: seq<Finding>, c: seq<nat>)
    requires IsLine(s, c)
    ensures Kept(s) == At(s, c, Places(s, c))
  {
    hide Kept, Places, Yields, At;
    KeptNone();
    LineInRange(s, c);
    if s == [] {
      assert At(s, c, []) == [];
    } else {
      var last := |c| - 1;
      LineShrinks(s, c);
      LineRises(s, c);
      if c[last] < |s| - 1 {
        KeptIsLine(s[..|s| - 1], c);
        LineInRange(s[..|s| - 1], c);
        hide IsLine;
        KeptYields(s, c);
      } else {
        KeptIsLine(s[..|s| - 1], c[..last]);
        LineInRange(s[..|s| - 1], c[..last]);
        NextOnLine(s, c, last);
        hide IsLine;
        KeptMoves(s, c);
      }
    }
  }

  lemma {:induction false} LineInRange(s: seq<Finding>, c: seq<nat>)
    requires IsLine(s, c)
    ensures InRange(s, c) && (s == [] ==> c == [])
  {
  }

  lemma {:induction false} KeptYields(s: seq<Finding>, c: seq<nat>)
    requires s != [] && c != [] && InRange(s[..|s| - 1], c) && InRange(s, c)
    requires Kept(s[..|s| - 1]) == At(s[..|s| - 1], c, Places(s[..|s| - 1], c))
    requires Yields(s[|s| - 1], s[c[|c| - 1]])
    ensures Kept(s) == At(s, c, Places(s, c))
  {
    hide Kept, Places, Yields, Keep;
    var n := |s| - 1;
    PlacesPrefix(s, s[..n], c);
    AtPrefix(s, s[..n], c, Places(s, c));
    assert s == s[..n] + [s[n]];
    KeptSnoc(s[..n], s[n]);
    YieldsKeeps(s[n], Kept(s[..n]));
  }

  lemma {:induction false} KeptMoves(s: seq<Finding>, c: seq<nat>)
    requires s != [] && c != [] && InRange(s, c) && c[|c| - 1] == |s| - 1
    requires InRange(s[..|s| - 1], c[..|c| - 1])
    requires Kept(s[..|s| - 1]) == At(s[..|s| - 1], c[..|c| - 1], Places(s[..|s| - 1], c[..|c| - 1]))
    requires |c| > 1 ==> !Yields(s[|s| - 1], s[c[|c| - 2]])
    ensures Kept(s) == At(s, c, Places(s, c))
  {
    hide Kept, Places, Yields, Keep;
    var n, front := |s| - 1, c[..|c| - 1];
    PlacesPrefix(s, s[..n], front);
    AtPrefix(s, s[..n], front, Places(s, front));
    assert s == s[..n] + [s[n]];
    KeptSnoc(s[..n], s[n]);
    MovesKeep(s, c, Kept(s[..n]));
  }

  lemma {:induction false} AtPrefix(s: seq<Finding>, s': seq<Finding>, c: seq<nat>, places: seq<nat>)
    requires s' <= s && InRange(s', c) && InRange(s, c) && forall k :: 0 <= k < |places| ==> places[k] < |c|
    ensures At(s', c, places) == At(s, c, places)
  {
  }

  lemma {:induction false} PlacesPrefix(s: seq<Finding>, s': seq<Finding>, c: seq<nat>)
    requires s' <= s && InRange(s', c)
    ensures Places(s', c) == Places(s, c)
  {
    if c != [] {
      PlacesPrefix(s, s', c[..|c| - 1]);
    }
  }

  lemma {:induction false} YieldsKeeps(f: Finding, kept: seq<Finding>)
    requires kept != [] && Yields(f, kept[|kept| - 1])
    ensures Keep(kept, f) == kept
  {
  }

  lemma {:induction false} NextOnLine(s: seq<Finding>, c: seq<nat>, t: nat)
    requires IsLine(s, c) && t < |c|
    ensures t > 0 ==> !Yields(s[c[t]], s[c[t - 1]])
  {
  }

  lemma {:induction false} AtMore(s: seq<Finding>, c: seq<nat>, places: seq<nat>)
    requires c != [] && InRange(s, c) && forall k :: 0 <= k < |places| ==> places[k] < |c| - 1
    ensures InRange(s, c[..|c| - 1])
    ensures At(s, c[..|c| - 1], places) + [s[c[|c| - 1]]] == At(s, c, places + [|c| - 1])
  {
  }

  lemma {:induction false} AtTake(s: seq<Finding>, c: seq<nat>, places: seq<nat>)
    requires InRange(s, c) && places != [] && forall k :: 0 <= k < |places| ==> places[k] < |c|
    ensures At(s, c, places)[..|places| - 1] == At(s, c, places[..|places| - 1])
  {
  }

  lemma {:induction false} KeepMoves(kept: seq<Finding>, f: Finding)
    requires kept != [] ==> !Yields(f, kept[|kept| - 1])
    ensures kept == [] || f.start >= kept[|kept| - 1].End() ==> Keep(kept, f) == kept + [f]
    ensures kept != [] && f.start < kept[|kept| - 1].End() ==> Keep(kept, f) == kept[..|kept| - 1] + [f]
  {
  }

  lemma {:induction false} MovesKeep(s: seq<Finding>, c: seq<nat>, kept: seq<Finding>)
    requires c != [] && InRange(s, c) && (|c| > 1 ==> !Yields(s[c[|c| - 1]], s[c[|c| - 2]]))
    requires kept == At(s, c[..|c| - 1], Places(s, c[..|c| - 1]))
    ensures Keep(kept, s[c[|c| - 1]]) == At(s, c, Places(s, c))
  {
    hide Places, Keep, Yields, At;
    var last, f := |c| - 1, s[c[|c| - 1]];
    var front := Places(s, c[..last]);
    PlacesLast(s, c);
    KeepMoves(kept, f);
    if last > 0 && f.start < s[c[last - 1]].End() {
      AtTake(s, c[..last], front);
      AtMore(s, c, front[..|front| - 1]);
    } else {
      AtMore(s, c, front);
    }
  }

  // ---------- each match and the one it gave way to ----------

  // Who holds the last place when match m has been dealt with.
  lemma {:induction false} Ruler(s: seq<Finding>, c: seq<nat>, m: nat) returns (t: nat)
    requires IsLine(s, c) && m < |s|
    ensures Rules(s, c, t, m)
  {
    hide Yields;
    LineRises(s, c);
    t := 0;
    while t + 1 < |c| && c[t + 1] <= m
      invariant t < |c| && c[t] <= m
      decreases |c| - t
    {
      t := t + 1;
    }
  }

  // From position a the place passes on, from one to the next that takes over, up to position b.
  predicate PassesOn(s: seq<Finding>, c: seq<nat>, a: nat, b: nat)
    requires InRange(s, c)
  {
    a <= b < |c| && forall t :: a < t <= b ==> TakesOver(s[c[t]], s[c[t - 1]])
  }

  lemma {:induction false} PlaceEnd(s: seq<Finding>, c: seq<nat>, a: nat) returns (e: nat)
    requires IsLine(s, c) && a < |c|
    ensures PassesOn(s, c, a, e) && Stays(s, c, e)
  {
    e := a;
    while !Stays(s, c, e)
      invariant PassesOn(s, c, a, e)
      decreases |c| - e
    {
      NextOnLine(s, c, e + 1);
      e := e + 1;
    }
  }

  // A match that rules or yields overlaps the ruler, and is no more confident.
  lemma {:induction false} RulerOverlaps(s: seq<Finding>, c: seq<nat>, t: nat, m: nat)
    requires Ordered(s) && NonEmpty(s) && IsLine(s, c) && Rules(s, c, t, m)
    ensures Overlap(s[m], s[c[t]]) && s[m].confidence <= s[c[t]].confidence && s[c[t]].start <= s[m].start
  {
    assert m != c[t] ==> Yields(s[m], s[c[t]]);
  }

  // Each step leads to an overlapping match at least as confident.
  ghost predicate GivesWay(chain: seq<Finding>) {
    forall t :: 0 < t < |chain| ==>
      Overlap(chain[t - 1], chain[t]) && chain[t - 1].confidence <= chain[t].confidence
  }

  lemma {:induction false} StayIsKept(s: seq<Finding>, c: seq<nat>, t: nat) returns (k: nat)
    requires IsLine(s, c) && Stays(s, c, t)
    ensures k < |Kept(s)| && Kept(s)[k] == s[c[t]]
  {
    KeptIsLine(s, c);
    PlacesStay(s, c, t);
    k :| 0 <= k < |Places(s, c)| && Places(s, c)[k] == t;
  }

  lemma {:induction false} KeptIsStay(s: seq<Finding>, c: seq<nat>, k: nat) returns (t: nat)
    requires IsLine(s, c) && k < |Kept(s)|
    ensures Stays(s, c, t) && Kept(s)[k] == s[c[t]]
  {
    KeptIsLine(s, c);
    t := Places(s, c)[k];
    PlacesStay(s, c, t);
  }

  // The successive rulers of a place.
  lemma {:induction false} Succession(s: seq<Finding>, c: seq<nat>, a: nat, b: nat) returns (chain: seq<Finding>)
    requires Ordered(s) && NonEmpty(s) && IsLine(s, c) && PassesOn(s, c, a, b)
    ensures GivesWay(chain) && chain != [] && chain[0] == s[c[a]] && chain[|chain| - 1] == s[c[b]]
    decreases b - a
  {
    if a == b {
      chain := [s[c[a]]];
    } else {
      var rest := Succession(s, c, a + 1, b);
      chain := [s[c[a]]] + rest;
      assert TakesOver(s[c[a + 1]], s[c[a]]);
      assert c[a] < c[a + 1];
      hide IsLine, PassesOn;
      assert forall t :: 0 < t < |rest| ==> chain[t] == rest[t - 1];
    }
  }

  // Every match is kept or gave way, possibly in several steps, each time to an overlapping match at
  // least as confident, until one that is kept.
  lemma {:induction false} MatchGivesWay(s: seq<Finding>, m: nat) returns (chain: seq<Finding>)
    requires Ordered(s) && NonEmpty(s) && m < |s|
    ensures GivesWay(chain) && chain != [] && chain[0] == s[m] && chain[|chain| - 1] in Kept(s)
  {
    var c := LineOf(s);
    LineExists(s);
    hide LineOf;
    var t := Ruler(s, c, m);
    RulerOverlaps(s, c, t, m);
    var e := PlaceEnd(s, c, t);
    var rest := Succession(s, c, t, e);
    var k := StayIsKept(s, c, e);
    hide Kept, IsLine;
    chain := [s[m]] + rest;
    assert chain[|chain| - 1] == rest[|rest| - 1];
  }

  lemma {:induction false} GivesWayRises(chain: seq<Finding>, t: nat)
    requires GivesWay(chain) && t < |chain|
    ensures chain[0].confidence <= chain[t].confidence
  {
    if t > 0 {
      GivesWayRises(chain, t - 1);
    }
  }

  lemma {:induction false} ConfidenceKept(s: seq<Finding>, i: nat)
    requires Ordered(s) && NonEmpty(s) && i < |s|
    ensures exists k :: 0 <= k < |Kept(s)| && Kept(s)[k].confidence >= s[i].confidence
  {
    var chain := MatchGivesWay(s, i);
    GivesWayRises(chain, |chain| - 1);
    hide Kept;
    var k :| 0 <= k < |Kept(s)| && Kept(s)[k] == chain[|chain| - 1];
  }

  // ---------- which matches are lost ----------

  predicate Covered(f: Finding, kept: seq<Finding>) {
    exists k :: 0 <= k < |kept| && Overlap(f, kept[k])
  }

  // Match m is dealt with under ruler a, whose place passes on to a match that starts only where m
  // has ended.
  predicate Strands(s: seq<Finding>, c: seq<nat>, m: nat, a: nat, b: nat)
    requires InRange(s, c) && m < |s|
  {
    a < |c| && c[a] <= m < ReignEnd(s, c, a) && PassesOn(s, c, a, b) && s[m].End() <= s[c[b]].start
  }

  ghost predicate Stranded(s: seq<Finding>, c: seq<nat>, m: nat)
    requires InRange(s, c) && m < |s|
  {
    exists a: nat, b: nat :: Strands(s, c, m, a, b)
  }

  // A match overlaps something kept exactly when it is not stranded.
  lemma {:induction false} CoveredExactly(s: seq<Finding>, c: seq<nat>, m: nat)
    requires Ordered(s) && NonEmpty(s) && IsLine(s, c) && m < |s|
    ensures Covered(s[m], Kept(s)) <==> !Stranded(s, c, m)
  {
    if Stranded(s, c, m) {
      var a: nat, b: nat :| Strands(s, c, m, a, b);
      forall k | 0 <= k < |Kept(s)| ensures !Overlap(s[m], Kept(s)[k]) {
        var t := KeptIsStay(s, c, k);
        StrandedMisses(s, c, m, a, b, t);
      }
    } else {
      var a := Ruler(s, c, m);
      var b := PlaceEnd(s, c, a);
      var k := StayIsKept(s, c, b);
      assert !Strands(s, c, m, a, b);
      hide Kept;
      NotStrandedMeets(s, c, m, a, b);
    }
  }

  lemma {:induction false} StrandedMisses(s: seq<Finding>, c: seq<nat>, m: nat, a: nat, b: nat, t: nat)
    requires Ordered(s) && NonEmpty(s) && IsLine(s, c) && m < |s| && Strands(s, c, m, a, b) && Stays(s, c, t)
    ensures !Overlap(s[m], s[c[t]])
  {
    hide Stays, PassesOn, TakesOver;
    LineRises(s, c);
    PassedOn(s, c, a, b, t);
    if t < a {
      StaysOpens(s, c, t);
      assert c[t + 1] <= c[a] <= m;
      StartsInOrder(s, c[t + 1], m);
    } else {
      StartsInOrder(s, c[b], c[t]);
    }
  }

  lemma {:induction false} PassedOn(s: seq<Finding>, c: seq<nat>, a: nat, b: nat, t: nat)
    requires InRange(s, c) && PassesOn(s, c, a, b) && Stays(s, c, t)
    ensures b < |c| && t < |c| && (t < a || t >= b)
  {
    hide TakesOver, PassesOn, Stays;
    PassBounds(s, c, a, b, t);
    if a <= t < b {
      PassStep(s, c, a, b, t + 1);
      NoLongerStays(s, c, t);
    }
  }

  lemma {:induction false} PassBounds(s: seq<Finding>, c: seq<nat>, a: nat, b: nat, t: nat)
    requires InRange(s, c) && PassesOn(s, c, a, b) && Stays(s, c, t)
    ensures b < |c| && t < |c|
  {
  }

  lemma {:induction false} PassStep(s: seq<Finding>, c: seq<nat>, a: nat, b: nat, u: nat)
    requires InRange(s, c) && PassesOn(s, c, a, b) && a < u <= b
    ensures u < |c| && TakesOver(s[c[u]], s[c[u - 1]])
  {
  }

  lemma {:induction false} NoLongerStays(s: seq<Finding>, c: seq<nat>, t: nat)
    requires InRange(s, c) && t + 1 < |c| && TakesOver(s[c[t + 1]], s[c[t]])
    ensures !Stays(s, c, t)
  {
  }

  lemma {:induction false} StaysOpens(s: seq<Finding>, c: seq<nat>, t: nat)
    requires InRange(s, c) && Stays(s, c, t) && t + 1 < |c|
    ensures s[c[t + 1]].start >= s[c[t]].End()
  {
  }

  lemma {:induction false} StartsInOrder(s: seq<Finding>, i: nat, j: nat)
    requires Ordered(s) && i <= j < |s|
    ensures s[i].start <= s[j].start
  {
  }

  lemma {:induction false} NotStrandedMeets(s: seq<Finding>, c: seq<nat>, m: nat, a: nat, b: nat)
    requires Ordered(s) && NonEmpty(s) && IsLine(s, c) && m < |s|
    requires Rules(s, c, a, m) && PassesOn(s, c, a, b) && !Strands(s, c, m, a, b)
    ensures Overlap(s[m], s[c[b]])
  {
    RulerOverlaps(s, c, a, m);
    LineRises(s, c);
    if a < b {
      StartsInOrder(s, m, c[b]);
    }
  }

  // ---------- the same, step by step ----------

  // Of the matches that share the place of the last kept finding: `reach` is the smallest end, and
  // `clean` says that no replacement has ever started at or beyond it.
  datatype Trace = Trace(reach: nat, clean: bool)

  function Fold(s: seq<Finding>): Trace {
    if s == [] then Trace(0, true)
    else
      var f, t, kept := s[|s| - 1], Fold(s[..|s| - 1]), Kept(s[..|s| - 1]);
      if kept == [] || f.start >= kept[|kept| - 1].End() then Trace(f.End(), t.clean)
      else
        Trace(if f.End() < t.reach then f.End() else t.reach,
              t.clean && (Beats(f, kept[|kept| - 1]) ==> f.start < t.reach))
  }

  // What is kept, split in the findings that can no longer change and the last one.
  datatype Split = Split(front: seq<Finding>, last: Finding)

  // f overlaps a settled finding, or the last one for as long as that starts before `reach`.
  predicate Safe(f: Finding, k: Split, reach: nat) {
    Covered(f, k.front) || (Overlap(f, k.last) && f.End() >= reach)
  }

  // f ends before the last finding starts and overlaps none of the others.
  predicate Lost(f: Finding, k: Split) {
    f.End() <= k.last.start && !Covered(f, k.front)
  }

  // f shares the last place and sets `reach`.
  predicate Shortest(f: Finding, k: Split, reach: nat) {
    f.End() == reach && !Covered(f, k.front)
  }

  ghost predicate Account(s: seq<Finding>, k: Split, t: Trace) {
    && (t.clean ==> forall i :: 0 <= i < |s| ==> Safe(s[i], k, t.reach))
    && (!t.clean ==> exists i :: 0 <= i < |s| && Lost(s[i], k))
    && exists i :: 0 <= i < |s| && Shortest(s[i], k, t.reach)
  }

  // The settled findings end before f starts.
  ghost predicate Beyond(f: Finding, front: seq<Finding>) {
    forall j :: 0 <= j < |front| ==> front[j].End() <= f.start
  }

  lemma {:induction false} CoveredMore(f: Finding, front: seq<Finding>, last: Finding)
    ensures Covered(f, front + [last]) <==> Covered(f, front) || Overlap(f, last)
  {
    if Covered(f, front) {
      var k :| 0 <= k < |front| && Overlap(f, front[k]);
      assert Overlap(f, (front + [last])[k]);
    }
    if Overlap(f, last) {
      assert Overlap(f, (front + [last])[|front|]);
    }
  }

  // f opens a place of its own.
  lemma {:induction false} AccountOpens(s: seq<Finding>, k: Split, t: Trace, f: Finding)
    requires Account(s, k, t) && Before(s, f) && Beyond(f, k.front) && k.last.End() <= f.start
    ensures Account(s + [f], Split(k.front + [k.last], f), Trace(f.End(), t.clean))
  {
    var s', k' := s + [f], Split(k.front + [k.last], f);
    forall g ensures Covered(g, k'.front) <==> Covered(g, k.front) || Overlap(g, k.last) {
      CoveredMore(g, k.front, k.last);
    }
    assert s'[|s|] == f && Shortest(f, k', f.End());
    if !t.clean {
      var i :| 0 <= i < |s| && Lost(s[i], k);
      assert s'[i] == s[i] && Lost(s'[i], k');
    }
  }

  // f shares the last place: it replaces the last finding or is dropped.
  lemma {:induction false} AccountFolds(s: seq<Finding>, k: Split, t: Trace, f: Finding, beats: bool)
    requires Account(s, k, t) && Before(s, f) && Beyond(f, k.front) && k.last.start <= f.start < k.last.End()
    ensures Account(s + [f], if beats then k.(last := f) else k,
                    Trace(if f.End() < t.reach then f.End() else t.reach, t.clean && (beats ==> f.start < t.reach)))
  {
    var s', k' := s + [f], if beats then k.(last := f) else k;
    var reach := if f.End() < t.reach then f.End() else t.reach;
    var i :| 0 <= i < |s| && Shortest(s[i], k, t.reach);
    hide Covered, Overlap, Beyond;
    assert s'[i] == s[i] && s'[|s|] == f;
    BeyondUncovered(f, k.front);
    assert exists j :: 0 <= j < |s'| && Shortest(s'[j], k', reach) by {
      assert Shortest(s'[if f.End() < t.reach then |s| else i], k', reach);
    }
    if t.clean && (beats ==> f.start < t.reach) {
      FoldsSafe(s, k, t.reach, f, beats);
      hide Safe, Lost, Shortest;
    } else {
      assert exists j :: 0 <= j < |s'| && Lost(s'[j], k') by {
        if !t.clean {
          var j :| 0 <= j < |s| && Lost(s[j], k);
          assert s'[j] == s[j] && Lost(s'[j], k');
        } else {
          assert Lost(s'[i], k');
        }
      }
      hide Safe, Lost, Shortest;
    }
  }

  lemma {:induction false} FoldsSafe(s: seq<Finding>, k: Split, reach: nat, f: Finding, beats: bool)
    requires forall i :: 0 <= i < |s| ==> Safe(s[i], k, reach)
    requires Before(s, f) && k.last.start <= f.start < k.last.End() && (beats ==> f.start < reach)
    ensures forall i :: 0 <= i < |s + [f]| ==>
              Safe((s + [f])[i], if beats then k.(last := f) else k, if f.End() < reach then f.End() else reach)
  {
    hide Covered;
    forall i | 0 <= i < |s + [f]|
      ensures Safe((s + [f])[i], if beats then k.(last := f) else k, if f.End() < reach then f.End() else reach)
    {
      if i < |s| {
        assert (s + [f])[i] == s[i] && Safe(s[i], k, reach);
      }
    }
  }

  lemma {:induction false} BeyondUncovered(f: Finding, front: seq<Finding>)
    requires Beyond(f, front)
    ensures !Covered(f, front)
  {
  }

  function SplitOf(kept: seq<Finding>): Split
    requires kept != []
  {
    Split(kept[..|kept| - 1], kept[|kept| - 1])
  }

  lemma {:induction false} FoldAccounts(s: seq<Finding>)
    requires Ordered(s) && NonEmpty(s) && s != []
    ensures Kept(s) != [] && Account(s, SplitOf(Kept(s)), Fold(s))
  {
    var front, f := s[..|s| - 1], s[|s| - 1];
    assert s == front + [f];
    if front == [] {
      assert Kept(front) == [] && Kept(s) == [f];
      assert Shortest(s[0], SplitOf(Kept(s)), Fold(s).reach);
    } else {
      PrefixOrdered(s);
      assert Before(front, f);
      hide Ordered, NonEmpty, Before, Kept, Fold, Account, Tidy;
      FoldAccounts(front);
      KeptTidy(front);
      FoldStep(front, f, Kept(front), Fold(front));
    }
  }

  lemma {:induction false} TidyBeyond(s: seq<Finding>, kept: seq<Finding>, f: Finding)
    requires Tidy(s, kept) && Before(s, f) && s != []
    ensures kept != [] && Beyond(f, SplitOf(kept).front) && SplitOf(kept).last.start <= f.start
  {
    assert s[|s| - 1].start <= f.start;
  }

  lemma {:induction false} FoldSnoc(s: seq<Finding>, f: Finding)
    requires Kept(s) != []
    ensures var last, t := SplitOf(Kept(s)).last, Fold(s);
            Fold(s + [f]) == if f.start >= last.End() then Trace(f.End(), t.clean)
                             else Trace(if f.End() < t.reach then f.End() else t.reach,
                                        t.clean && (Beats(f, last) ==> f.start < t.reach))
  {
    assert (s + [f])[..|s|] == s;
  }

  lemma {:induction false} FoldStep(s: seq<Finding>, f: Finding, kept: seq<Finding>, t: Trace)
    requires s != [] && kept == Kept(s) && kept != [] && t == Fold(s) && Account(s, SplitOf(kept), t)
    requires Tidy(s, kept) && Before(s, f)
    ensures Kept(s + [f]) != [] && Account(s + [f], SplitOf(Kept(s + [f])), Fold(s + [f]))
  {
    hide Account, Kept, Fold, Tidy, Before, Beyond, Beats;
    var k := SplitOf(kept);
    TidyBeyond(s, kept, f);
    KeptSnoc(s, f);
    FoldSnoc(s, f);
    if f.start >= k.last.End() {
      AccountOpens(s, k, t, f);
      assert SplitOf(kept + [f]) == Split(k.front + [k.last], f);
    } else {
      AccountFolds(s, k, t, f, Beats(f, k.last));
      assert SplitOf(kept[|kept| - 1 := f]) == k.(last := f);
    }
  }

  // Run along with the pass: every match overlaps something kept exactly when no replacement ever
  // started at or beyond the end of a match that shared its place.
  lemma {:induction false} LosslessExactly(s: seq<Finding>)
    requires Ordered(s) && NonEmpty(s)
    ensures (forall i :: 0 <= i < |s| ==> Covered(s[i], Kept(s))) <==> Fold(s).clean
  {
    if s != [] {
      FoldAccounts(s);
      var k := SplitOf(Kept(s));
      assert Kept(s) == k.front + [k.last];
      forall g ensures Covered(g, Kept(s)) <==> Covered(g, k.front) || Overlap(g, k.last) {
        CoveredMore(g, k.front, k.last);
      }
      hide Covered, Kept, Fold;
    }
  }

  // It is not always so. In 123-45-6789 1234 2000@example.com the social security number, an Aadhaar
  // number and the address each overlap the next and are each longer than the one before. Only the
  // address is kept, and the social security number overlaps nothing kept.
  lemma {:induction false} FirstOfThreeLost()
    ensures var ssn, aadhaar := Finding("us_ssn", 0, 11, 70), Finding("indian_aadhaar", 7, 14, 70);
            var email := Finding("email", 17, 16, 70);
            Scan([email, ssn, aadhaar]).findings == [email] && !Covered(ssn, [email])
  {
    hide Kept, Sort;
    var ssn, aadhaar := Finding("us_ssn", 0, 11, 70), Finding("indian_aadhaar", 7, 14, 70);
    var email := Finding("email", 17, 16, 70);
    SortedThree(ssn, aadhaar, email);
    KeptThree(ssn, aadhaar, email);
  }

  lemma {:induction false} KeptThree(a: Finding, b: Finding, c: Finding)
    requires b.start < a.End() && Beats(b, a) && c.start < b.End() && Beats(c, b)
    ensures Kept([a, b, c]) == [c]
  {
    hide Kept, Beats;
    assert Keep([a], b) == [b] && Keep([b], c) == [c];
    assert [] + [a] == [a] && [a] + [b] == [a, b] && [a, b] + [c] == [a, b, c];
    KeptSnoc([], a);
    KeptSnoc([a], b);
    KeptSnoc([a, b], c);
    KeptNone();
  }

  lemma {:induction false} SortedThree(a: Finding, b: Finding, c: Finding)
    requires a.start < b.start < c.start
    ensures Sort(StartsFirst, [c, a, b]) == [a, b, c]
  {
    hide Sort;
    SortStrict(StartsFirst, [a, b, c], [c, a, b]);
  }

  // ---------- the scan as a whole ----------

  lemma {:induction false} HighIsKept(matches: seq<Finding>)
    requires NonEmpty(matches) && SomeHigh(matches)
    ensures SomeHigh(Kept(Sort(StartsFirst, matches)))
  {
    hide Kept, Sort;
    var s := Sort(StartsFirst, matches);
    SortedMatches(matches);
    var i :| 0 <= i < |matches| && IsHigh(matches[i]);
    assert matches[i] in s;
    var j :| 0 <= j < |s| && s[j] == matches[i];
    ConfidenceKept(s, j);
  }

  lemma {:induction false} SortedMatches(matches: seq<Finding>)
    requires NonEmpty(matches)
    ensures var s := Sort(StartsFirst, matches);
            Ordered(s) && NonEmpty(s) && |s| == |matches| && forall f :: f in s <==> f in matches
  {
    var s := Sort(StartsFirst, matches);
    SortSorted(StartsFirst, matches);
    forall f ensures f in s <==> f in matches {
      assert f in multiset(s) <==> f in multiset(matches);
    }
    forall i | 0 <= i < |s| ensures s[i].size > 0 {
      assert s[i] in matches;
    }
  }

  // Of the sorted matches, with the line of those that ever hold the last place: every match overlaps
  // something kept exactly when none is stranded.
  lemma {:induction false} ScanLossless(matches: seq<Finding>, c: seq<nat>)
    requires NonEmpty(matches) && IsLine(Sort(StartsFirst, matches), c)
    ensures var s := Sort(StartsFirst, matches);
            && ((forall f :: f in matches ==> Covered(f, Scan(matches).findings))
                <==> (forall m: nat :: m < |s| ==> !Stranded(s, c, m)))
  {
    var s, kept := Sort(StartsFirst, matches), Scan(matches).findings;
    SortedMatches(matches);
    hide Kept, Covered, Sort, Stranded, Ordered, NonEmpty;
    forall m: nat | m < |s| ensures Covered(s[m], kept) <==> !Stranded(s, c, m) {
      CoveredExactly(s, c, m);
    }
    AllCovered(matches, s, kept);
  }

  lemma {:induction false} AllCovered(matches: seq<Finding>, s: seq<Finding>, kept: seq<Finding>)
    requires forall f :: f in s <==> f in matches
    ensures (forall f :: f in matches ==> Covered(f, kept)) <==> (forall m: nat :: m < |s| ==> Covered(s[m], kept))
  {
    hide Covered;
    if forall m: nat :: m < |s| ==> Covered(s[m], kept) {
      forall f | f in matches ensures Covered(f, kept) {
        var m :| 0 <= m < |s| && s[m] == f;
      }
    }
  }

  // The findings are matches in order of start, pairwise disjoint; there are `count` of them, which
  // is also the sum of the categories; none is reported only if nothing matched; and a confident
  // finding is reported exactly when there was a confident match.
  lemma {:induction false} ScanMeaning(matches: seq<Finding>, keys: seq<Category>)
    requires NonEmpty(matches)
    requires NoRepeats(keys) && forall c :: c in Scan(matches).categories ==> c in keys
    ensures var r := Scan(matches);
            && Disjoint(r.findings)
            && (forall f :: f in r.findings ==> f in matches)
            && r.count == |r.findings| == Sum(r.categories, keys)
            && (r.count == 0 <==> matches == [])
            && (r.hasHighConfidence <==> exists i :: 0 <= i < |matches| && matches[i].confidence >= 90)
  {
    var s := Sort(StartsFirst, matches);
    SortedMatches(matches);
    KeptTidy(s);
    TallySums(Kept(s), keys);
    if SomeHigh(matches) {
      HighIsKept(matches);
    }
    hide Kept, Sort, Tally;
  }
}
