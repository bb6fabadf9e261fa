// reconstructWorkflow of src/workflow-graph.ts: Kahn's algorithm with a (chain_height, id)
// tie-break, and what its order means.
module WorkflowGraph {
  import opened Wrappers
  import opened Sorting
  import opened Unicode

  // Heights are integers.
  datatype Receipt = Receipt(id: string, height: int, parents: seq<string>, workflow: Option<string>, tenant: string)

  // One receipt of a run with those recorded parents that are in the run, repeats included.
  datatype Node = Node(height: int, present: seq<string>)

  type Graph = map<string, Node>

  datatype Replay = Replay(order: seq<string>, roots: seq<string>, leaves: seq<string>, missing: set<string>,
                           acyclic: bool)

  // ---------- the graph of a run ----------

  predicate DistinctIds(run: seq<Receipt>) {
    forall i, j :: 0 <= i < j < |run| ==> run[i].id != run[j].id
  }

  function Ids(run: seq<Receipt>): set<string> {
    set r | r in run :: r.id
  }

  function PresentIn(ids: set<string>, parents: seq<string>): (r: seq<string>)
    ensures forall p :: p in r <==> p in parents && p in ids
  {
    if parents == [] then []
    else (if parents[0] in ids then [parents[0]] else []) + PresentIn(ids, parents[1..])
  }

  lemma {:induction false} IdsSnoc(run: seq<Receipt>, r: Receipt)
    ensures Ids(run + [r]) == Ids(run) + {r.id}
  {
    assert forall q :: q in run + [r] <==> q in run || q == r;
  }

  function NodeOf(ids: set<string>, r: Receipt): Node {
    Node(r.height, PresentIn(ids, r.parents))
  }

  // byId: the last receipt with a given id.
  function ReceiptOf(run: seq<Receipt>, id: string): (r: Receipt)
    requires id in Ids(run)
    ensures r in run && r.id == id
  {
    var last := run[|run| - 1];
    if last.id == id then last
    else
      IdsSnoc(run[..|run| - 1], last);
      ReceiptOf(run[..|run| - 1], id)
  }

  function GraphOf(run: seq<Receipt>): (g: Graph)
    ensures g.Keys == Ids(run)
  {
    map id | id in Ids(run) :: NodeOf(Ids(run), ReceiptOf(run, id))
  }

  // Receipts with one id agree in what the graph keeps of them.
  ghost predicate OneNodeEach(run: seq<Receipt>) {
    forall r, s :: r in run && s in run && r.id == s.id ==> NodeOf(Ids(run), r) == NodeOf(Ids(run), s)
  }

  lemma {:induction false} SameElements(a: seq<Receipt>, b: seq<Receipt>)
    requires multiset(a) == multiset(b)
    ensures (forall r :: r in a <==> r in b) && Ids(a) == Ids(b)
  {
    forall r ensures r in a <==> r in b {
      assert r in a <==> r in multiset(a);
      assert r in b <==> r in multiset(b);
    }
  }

  // The list with one receipt moved to the end.
  lemma {:induction false} MovedLast(a: seq<Receipt>, r: Receipt) returns (b: seq<Receipt>)
    requires r in a
    ensures multiset(b) == multiset(a) && b != [] && b[|b| - 1] == r
  {
    var i :| 0 <= i < |a| && a[i] == r;
    b := a[..i] + a[i + 1..] + [r];
    assert a == a[..i] + [r] + a[i + 1..];
  }

  lemma {:induction false} LastInGraph(run: seq<Receipt>)
    requires run != []
    ensures var r := run[|run| - 1]; r.id in GraphOf(run) && GraphOf(run)[r.id] == NodeOf(Ids(run), r)
  {
    assert run[|run| - 1] in run;
  }

  // The graph is the same for every order of the list exactly when receipts with one id agree,
  // as they do when ids are distinct.
  lemma {:induction false} GraphOrderFree(a: seq<Receipt>)
    ensures (forall b :: multiset(b) == multiset(a) ==> GraphOf(b) == GraphOf(a)) <==> OneNodeEach(a)
    ensures DistinctIds(a) ==> OneNodeEach(a)
  {
    if DistinctIds(a) {
      DistinctNodes(a);
    }
    if OneNodeEach(a) {
      forall b | multiset(b) == multiset(a) ensures GraphOf(b) == GraphOf(a) {
        SameGraph(a, b);
      }
    }
    if forall b :: multiset(b) == multiset(a) ==> GraphOf(b) == GraphOf(a) {
      forall r, s | r in a && s in a && r.id == s.id ensures NodeOf(Ids(a), r) == NodeOf(Ids(a), s) {
        LastDecides(a, r);
        LastDecides(a, s);
      }
    }
  }

  lemma {:induction false} SameGraph(a: seq<Receipt>, b: seq<Receipt>)
    requires OneNodeEach(a) && multiset(b) == multiset(a)
    ensures GraphOf(b) == GraphOf(a)
  {
    SameElements(a, b);
    forall id | id in Ids(a) ensures NodeOf(Ids(a), ReceiptOf(b, id)) == NodeOf(Ids(a), ReceiptOf(a, id)) {
      hide NodeOf;
    }
  }

  lemma {:induction false} LastDecides(a: seq<Receipt>, r: Receipt)
    requires r in a && forall b :: multiset(b) == multiset(a) ==> GraphOf(b) == GraphOf(a)
    ensures r.id in GraphOf(a) && GraphOf(a)[r.id] == NodeOf(Ids(a), r)
  {
    var b := MovedLast(a, r);
    SameElements(a, b);
    LastInGraph(b);
  }

  lemma {:induction false} DistinctNodes(run: seq<Receipt>)
    requires DistinctIds(run)
    ensures OneNodeEach(run)
  {
    forall r, s | r in run && s in run && r.id == s.id ensures r == s {
      var i :| 0 <= i < |run| && run[i] == r;
      var j :| 0 <= j < |run| && run[j] == s;
    }
  }

  // Two receipts with one id and different heights: the one listed last counts.
  lemma {:induction false} LastOfTwoCounts(a: Receipt, b: Receipt)
    requires a.id == b.id
    ensures multiset([a, b]) == multiset([b, a])
    ensures GraphOf([a, b])[a.id].height == b.height && GraphOf([b, a])[a.id].height == a.height
  {
    LastInGraph([a, b]);
    LastInGraph([b, a]);
  }

  ghost predicate Closed(g: Graph) {
    forall id, p :: id in g && p in g[id].present ==> p in g
  }

  // ---------- replay orders ----------

  predicate NodeLe(g: Graph, a: string, b: string)
    requires a in g && b in g
  {
    g[a].height < g[b].height || (g[a].height == g[b].height && KeyLe(a, b))
  }

  // `cmp` of the code, total on all strings.
  predicate IdLe(g: Graph, a: string, b: string) {
    if a in g && b in g then NodeLe(g, a, b) else (b !in g && (a in g || KeyLe(a, b)))
  }

  ghost predicate Ready(g: Graph, done: seq<string>, id: string) {
    id in g && id !in done && NoRepeats(g[id].present) && forall p :: p in g[id].present ==> p in done
  }

  // Each step is the least one that is ready when it is taken.
  ghost predicate IsGreedy(g: Graph, order: seq<string>) {
    forall n :: 0 <= n < |order| ==> IsLeastReady(g, order[..n], order[n])
  }

  ghost predicate IsLeastReady(g: Graph, done: seq<string>, id: string) {
    Ready(g, done, id) && forall q :: Ready(g, done, q) ==> IdLe(g, id, q)
  }

  // A greedy order that cannot be extended.
  ghost predicate IsReplay(g: Graph, order: seq<string>) {
    IsGreedy(g, order) && forall q :: !Ready(g, order, q)
  }

  lemma {:induction false} IdOrderTotal(g: Graph)
    ensures TotalPreorder((a: string, b: string) => IdLe(g, a, b))
    ensures forall a, b :: IdLe(g, a, b) && IdLe(g, b, a) ==> a == b
  {
    KeyOrderTotal();
    var le := (a: string, b: string) => KeyLe(a, b);
    forall a, b ensures IdLe(g, a, b) || IdLe(g, b, a) {
      assert le(a, b) || le(b, a);
    }
    forall a, b, c | IdLe(g, a, b) && IdLe(g, b, c) ensures IdLe(g, a, c) {
      assert le(a, b) && le(b, c) ==> le(a, c);
    }
  }

  // The order of the replay written out: by height, and at one height by the UTF-16 code units of the
  // ids, a proper prefix first and else the smaller unit at the first difference.
  lemma {:induction false} IdOrderMeans(g: Graph, a: string, b: string)
    requires a in g && b in g && a != b
    ensures var u, w := Utf16(a), Utf16(b);
      IdLe(g, a, b) <==>
        || g[a].height < g[b].height
        || (g[a].height == g[b].height
            && ((|u| < |w| && forall j :: 0 <= j < |u| ==> u[j] == w[j])
                || exists k :: 0 <= k < |u| && k < |w| && u[k] < w[k] && forall j :: 0 <= j < k ==> u[j] == w[j]))
  {
    KeyOrderMeans(a, b);
    hide KeyLe, Utf16;
  }

  lemma {:induction false} LeastUnique(g: Graph, done: seq<string>, a: string, b: string)
    requires IsLeastReady(g, done, a) && IsLeastReady(g, done, b)
    ensures a == b
  {
    IdOrderTotal(g);
  }

  lemma {:induction false} LeastIsReady(g: Graph, done: seq<string>, id: string)
    requires IsLeastReady(g, done, id)
    ensures Ready(g, done, id)
  {
  }

  // A greedy order has no step beyond one at which nothing is ready.
  lemma {:induction false} StopsThere(g: Graph, a: seq<string>, n: nat)
    requires IsGreedy(g, a) && n <= |a| && forall q :: !Ready(g, a[..n], q)
    ensures n == |a|
  {
    hide IsLeastReady;
    if n < |a| {
      LeastIsReady(g, a[..n], a[n]);
    }
  }

  // There is exactly one replay order.
  lemma {:induction false} ReplayUnique(g: Graph, a: seq<string>, b: seq<string>)
    requires IsReplay(g, a) && IsReplay(g, b)
    ensures a == b
  {
    hide Ready, IsLeastReady;
    var n := 0;
    while n < |a| && n < |b|
      invariant n <= |a| && n <= |b| && a[..n] == b[..n]
    {
      LeastUnique(g, a[..n], a[n], b[n]);
      n := n + 1;
    }
    assert n == |a| ==> a[..n] == a;
    assert n == |b| ==> b[..n] == b;
    if n == |b| {
      StopsThere(g, a, n);
    } else {
      StopsThere(g, b, n);
    }
  }

  // Every parent in the order comes before its child.
  lemma {:induction false} ParentsFirst(g: Graph, order: seq<string>, n: nat, p: string)
    requires IsGreedy(g, order) && n < |order| && order[n] in g && p in g[order[n]].present
    ensures exists m :: 0 <= m < n && order[m] == p
  {
    assert IsLeastReady(g, order[..n], order[n]);
    assert p in order[..n];
  }

  // ---------- counting what is left ----------

  lemma {:induction false} DistinctCount(s: seq<string>)
    ensures |set x | x in s| <= |s|
    ensures |set x | x in s| == |s| <==> NoRepeats(s)
  {
    if s != [] {
      var front, last := s[..|s| - 1], s[|s| - 1];
      DistinctCount(front);
      assert s == front + [last];
      var a, b := (set x | x in s), set x | x in front;
      assert a == b + {last};
      if last in front {
        var i :| 0 <= i < |front| && front[i] == last;
        assert s[i] == s[|s| - 1];
        assert a == b;
      } else {
        assert NoRepeats(s) <==> NoRepeats(front);
      }
    }
  }

  // The counter that the code keeps for a node: one per recorded present parent, less one for
  // each distinct parent already done.
  ghost function Left(present: seq<string>, done: seq<string>): int {
    |present| - |set p | p in present && p in done|
  }

  lemma {:induction false} LeftZero(present: seq<string>, done: seq<string>)
    ensures Left(present, done) >= 0
    ensures Left(present, done) == 0 <==> NoRepeats(present) && forall p :: p in present ==> p in done
  {
    DistinctCount(present);
    var all, met := (set p | p in present), set p | p in present && p in done;
    assert met <= all && (met == all <==> forall p :: p in present ==> p in done) by {
      assert forall p :: p in present <==> p in all;
    }
    SubsetCount(met, all);
  }

  lemma {:induction false} SubsetCount(a: set<string>, b: set<string>)
    requires a <= b
    ensures |a| <= |b| && (|a| == |b| <==> a == b)
  {
    assert b == a + (b - a);
  }

  // ---------- cycles ----------

  ghost predicate Edge(g: Graph, child: string, parent: string) {
    child in g && parent in g[child].present
  }

  // A closed walk along parent edges.
  ghost predicate IsCycle(g: Graph, c: seq<string>) {
    && c != []
    && (forall i :: 0 < i < |c| ==> Edge(g, c[i - 1], c[i]))
    && Edge(g, c[|c| - 1], c[0])
  }

  ghost predicate HasCycle(g: Graph) {
    exists c :: IsCycle(g, c)
  }

  lemma {:induction false} GreedyNoRepeats(g: Graph, order: seq<string>)
    requires IsGreedy(g, order)
    ensures NoRepeats(order) && forall id :: id in order ==> id in g && NoRepeats(g[id].present)
  {
    forall i, j | 0 <= i < j < |order| ensures order[i] != order[j] {
      assert IsLeastReady(g, order[..j], order[j]);
      assert order[i] in order[..j];
    }
    forall id | id in order ensures id in g && NoRepeats(g[id].present) {
      var n :| 0 <= n < |order| && order[n] == id;
      assert IsLeastReady(g, order[..n], id);
    }
  }

  ghost predicate ParentsEarlier(g: Graph, order: seq<string>) {
    forall n, p :: 0 <= n < |order| && Edge(g, order[n], p) ==> p in order[..n]
  }

  // Going along a walk from a step of the order leads to strictly earlier steps.
  lemma {:induction false} WalkGoesBack(g: Graph, order: seq<string>, c: seq<string>, k: nat, n: nat) returns (m: nat)
    requires ParentsEarlier(g, order) && k < |c| && (forall i :: 0 < i < |c| ==> Edge(g, c[i - 1], c[i]))
    requires n < |order| && order[n] == c[0]
    ensures m < |order| && order[m] == c[k] && m <= n - k
    decreases k
  {
    if k == 0 {
      m := n;
    } else {
      var q := WalkGoesBack(g, order, c, k - 1, n);
      assert Edge(g, c[k - 1], c[k]);
      m :| 0 <= m < q && order[..q][m] == c[k];
    }
  }

  // So a cycle through a step of the order would descend forever.
  lemma {:induction false} CycleDescends(g: Graph, order: seq<string>, c: seq<string>, n: nat)
    requires ParentsEarlier(g, order) && IsCycle(g, c) && n < |order| && order[n] == c[0]
    ensures false
    decreases n
  {
    var m := WalkGoesBack(g, order, c, |c| - 1, n);
    assert Edge(g, order[m], c[0]);
    var k :| 0 <= k < m && order[..m][k] == c[0];
    CycleDescends(g, order, c, k);
  }

  lemma {:induction false} GreedyParentsEarlier(g: Graph, order: seq<string>)
    requires IsGreedy(g, order)
    ensures ParentsEarlier(g, order)
  {
    forall n, p | 0 <= n < |order| && Edge(g, order[n], p) ensures p in order[..n] {
      assert IsLeastReady(g, order[..n], order[n]);
    }
  }

  lemma {:induction false} OrderedHasNoCycle(g: Graph, order: seq<string>)
    requires IsGreedy(g, order) && Closed(g) && forall id :: id in g ==> id in order
    ensures !HasCycle(g)
  {
    GreedyParentsEarlier(g, order);
    forall c ensures !IsCycle(g, c) {
      if IsCycle(g, c) {
        assert Edge(g, c[|c| - 1], c[0]);
        var n :| 0 <= n < |order| && order[n] == c[0];
        CycleDescends(g, order, c, n);
      }
    }
  }

  ghost predicate HasParentIn(g: Graph, stuck: set<string>, q: string) {
    exists p :: p in stuck && Edge(g, q, p)
  }

  lemma {:induction false} ParentIn(g: Graph, stuck: set<string>, q: string) returns (p: string)
    requires HasParentIn(g, stuck, q)
    ensures p in stuck && Edge(g, q, p)
  {
    p :| p in stuck && Edge(g, q, p);
  }

  // A walk of any length among nodes that each have a parent among them.
  lemma {:induction false} WalkWithin(g: Graph, stuck: set<string>, id: string, n: nat) returns (walk: seq<string>)
    requires id in stuck && forall q :: q in stuck ==> HasParentIn(g, stuck, q)
    ensures |walk| == n + 1 && walk[0] == id && (forall i :: 0 <= i < |walk| ==> walk[i] in stuck)
    ensures forall i :: 0 < i < |walk| ==> Edge(g, walk[i - 1], walk[i])
    decreases n
  {
    hide Edge, HasParentIn;
    if n == 0 {
      walk := [id];
    } else {
      var p := ParentIn(g, stuck, id);
      var rest := WalkWithin(g, stuck, p, n - 1);
      walk := [id] + rest;
    }
  }

  lemma {:induction false} WalkCycle(g: Graph, walk: seq<string>, i: nat, j: nat)
    requires i < j < |walk| && walk[i] == walk[j]
    requires forall k :: 0 < k < |walk| ==> Edge(g, walk[k - 1], walk[k])
    ensures IsCycle(g, walk[i..j])
  {
    hide Edge;
    var c := walk[i..j];
    forall k | 0 < k < |c| ensures Edge(g, c[k - 1], c[k]) {
      assert c[k] == walk[i + k];
    }
    assert Edge(g, walk[j - 1], walk[j]);
  }

  lemma {:induction false} StuckHasCycle(g: Graph, stuck: set<string>)
    requires stuck != {} && forall q :: q in stuck ==> HasParentIn(g, stuck, q)
    ensures HasCycle(g)
  {
    hide Edge, IsCycle, HasParentIn;
    var id :| id in stuck;
    var walk := WalkWithin(g, stuck, id, |stuck|);
    DistinctCount(walk);
    SubsetCount((set x | x in walk), stuck);
    assert !NoRepeats(walk);
    var i, j :| 0 <= i < j < |walk| && walk[i] == walk[j];
    WalkCycle(g, walk, i, j);
  }

  // The order covers the run exactly when the parent relation has no cycle and no receipt
  // records a present parent twice.
  lemma {:induction false} CoversIffAcyclic(g: Graph, order: seq<string>)
    requires IsReplay(g, order) && Closed(g)
    ensures |order| == |g| <==> !HasCycle(g) && forall id :: id in g ==> NoRepeats(g[id].present)
  {
    GreedyNoRepeats(g, order);
    DistinctCount(order);
    var done := set x | x in order;
    SubsetCount(done, g.Keys);
    if |order| == |g| {
      assert forall id :: id in g ==> id in done;
      OrderedHasNoCycle(g, order);
    } else if forall id :: id in g ==> NoRepeats(g[id].present) {
      var stuck := g.Keys - done;
      assert g.Keys * done == done && |g.Keys - done| + |g.Keys * done| == |g.Keys|;
      forall q | q in stuck ensures HasParentIn(g, stuck, q) {
        assert !Ready(g, order, q);
        var p :| p in g[q].present && p !in order;
        assert p in stuck && Edge(g, q, p);
      }
      StuckHasCycle(g, stuck);
    }
  }

  // The second condition is needed: a parent recorded twice is counted twice but released once,
  // so its child is never replayed and an acyclic run is reported as cyclic.
  lemma {:induction false} RepeatedParentLooksCyclic()
    ensures var g := map["a" := Node(1, []), "b" := Node(2, ["a", "a"])];
      Closed(g) && !HasCycle(g) && IsReplay(g, ["a"]) && |["a"]| < |g|
  {
    var g := map["a" := Node(1, []), "b" := Node(2, ["a", "a"])];
    assert g.Keys == {"a", "b"} && |g| == |g.Keys|;
    var twice := ["a", "a"];
    assert twice[0] == twice[1] && !NoRepeats(twice);
    assert ["a"][..0] == [];
    assert IsLeastReady(g, [], "a");
    forall c ensures !IsCycle(g, c) {
      if c != [] && Edge(g, c[|c| - 1], c[0]) {
        assert c[0] == "a" && c[|c| - 1] == "b";
        assert !Edge(g, c[0], c[1]);
      }
    }
  }

  // ---------- what the loop does on any run ----------

  // How often the distinct ones of these parents have been taken.
  ghost function Arrivals(present: seq<string>, taken: multiset<string>): nat {
    if present == [] then 0
    else
      var front, last := present[..|present| - 1], present[|present| - 1];
      Arrivals(front, taken) + if last in front then 0 else taken[last]
  }

  // The counter of q: one per recorded present parent, less one for every receipt with this id each
  // time a parent is taken. `ids` holds the ids of the run, repeats included.
  ghost function Counter(g: Graph, ids: multiset<string>, taken: multiset<string>, q: string): int
    requires q in g
  {
    |g[q].present| - ids[q] * Arrivals(g[q].present, taken)
  }

  // How often q enters the ready list: a root once per receipt, any other id once its counter is 0.
  ghost function Quota(g: Graph, ids: multiset<string>, q: string, counter: int): nat
    requires q in g
  {
    if g[q].present == [] then ids[q] else if counter <= 0 then 1 else 0
  }

  ghost predicate Waits(g: Graph, ids: multiset<string>, taken: multiset<string>, q: string) {
    q in g && taken[q] < Quota(g, ids, q, Counter(g, ids, taken, q))
  }

  ghost predicate IsNext(g: Graph, ids: multiset<string>, taken: multiset<string>, id: string) {
    Waits(g, ids, taken, id) && forall q :: Waits(g, ids, taken, q) ==> IdLe(g, id, q)
  }

  // Each step is the least one that waits when it is taken.
  ghost predicate IsTrace(g: Graph, ids: multiset<string>, order: seq<string>) {
    forall n :: 0 <= n < |order| ==> IsNext(g, ids, multiset(order[..n]), order[n])
  }

  ghost predicate IsWholeTrace(g: Graph, ids: multiset<string>, order: seq<string>) {
    IsTrace(g, ids, order) && forall q :: !Waits(g, ids, multiset(order), q)
  }

  // The ids of the nodes, each at least once.
  ghost predicate AreIdsOf(g: Graph, ids: multiset<string>) {
    forall q :: q in ids <==> q in g
  }

  lemma {:induction false} ArrivalsNone(present: seq<string>)
    ensures Arrivals(present, multiset{}) == 0
  {
    if present != [] {
      ArrivalsNone(present[..|present| - 1]);
    }
  }

  lemma {:induction false} ArrivalsNext(present: seq<string>, taken: multiset<string>, id: string)
    ensures Arrivals(present, taken + multiset{id}) == Arrivals(present, taken) + if id in present then 1 else 0
  {
    if present != [] {
      var front, last := present[..|present| - 1], present[|present| - 1];
      ArrivalsNext(front, taken, id);
      assert id in present <==> id in front || id == last;
    }
  }

  lemma {:induction false} ArrivalsGrow(present: seq<string>, a: multiset<string>, b: multiset<string>)
    requires forall p :: p in present ==> a[p] <= b[p]
    ensures Arrivals(present, a) <= Arrivals(present, b)
  {
    if present != [] {
      ArrivalsGrow(present[..|present| - 1], a, b);
    }
  }

  lemma {:induction false} TimesGrow(n: nat, x: nat, y: nat)
    requires x <= y
    ensures n * x <= n * y
    ensures n >= 1 ==> x <= n * x
  {
  }

  lemma {:induction false} QuotaGrows(g: Graph, ids: multiset<string>, a: multiset<string>, b: multiset<string>,
                                      q: string)
    requires q in g && forall p :: a[p] <= b[p]
    ensures Quota(g, ids, q, Counter(g, ids, a, q)) <= Quota(g, ids, q, Counter(g, ids, b, q))
  {
    ArrivalsGrow(g[q].present, a, b);
    TimesGrow(ids[q], Arrivals(g[q].present, a), Arrivals(g[q].present, b));
  }

  lemma {:induction false} TraceFront(g: Graph, ids: multiset<string>, order: seq<string>)
    requires IsTrace(g, ids, order) && order != []
    ensures var n := |order| - 1;
            && IsTrace(g, ids, order[..n]) && IsNext(g, ids, multiset(order[..n]), order[n])
            && multiset(order) == multiset(order[..n]) + multiset{order[n]}
  {
    hide IsNext;
    var n := |order| - 1;
    assert order == order[..n] + [order[n]];
    forall m | 0 <= m < n ensures IsNext(g, ids, multiset(order[..n][..m]), order[..n][m]) {
      assert order[..n][..m] == order[..m];
    }
  }

  // No id is taken more often than its quota.
  lemma {:induction false} TraceBounded(g: Graph, ids: multiset<string>, order: seq<string>, q: string)
    requires IsTrace(g, ids, order)
    ensures q !in g ==> multiset(order)[q] == 0
    ensures q in g ==> multiset(order)[q] <= Quota(g, ids, q, Counter(g, ids, multiset(order), q))
  {
    hide Quota, Counter;
    if order != [] {
      var front := order[..|order| - 1];
      TraceFront(g, ids, order);
      TraceBounded(g, ids, front, q);
      if q in g {
        QuotaGrows(g, ids, multiset(front), multiset(order), q);
      }
    }
  }

  lemma {:induction false} NextUnique(g: Graph, ids: multiset<string>, taken: multiset<string>, a: string, b: string)
    requires IsNext(g, ids, taken, a) && IsNext(g, ids, taken, b)
    ensures a == b
  {
    IdOrderTotal(g);
  }

  lemma {:induction false} TraceStops(g: Graph, ids: multiset<string>, a: seq<string>, n: nat)
    requires IsTrace(g, ids, a) && n <= |a| && forall q :: !Waits(g, ids, multiset(a[..n]), q)
    ensures n == |a|
  {
    hide Waits;
    assert n < |a| ==> IsNext(g, ids, multiset(a[..n]), a[n]);
  }

  // The graph and the ids of the run determine the order.
  lemma {:induction false} TraceUnique(g: Graph, ids: multiset<string>, a: seq<string>, b: seq<string>)
    requires IsWholeTrace(g, ids, a) && IsWholeTrace(g, ids, b)
    ensures a == b
  {
    hide Waits, IsNext;
    var n := 0;
    while n < |a| && n < |b|
      invariant n <= |a| && n <= |b| && a[..n] == b[..n]
    {
      NextUnique(g, ids, multiset(a[..n]), a[n], b[n]);
      n := n + 1;
    }
    assert n == |a| ==> a[..n] == a;
    assert n == |b| ==> b[..n] == b;
    if n == |b| {
      TraceStops(g, ids, a, n);
    } else {
      TraceStops(g, ids, b, n);
    }
  }

  // ---------- distinct ids ----------

  lemma {:induction false} ArrivalsMet(present: seq<string>, order: seq<string>)
    requires NoRepeats(order)
    ensures Arrivals(present, multiset(order)) == |set p | p in present && p in order|
  {
    if present == [] {
      assert (set p | p in present && p in order) == {};
    } else {
      var front, last := present[..|present| - 1], present[|present| - 1];
      ArrivalsMet(front, order);
      OnceInOrder(order, last);
      hide NoRepeats;
      MetNext(front, last, order);
      assert present == front + [last];
    }
  }

  lemma {:induction false} MetNext(front: seq<string>, last: string, order: seq<string>)
    ensures |set p | p in front + [last] && p in order|
         == |set p | p in front && p in order| + if last in order && last !in front then 1 else 0
  {
    var before, after := (set p | p in front && p in order), set p | p in front + [last] && p in order;
    assert after == before + if last in order then {last} else {};
  }

  lemma {:induction false} OnceInOrder(order: seq<string>, x: string)
    requires NoRepeats(order)
    ensures multiset(order)[x] == if x in order then 1 else 0
  {
    if order != [] {
      var front, last := order[..|order| - 1], order[|order| - 1];
      assert order == front + [last];
      OnceInOrder(front, x);
    }
  }

  lemma {:induction false} WaitsIsReady(g: Graph, ids: multiset<string>, order: seq<string>, q: string)
    requires NoRepeats(order) && (q in g ==> ids[q] == 1)
    ensures Waits(g, ids, multiset(order), q) <==> Ready(g, order, q)
  {
    if q in g {
      OnceInOrder(order, q);
      ArrivalsMet(g[q].present, order);
      LeftZero(g[q].present, order);
      hide NoRepeats;
      assert Counter(g, ids, multiset(order), q) == Left(g[q].present, order);
      NothingLeft(g[q].present, order);
    }
  }

  lemma {:induction false} NothingLeft(present: seq<string>, done: seq<string>)
    ensures present == [] ==> Left(present, done) == 0
  {
    LeftZero(present, done);
  }

  lemma {:induction false} TraceNoRepeats(g: Graph, ids: multiset<string>, order: seq<string>)
    requires IsTrace(g, ids, order) && forall q :: q in g ==> ids[q] == 1
    ensures NoRepeats(order)
  {
    forall i, j | 0 <= i < j < |order| ensures order[i] != order[j] {
      assert IsNext(g, ids, multiset(order[..j]), order[j]);
      assert order[i] in order[..j];
      assert order[i] in multiset(order[..j]);
    }
  }

  // With distinct ids a step waits exactly when all its parents are done and none is recorded twice.
  lemma {:induction false} TraceIsReplay(g: Graph, ids: multiset<string>, order: seq<string>)
    requires IsWholeTrace(g, ids, order) && forall q :: q in g ==> ids[q] == 1
    ensures IsReplay(g, order)
  {
    TraceNoRepeats(g, ids, order);
    forall n, q | 0 <= n <= |order| ensures Waits(g, ids, multiset(order[..n]), q) <==> Ready(g, order[..n], q) {
      WaitsIsReady(g, ids, order[..n], q);
    }
    hide Waits, Ready, NoRepeats;
    forall n | 0 <= n < |order| ensures IsLeastReady(g, order[..n], order[n]) {
      assert IsNext(g, ids, multiset(order[..n]), order[n]);
    }
    assert order[..|order|] == order;
  }

  // ---------- when the whole run is replayed ----------

  ghost predicate Later(g: Graph, q: string) {
    q in g && g[q].present != []
  }

  // The ids of the roots, as often as the run has them.
  ghost predicate AreRoots(g: Graph, ids: multiset<string>, roots: multiset<string>) {
    forall q :: roots[q] == if q in g && g[q].present == [] then ids[q] else 0
  }

  ghost predicate OnceEach(g: Graph, ids: multiset<string>) {
    forall q :: Later(g, q) ==> ids[q] == 1
  }

  // `later` lists the ids with a present parent so that for each the parents among the roots,
  // counted as often as they occur, and the ids before it are as many as it records.
  ghost predicate Unblocks(g: Graph, roots: multiset<string>, later: seq<string>) {
    NoRepeats(later) && (forall q :: q in later <==> Later(g, q)) && AllUnblocked(g, roots, later)
  }

  ghost predicate AllUnblocked(g: Graph, roots: multiset<string>, later: seq<string>) {
    forall n :: 0 <= n < |later| ==> Unblocked(g, roots, later[..n], later[n])
  }

  ghost predicate Unblocked(g: Graph, roots: multiset<string>, before: seq<string>, q: string) {
    q in g && |g[q].present| <= Arrivals(g[q].present, roots + multiset(before))
  }

  lemma {:induction false} WholeQuota(g: Graph, ids: multiset<string>, order: seq<string>, q: string)
    requires IsWholeTrace(g, ids, order)
    ensures multiset(order)[q] == if q in g then Quota(g, ids, q, Counter(g, ids, multiset(order), q)) else 0
  {
    hide Quota, Counter;
    TraceBounded(g, ids, order, q);
    assert !Waits(g, ids, multiset(order), q);
  }

  lemma {:induction false} SizesDecide<T>(a: multiset<T>, b: multiset<T>)
    requires forall x :: a[x] <= b[x]
    ensures |a| == |b| <==> a == b
  {
    var rest := b - a;
    assert b == a + rest;
    assert rest == multiset{} || exists x :: x in rest;
  }

  lemma {:induction false} OnceIsNoRepeats(s: seq<string>)
    requires forall x :: multiset(s)[x] <= 1
    ensures NoRepeats(s)
  {
    forall i, j | 0 <= i < j < |s| ensures s[i] != s[j] {
      assert s == s[..j] + [s[j]] + s[j + 1..];
      assert s[..j][i] == s[i] && s[i] in s[..j];
      assert s[i] in multiset(s[..j]);
      assert s[i] == s[j] ==> multiset(s)[s[j]] >= 2;
    }
  }

  // The steps that are not roots.
  ghost function LaterOf(g: Graph, order: seq<string>): (later: seq<string>)
    ensures forall q :: multiset(later)[q] == if Later(g, q) then multiset(order)[q] else 0
  {
    if order == [] then []
    else
      var front, last := order[..|order| - 1], order[|order| - 1];
      assert order == front + [last];
      LaterOf(g, front) + if Later(g, last) then [last] else []
  }

  lemma {:induction false} TakenByThen(g: Graph, ids: multiset<string>, roots: multiset<string>, order: seq<string>,
                                       p: string)
    requires IsTrace(g, ids, order) && AreRoots(g, ids, roots)
    ensures multiset(order)[p] <= (roots + multiset(LaterOf(g, order)))[p]
  {
    hide Counter;
    TraceBounded(g, ids, order, p);
  }

  lemma {:induction false} StepUnblocked(g: Graph, ids: multiset<string>, roots: multiset<string>, order: seq<string>,
                                         q: string)
    requires IsTrace(g, ids, order) && AreRoots(g, ids, roots) && OnceEach(g, ids)
    requires Later(g, q) && Waits(g, ids, multiset(order), q)
    ensures Unblocked(g, roots, LaterOf(g, order), q)
  {
    hide IsTrace, AreRoots, LaterOf;
    forall p ensures multiset(order)[p] <= (roots + multiset(LaterOf(g, order)))[p] {
      TakenByThen(g, ids, roots, order, p);
    }
    ArrivalsGrow(g[q].present, multiset(order), roots + multiset(LaterOf(g, order)));
  }

  lemma {:induction false} UnblockedSnoc(g: Graph, roots: multiset<string>, before: seq<string>, q: string)
    requires AllUnblocked(g, roots, before) && Unblocked(g, roots, before, q)
    ensures AllUnblocked(g, roots, before + [q])
  {
    hide Unblocked;
    var later := before + [q];
    forall n | 0 <= n < |later| ensures Unblocked(g, roots, later[..n], later[n]) {
      assert later[..n] == if n < |before| then before[..n] else before;
    }
  }

  lemma {:induction false} LaterNext(g: Graph, order: seq<string>)
    requires order != []
    ensures LaterOf(g, order) == LaterOf(g, order[..|order| - 1])
                               + if Later(g, order[|order| - 1]) then [order[|order| - 1]] else []
  {
  }

  lemma {:induction false} TraceUnblocks(g: Graph, ids: multiset<string>, roots: multiset<string>, order: seq<string>)
    requires IsTrace(g, ids, order) && AreRoots(g, ids, roots) && OnceEach(g, ids)
    ensures AllUnblocked(g, roots, LaterOf(g, order))
  {
    if order == [] {
      assert LaterOf(g, order) == [];
    } else {
      hide *;
      var front, id := order[..|order| - 1], order[|order| - 1];
      TraceFront(g, ids, order);
      TraceUnblocks(g, ids, roots, front);
      LaterNext(g, order);
      if Later(g, id) {
        NextWaits(g, ids, multiset(front), id);
        StepUnblocked(g, ids, roots, front, id);
        UnblockedSnoc(g, roots, LaterOf(g, front), id);
      } else {
        NoMore(LaterOf(g, front));
      }
    }
  }

  lemma {:induction false} NoMore<T>(s: seq<T>)
    ensures s + [] == s
  {
  }

  lemma {:induction false} NextWaits(g: Graph, ids: multiset<string>, taken: multiset<string>, id: string)
    requires IsNext(g, ids, taken, id)
    ensures Waits(g, ids, taken, id)
  {
  }

  lemma {:induction false} AllTaken(g: Graph, ids: multiset<string>, roots: multiset<string>, order: seq<string>,
                                    later: seq<string>, n: nat)
    requires IsWholeTrace(g, ids, order) && AreIdsOf(g, ids) && AreRoots(g, ids, roots)
    requires Unblocks(g, roots, later) && n <= |later|
    ensures forall i :: 0 <= i < n ==> later[i] in order
    decreases n
  {
    hide IsWholeTrace, Arrivals;
    if n > 0 {
      AllTaken(g, ids, roots, order, later, n - 1);
      var q, before := later[n - 1], later[..n - 1];
      assert Unblocked(g, roots, before, q);
      forall p ensures (roots + multiset(before))[p] <= multiset(order)[p] {
        AlreadyTaken(g, ids, roots, order, before, p);
      }
      ArrivalsGrow(g[q].present, roots + multiset(before), multiset(order));
      TimesGrow(ids[q], 0, Arrivals(g[q].present, multiset(order)));
      WholeQuota(g, ids, order, q);
      assert q in multiset(order);
    }
  }

  lemma {:induction false} AlreadyTaken(g: Graph, ids: multiset<string>, roots: multiset<string>, order: seq<string>,
                                        before: seq<string>, p: string)
    requires IsWholeTrace(g, ids, order) && AreRoots(g, ids, roots) && NoRepeats(before)
    requires forall q :: q in before ==> q in order && Later(g, q)
    ensures (roots + multiset(before))[p] <= multiset(order)[p]
  {
    hide IsWholeTrace, Counter;
    WholeQuota(g, ids, order, p);
    OnceInOrder(before, p);
    assert p in order ==> p in multiset(order);
  }

  // Every receipt is replayed exactly when each id with a present parent occurs once and these ids
  // can be listed so that none is blocked.
  lemma {:induction false} CoversExactly(g: Graph, ids: multiset<string>, roots: multiset<string>, order: seq<string>)
    requires IsWholeTrace(g, ids, order) && AreIdsOf(g, ids) && AreRoots(g, ids, roots)
    ensures |order| == |ids| <==> OnceEach(g, ids) && exists later :: Unblocks(g, roots, later)
  {
    forall q ensures multiset(order)[q] <= ids[q] {
      hide Counter;
      WholeQuota(g, ids, order, q);
    }
    SizesDecide(multiset(order), ids);
    assert |multiset(order)| == |order|;
    hide IsTrace, Unblocked;
    if |order| == |ids| {
      CoveringUnblocks(g, ids, roots, order);
    }
    if OnceEach(g, ids) && exists later :: Unblocks(g, roots, later) {
      var later :| Unblocks(g, roots, later);
      UnblockedCovers(g, ids, roots, order, later);
    }
  }

  lemma {:induction false} CoveringUnblocks(g: Graph, ids: multiset<string>, roots: multiset<string>,
                                            order: seq<string>)
    requires IsWholeTrace(g, ids, order) && AreIdsOf(g, ids) && AreRoots(g, ids, roots) && multiset(order) == ids
    ensures OnceEach(g, ids) && Unblocks(g, roots, LaterOf(g, order))
  {
    CoveringOnce(g, ids, order);
    var later := LaterOf(g, order);
    hide LaterOf;
    forall q ensures multiset(later)[q] == if Later(g, q) then 1 else 0 {
    }
    TraceUnblocks(g, ids, roots, order);
    hide *;
    OnceIsNoRepeats(later);
    forall q ensures q in later <==> Later(g, q) {
      assert q in later <==> q in multiset(later);
    }
    UnblocksParts(g, roots, later);
  }

  lemma {:induction false} UnblocksParts(g: Graph, roots: multiset<string>, later: seq<string>)
    requires NoRepeats(later) && (forall q :: q in later <==> Later(g, q)) && AllUnblocked(g, roots, later)
    ensures Unblocks(g, roots, later)
  {
  }

  lemma {:induction false} CoveringOnce(g: Graph, ids: multiset<string>, order: seq<string>)
    requires IsWholeTrace(g, ids, order) && AreIdsOf(g, ids) && multiset(order) == ids
    ensures OnceEach(g, ids)
  {
    hide Counter, IsWholeTrace;
    forall q | Later(g, q) ensures ids[q] == 1 {
      WholeQuota(g, ids, order, q);
      assert q in ids;
    }
  }

  lemma {:induction false} UnblockedCovers(g: Graph, ids: multiset<string>, roots: multiset<string>, order: seq<string>,
                                           later: seq<string>)
    requires IsWholeTrace(g, ids, order) && AreIdsOf(g, ids) && AreRoots(g, ids, roots)
    requires OnceEach(g, ids) && Unblocks(g, roots, later)
    ensures multiset(order) == ids
  {
    AllTaken(g, ids, roots, order, later, |later|);
    hide IsWholeTrace, Counter, Unblocked;
    forall q ensures multiset(order)[q] == ids[q] {
      WholeQuota(g, ids, order, q);
      if Later(g, q) {
        assert q in later;
        var i :| 0 <= i < |later| && later[i] == q;
        assert q in multiset(order);
      } else {
        assert q !in g ==> q !in ids;
      }
    }
  }

  // As long as no root occurs twice, every receipt is replayed exactly when all ids are distinct,
  // there is no cycle, and no receipt records a present parent twice.
  lemma {:induction false} CoversTruly(g: Graph, ids: multiset<string>, roots: multiset<string>, order: seq<string>)
    requires IsWholeTrace(g, ids, order) && AreIdsOf(g, ids) && AreRoots(g, ids, roots) && Closed(g)
    requires forall q :: roots[q] <= 1
    ensures |order| == |ids|
       <==> (forall q :: q in g ==> ids[q] == 1) && !HasCycle(g) && forall q :: q in g ==> NoRepeats(g[q].present)
  {
    hide HasCycle, NoRepeats, IsWholeTrace, Unblocks, Closed;
    CoversExactly(g, ids, roots, order);
    if |order| == |ids| {
      forall q | q in g ensures ids[q] == 1 {
        assert q in ids;
      }
    }
    if forall q :: q in g ==> ids[q] == 1 {
      TraceIsReplay(g, ids, order);
      CoversIffAcyclic(g, order);
      assert ids == multiset(g.Keys);
    }
  }

  // ---------- the algorithm ----------

  // The nodes whose counter is above zero.
  ghost function Pending(indeg: map<string, int>): set<string> {
    set q | q in indeg && indeg[q] > 0
  }

  // The ready list is sorted and holds each id as often as it is still to be taken.
  ghost predicate ListOk(g: Graph, ids: multiset<string>, taken: multiset<string>, indeg: map<string, int>,
                         ready: seq<string>)
  {
    && indeg.Keys == g.Keys && Sorted((a, b) => IdLe(g, a, b), ready)
    && forall q :: multiset(ready)[q] + taken[q] == if q in g then Quota(g, ids, q, indeg[q]) else 0
  }

  // Between two turns of the outer loop every counter is what the ids taken so far have left.
  ghost predicate Counts(g: Graph, ids: multiset<string>, taken: multiset<string>, indeg: map<string, int>) {
    indeg.Keys == g.Keys && forall q :: q in g ==> indeg[q] == Counter(g, ids, taken, q)
  }

  lemma {:induction false} IdsSplit(run: seq<Receipt>, i: nat)
    requires i < |run|
    ensures run[i].id in Ids(run) && IdsOf(run[..i + 1]) == IdsOf(run[..i]) + [run[i].id]
    ensures IdsOf(run[..0]) == [] && run[..|run|] == run
  {
    assert run[i] in run;
  }

  lemma {:induction false} IdsOfRun(run: seq<Receipt>)
    ensures forall id :: id in IdsOf(run) <==> id in Ids(run)
    ensures run[..|run|] == run && IdsOf(run[..0]) == []
  {
    forall id ensures id in IdsOf(run) <==> id in Ids(run) {
      if id in Ids(run) {
        var r :| r in run && r.id == id;
        var i :| 0 <= i < |run| && run[i] == r;
        assert IdsOf(run)[i] == id;
      }
      if id in IdsOf(run) {
        var i :| 0 <= i < |run| && IdsOf(run)[i] == id;
        assert run[i] in run;
      }
    }
  }

  // The ready list before the loop, over the ids of the run up to here.
  ghost predicate RootsListed(g: Graph, ids: seq<string>, ready: seq<string>) {
    forall q :: multiset(ready)[q] == (if q in g && g[q].present == [] then multiset(ids)[q] else 0)
  }

  lemma {:induction false} RootsListedNext(g: Graph, ids: seq<string>, ready: seq<string>, id: string)
    requires RootsListed(g, ids, ready) && id in g
    ensures RootsListed(g, ids + [id], if |g[id].present| == 0 then ready + [id] else ready)
  {
  }

  method InitialReady(g: Graph, run: seq<Receipt>, indeg: map<string, int>) returns (ready: seq<string>)
    requires g.Keys == Ids(run) == indeg.Keys && forall id :: id in g ==> indeg[id] == |g[id].present|
    ensures ListOk(g, multiset(IdsOf(run)), multiset{}, indeg, ready)
  {
    ready := [];
    IdsOfRun(run);
    assert RootsListed(g, [], []);
    hide RootsListed, IdLe;
    for i := 0 to |run|
      invariant RootsListed(g, IdsOf(run[..i]), ready)
    {
      IdsSplit(run, i);
      RootsListedNext(g, IdsOf(run[..i]), ready, run[i].id);
      if indeg[run[i].id] == 0 {
        ready := ready + [run[i].id];
      }
    }
    var unsorted := ready;
    ready := SortIds(g, ready);
    InitialList(g, IdsOf(run), indeg, unsorted, ready);
  }

  lemma {:induction false} InitialList(g: Graph, ids: seq<string>, indeg: map<string, int>, unsorted: seq<string>,
                                       ready: seq<string>)
    requires RootsListed(g, ids, unsorted) && multiset(ready) == multiset(unsorted)
    requires Sorted((a, b) => IdLe(g, a, b), ready)
    requires indeg.Keys == g.Keys && forall id :: id in g ==> indeg[id] == |g[id].present|
    ensures ListOk(g, multiset(ids), multiset{}, indeg, ready)
  {
  }

  method SortIds(g: Graph, ids: seq<string>) returns (r: seq<string>)
    ensures multiset(r) == multiset(ids) && Sorted((a, b) => IdLe(g, a, b), r)
  {
    var le := (a, b) => IdLe(g, a, b);
    IdOrderTotal(g);
    SortSorted(le, ids);
    r := Sort(le, ids);
  }

  lemma {:induction false} PendingFalls(indeg: map<string, int>, d: string)
    requires d in indeg
    ensures var less := indeg[d := indeg[d] - 1];
            |Pending(less)| + (if less[d] == 0 then 1 else 0) <= |Pending(indeg)|
  {
    var before, after := Pending(indeg), Pending(indeg[d := indeg[d] - 1]);
    SubsetCount(after, before);
    if indeg[d] == 1 {
      SubsetCount(after + {d}, before);
    }
  }

  lemma {:induction false} SizeOf(s: seq<string>)
    ensures |multiset(s)| == |s|
  {
  }

  // The counters after one turn of the inner loop.
  function Decremented(g: Graph, indeg: map<string, int>, id: string, d: string): map<string, int>
    requires d in g && d in indeg
  {
    if id in g[d].present then indeg[d := indeg[d] - 1] else indeg
  }

  // One turn of the inner loop, for a receipt with id d: its counter goes down if `id` is a parent,
  // and at zero, not below, d becomes ready.
  method Visit(g: Graph, indeg: map<string, int>, ready: seq<string>, id: string, d: string,
               ghost ids: multiset<string>, ghost taken: multiset<string>)
    returns (indeg': map<string, int>, ready': seq<string>)
    requires d in g && ListOk(g, ids, taken, indeg, ready)
    ensures indeg' == Decremented(g, indeg, id, d) && ListOk(g, ids, taken, indeg', ready')
    ensures |ready'| + |Pending(indeg')| <= |ready| + |Pending(indeg)|
  {
    PendingFalls(indeg, d);
    hide Pending, IdLe;
    indeg', ready' := indeg, ready;
    if id in g[d].present {
      var n := indeg[d] - 1;
      indeg' := indeg[d := n];
      if n == 0 {
        ready' := SortIds(g, ready + [d]);
        SizeOf(ready');
        SizeOf(ready + [d]);
      }
    }
  }

  // Decrements the children of `id`, once for every receipt, and moves those that reach zero into
  // the ready list.
  method Release(g: Graph, run: seq<Receipt>, indeg: map<string, int>, ready: seq<string>, id: string,
                 ghost taken: multiset<string>)
    returns (indeg': map<string, int>, ready': seq<string>)
    requires g.Keys == Ids(run) && Counts(g, multiset(IdsOf(run)), taken, indeg)
    requires ListOk(g, multiset(IdsOf(run)), taken + multiset{id}, indeg, ready)
    ensures Counts(g, multiset(IdsOf(run)), taken + multiset{id}, indeg')
    ensures ListOk(g, multiset(IdsOf(run)), taken + multiset{id}, indeg', ready')
    ensures |ready'| + |Pending(indeg')| <= |ready| + |Pending(indeg)|
  {
    hide Counts, Counter, Arrivals, Quota, Pending, ListOk;
    indeg', ready' := indeg, ready;
    IdsOfRun(run);
    CountedNone(g, indeg, id);
    CountsKeys(g, multiset(IdsOf(run)), taken, indeg);
    for j := 0 to |run|
      invariant ListOk(g, multiset(IdsOf(run)), taken + multiset{id}, indeg', ready')
      invariant Counted(g, indeg, id, multiset(IdsOf(run[..j])), indeg')
      invariant |ready'| + |Pending(indeg')| <= |ready| + |Pending(indeg)|
    {
      IdsSplit(run, j);
      CountedNext(g, indeg, id, multiset(IdsOf(run[..j])), indeg', run[j].id);
      indeg', ready' := Visit(g, indeg', ready', id, run[j].id, multiset(IdsOf(run)), taken + multiset{id});
    }
    CountedAll(g, multiset(IdsOf(run)), taken, indeg, id, indeg');
  }

  // The counters once the receipts with these ids have been visited.
  ghost predicate Counted(g: Graph, before: map<string, int>, id: string, visited: multiset<string>,
                          indeg: map<string, int>) {
    && before.Keys == g.Keys == indeg.Keys
    && forall q :: q in g ==> indeg[q] == before[q] - if id in g[q].present then visited[q] else 0
  }

  lemma {:induction false} CountsKeys(g: Graph, ids: multiset<string>, taken: multiset<string>, indeg: map<string, int>)
    requires Counts(g, ids, taken, indeg)
    ensures indeg.Keys == g.Keys
  {
  }

  lemma {:induction false} CountedNone(g: Graph, indeg: map<string, int>, id: string)
    ensures indeg.Keys == g.Keys ==> Counted(g, indeg, id, multiset([]), indeg)
  {
  }

  lemma {:induction false} CountedNext(g: Graph, before: map<string, int>, id: string, visited: multiset<string>,
                                       indeg: map<string, int>, d: string)
    requires Counted(g, before, id, visited, indeg) && d in g
    ensures d in indeg && Counted(g, before, id, visited + multiset{d}, Decremented(g, indeg, id, d))
  {
  }

  lemma {:induction false} CountedAll(g: Graph, ids: multiset<string>, taken: multiset<string>,
                                      before: map<string, int>, id: string, indeg: map<string, int>)
    requires Counts(g, ids, taken, before) && Counted(g, before, id, ids, indeg)
    ensures Counts(g, ids, taken + multiset{id}, indeg)
  {
    forall q | q in g ensures indeg[q] == Counter(g, ids, taken + multiset{id}, q) {
      ArrivalsNext(g[q].present, taken, id);
      OneMore(ids[q], Arrivals(g[q].present, taken));
    }
  }

  lemma {:induction false} OneMore(n: nat, x: nat)
    ensures n * (x + 1) == n * x + n
  {
  }

  lemma {:induction false} WaitsInList(g: Graph, ids: multiset<string>, taken: multiset<string>,
                                       indeg: map<string, int>, ready: seq<string>, q: string)
    requires Counts(g, ids, taken, indeg) && ListOk(g, ids, taken, indeg, ready)
    ensures Waits(g, ids, taken, q) <==> q in ready
  {
    hide Counter, Quota, IdLe;
    assert q in ready <==> q in multiset(ready);
  }

  lemma {:induction false} ListWithoutFirst(g: Graph, ids: multiset<string>, taken: multiset<string>,
                                            indeg: map<string, int>, ready: seq<string>)
    requires ready != [] && ListOk(g, ids, taken, indeg, ready)
    ensures ListOk(g, ids, taken + multiset{ready[0]}, indeg, ready[1..])
  {
    hide Quota, IdLe;
    assert ready == [ready[0]] + ready[1..];
    assert multiset(ready) == multiset{ready[0]} + multiset(ready[1..]);
  }

  // The first of the ready list is the next step; without it the list is right for the turn.
  lemma {:induction false} TurnStarts(g: Graph, ids: multiset<string>, taken: multiset<string>, indeg: map<string, int>,
                                      ready: seq<string>)
    requires ready != [] && Counts(g, ids, taken, indeg) && ListOk(g, ids, taken, indeg, ready)
    ensures IsNext(g, ids, taken, ready[0])
    ensures ListOk(g, ids, taken + multiset{ready[0]}, indeg, ready[1..])
  {
    hide Waits, Quota, IdLe, Counts;
    ListWithoutFirst(g, ids, taken, indeg, ready);
    forall q ensures (Waits(g, ids, taken, q) <==> q in ready) && (q in ready ==> IdLe(g, ready[0], q)) {
      WaitsInList(g, ids, taken, indeg, ready, q);
      if q in ready {
        FirstIsLeast(g, ready, q);
      }
    }
  }

  lemma {:induction false} FirstIsLeast(g: Graph, ready: seq<string>, q: string)
    requires Sorted((a, b) => IdLe(g, a, b), ready) && q in ready
    ensures IdLe(g, ready[0], q)
  {
    IdOrderTotal(g);
    var k :| 0 <= k < |ready| && ready[k] == q;
    assert IdLe(g, q, q);
  }

  lemma {:induction false} TurnsOver(g: Graph, ids: multiset<string>, taken: multiset<string>,
                                     indeg: map<string, int>, q: string)
    requires Counts(g, ids, taken, indeg) && ListOk(g, ids, taken, indeg, [])
    ensures !Waits(g, ids, taken, q)
  {
    hide Counter, Quota;
  }

  lemma {:induction false} TraceNext(g: Graph, ids: multiset<string>, order: seq<string>, id: string)
    requires IsTrace(g, ids, order) && IsNext(g, ids, multiset(order), id)
    ensures IsTrace(g, ids, order + [id]) && multiset(order + [id]) == multiset(order) + multiset{id}
  {
    hide IsNext;
    var more := order + [id];
    forall n | 0 <= n < |more| ensures IsNext(g, ids, multiset(more[..n]), more[n]) {
      assert more[..n] == if n < |order| then order[..n] else order;
    }
  }

  lemma {:induction false} InitialCounts(g: Graph, ids: multiset<string>, indeg: map<string, int>)
    requires indeg.Keys == g.Keys && forall id :: id in g ==> indeg[id] == |g[id].present|
    ensures Counts(g, ids, multiset{}, indeg) && IsTrace(g, ids, [])
  {
    forall q | q in g ensures indeg[q] == Counter(g, ids, multiset{}, q) {
      ArrivalsNone(g[q].present);
    }
  }

  // Kahn's algorithm over the nodes of a run, with any repeats of ids.
  method KahnOrder(g: Graph, run: seq<Receipt>) returns (order: seq<string>)
    requires g.Keys == Ids(run)
    ensures IsWholeTrace(g, multiset(IdsOf(run)), order)
  {
    var indeg := map id | id in g :: |g[id].present|;
    ghost var ids := multiset(IdsOf(run));
    InitialCounts(g, ids, indeg);
    var ready := InitialReady(g, run, indeg);
    order := [];
    while ready != []
      invariant IsTrace(g, ids, order)
      invariant Counts(g, ids, multiset(order), indeg) && ListOk(g, ids, multiset(order), indeg, ready)
      decreases |ready| + |Pending(indeg)|
    {
      hide *;
      var id := ready[0];
      TurnStarts(g, ids, multiset(order), indeg, ready);
      TraceNext(g, ids, order, id);
      indeg, ready := Release(g, run, indeg, ready[1..], id, multiset(order));
      order := order + [id];
    }
    forall q ensures !Waits(g, ids, multiset(order), q) {
      TurnsOver(g, ids, multiset(order), indeg, q);
    }
  }

  // ---------- reconstructWorkflow ----------

  predicate Belongs(r: Receipt, workflow: Option<string>, tenant: Option<string>) {
    r.workflow == workflow && (tenant.None? || Some(r.tenant) == tenant)
  }

  function InRun(receipts: seq<Receipt>, workflow: Option<string>, tenant: Option<string>): seq<Receipt> {
    if receipts == [] then []
    else
      (if Belongs(receipts[0], workflow, tenant) then [receipts[0]] else [])
      + InRun(receipts[1..], workflow, tenant)
  }

  // The workflow of the first receipt, unless one is given.
  function TargetWorkflow(receipts: seq<Receipt>, workflowId: Option<string>): Option<string> {
    if workflowId.Some? then workflowId else if receipts == [] then None else receipts[0].workflow
  }

  // The tenant of the first receipt of the workflow, unless one is given.
  function TargetTenant(receipts: seq<Receipt>, workflow: Option<string>, tenantId: Option<string>): Option<string> {
    if tenantId.Some? then tenantId
    else if receipts == [] then None
    else if receipts[0].workflow == workflow then Some(receipts[0].tenant)
    else TargetTenant(receipts[1..], workflow, tenantId)
  }

  function RunOf(receipts: seq<Receipt>, workflowId: Option<string>, tenantId: Option<string>): seq<Receipt> {
    var workflow := TargetWorkflow(receipts, workflowId);
    InRun(receipts, workflow, TargetTenant(receipts, workflow, tenantId))
  }

  // Receipt f is the first one of the workflow.
  predicate IsFirstOf(receipts: seq<Receipt>, workflow: Option<string>, f: nat) {
    && f < |receipts| && receipts[f].workflow == workflow
    && forall j :: 0 <= j < f ==> receipts[j].workflow != workflow
  }

  // The run, in the order of the list, are the receipts of one workflow, the given one or else that of
  // the first receipt, and of one tenant, the given one or else that of the workflow's first receipt.
  // `at` are the places of these receipts in the list.
  lemma {:induction false} RunMeans(receipts: seq<Receipt>, workflowId: Option<string>, tenantId: Option<string>)
    returns (at: seq<nat>)
    ensures var run := RunOf(receipts, workflowId, tenantId);
      && |at| == |run| && (forall k :: 0 <= k < |at| ==> at[k] < |receipts| && run[k] == receipts[at[k]])
      && (forall k, l :: 0 <= k < l < |at| ==> at[k] < at[l])
    ensures forall i: nat :: i < |receipts| ==>
      var r, workflow := receipts[i], if workflowId.Some? then workflowId else receipts[0].workflow;
      (i in at <==>
         && r.workflow == workflow
         && if tenantId.Some? then r.tenant == tenantId.value
            else forall f: nat :: IsFirstOf(receipts, workflow, f) ==> r.tenant == receipts[f].tenant)
  {
    var workflow := TargetWorkflow(receipts, workflowId);
    var tenant := TargetTenant(receipts, workflow, tenantId);
    at := PlacesInRun(receipts, workflow, tenant);
    hide InRun, TargetTenant;
    forall i: nat | i < |receipts|
      ensures Belongs(receipts[i], workflow, tenant) <==>
        && receipts[i].workflow == workflow
        && if tenantId.Some? then receipts[i].tenant == tenantId.value
           else forall f: nat :: IsFirstOf(receipts, workflow, f) ==> receipts[i].tenant == receipts[f].tenant
    {
      if receipts[i].workflow == workflow {
        var f := TenantFound(receipts, workflow, tenantId, i);
      }
    }
  }

  // `at` are the ascending places in s of the elements of `run`.
  ghost predicate ArePlaces<T>(s: seq<T>, run: seq<T>, at: seq<nat>) {
    && |at| == |run| && (forall k :: 0 <= k < |at| ==> at[k] < |s| && run[k] == s[at[k]])
    && (forall k, l :: 0 <= k < l < |at| ==> at[k] < at[l])
  }

  lemma {:induction false} PlacesShift<T>(s: seq<T>, run: seq<T>, at: seq<nat>) returns (moved: seq<nat>)
    requires s != [] && ArePlaces(s[1..], run, at)
    ensures ArePlaces(s, run, moved) && ArePlaces(s, [s[0]] + run, [0] + moved)
    ensures forall i: nat :: i in moved <==> i > 0 && i - 1 in at
  {
    moved := seq(|at|, k requires 0 <= k < |at| => at[k] + 1);
    forall i: nat ensures i in moved <==> i > 0 && i - 1 in at {
      if i > 0 && i - 1 in at {
        var k :| 0 <= k < |at| && at[k] == i - 1;
        assert moved[k] == i;
      }
    }
  }

  lemma {:induction false} PlacesInRun(receipts: seq<Receipt>, workflow: Option<string>, tenant: Option<string>)
    returns (at: seq<nat>)
    ensures ArePlaces(receipts, InRun(receipts, workflow, tenant), at)
    ensures forall i: nat :: i < |receipts| ==> (i in at <==> Belongs(receipts[i], workflow, tenant))
  {
    if receipts == [] {
      at := [];
    } else {
      var run := InRun(receipts[1..], workflow, tenant);
      var rest := PlacesInRun(receipts[1..], workflow, tenant);
      var moved := PlacesShift(receipts, run, rest);
      InRunNext(receipts, workflow, tenant);
      hide *;
      at := if Belongs(receipts[0], workflow, tenant) then [0] + moved else moved;
      forall i: nat | i < |receipts| ensures i in at <==> Belongs(receipts[i], workflow, tenant) {
        assert i > 0 ==> receipts[1..][i - 1] == receipts[i];
        assert i > 0 ==> (i in at <==> i in moved);
      }
    }
  }

  lemma {:induction false} InRunNext(receipts: seq<Receipt>, workflow: Option<string>, tenant: Option<string>)
    requires receipts != []
    ensures var run := InRun(receipts[1..], workflow, tenant);
      InRun(receipts, workflow, tenant) == if Belongs(receipts[0], workflow, tenant) then [receipts[0]] + run else run
  {
    hide Belongs;
  }

  // With a receipt of the workflow in the list and no tenant given, the tenant is that of the first one.
  lemma {:induction false} TenantFound(receipts: seq<Receipt>, workflow: Option<string>, tenantId: Option<string>,
                                       i: nat) returns (f: nat)
    requires i < |receipts| && receipts[i].workflow == workflow
    ensures IsFirstOf(receipts, workflow, f)
    ensures TargetTenant(receipts, workflow, tenantId)
      == if tenantId.Some? then tenantId else Some(receipts[f].tenant)
  {
    if receipts[0].workflow == workflow {
      f := 0;
    } else {
      var f' := TenantFound(receipts[1..], workflow, tenantId, i - 1);
      f := f' + 1;
      assert forall j :: 0 < j < f ==> receipts[j] == receipts[1..][j - 1];
    }
  }

  // What the graph keeps of the last receipt with an id: its height, and those recorded parents that
  // are in the run, each as often as it is recorded.
  lemma {:induction false} GraphMeans(run: seq<Receipt>, i: nat, p: string)
    requires i < |run| && forall j :: i < j < |run| ==> run[j].id != run[i].id
    ensures run[i].id in GraphOf(run) && GraphOf(run)[run[i].id].height == run[i].height
    ensures multiset(GraphOf(run)[run[i].id].present)[p]
         == if (exists q :: q in run && q.id == p) then multiset(run[i].parents)[p] else 0
  {
    assert run[i] in run;
    LastOfId(run, i);
    PresentTimes(Ids(run), run[i].parents, p);
  }

  lemma {:induction false} LastOfId(run: seq<Receipt>, i: nat)
    requires i < |run| && run[i].id in Ids(run) && forall j :: i < j < |run| ==> run[j].id != run[i].id
    ensures ReceiptOf(run, run[i].id) == run[i]
  {
    var last := |run| - 1;
    if i < last {
      var front := run[..last];
      assert run == front + [run[last]];
      IdsSnoc(front, run[last]);
      LastOfId(front, i);
    }
  }

  // The other parts of the result: roots record no parent of the run, leaves are recorded by no
  // receipt of the run, and missing are the recorded parents that the run does not have.
  lemma {:induction false} PartsMean(run: seq<Receipt>, id: string)
    ensures id in PresentIn(RootsOf(GraphOf(run)), IdsOf(run)) <==>
              id in GraphOf(run) && GraphOf(run)[id].present == []
    ensures id in PresentIn(LeavesOf(run), IdsOf(run)) <==>
              (exists r :: r in run && r.id == id) && forall q :: q in run ==> id !in q.parents
    ensures id in MissingFrom(Ids(run), run) <==>
              (exists r :: r in run && id in r.parents) && forall q :: q in run ==> q.id != id
  {
    IdsOfRun(run);
    hide PresentIn;
  }

  // Parents that the receipts record but that are not among the ids.
  ghost function MissingFrom(ids: set<string>, receipts: seq<Receipt>): set<string> {
    set r, p | r in receipts && p in r.parents && p !in ids :: p
  }

  lemma {:induction false} MissingNext(ids: set<string>, receipts: seq<Receipt>, r: Receipt)
    ensures MissingFrom(ids, receipts + [r]) == MissingFrom(ids, receipts) + set p | p in r.parents && p !in ids
  {
  }

  lemma {:induction false} GraphClosed(run: seq<Receipt>)
    ensures Closed(GraphOf(run))
  {
  }

  lemma {:induction false} Regroup<T>(a: seq<T>, b: seq<T>, c: seq<T>)
    ensures a + (b + c) == a + b + c
  {
  }

  lemma {:induction false} PresentNext(ids: set<string>, parents: seq<string>, p: string)
    ensures PresentIn(ids, parents + [p]) == PresentIn(ids, parents) + if p in ids then [p] else []
  {
    if parents == [] {
      assert parents + [p] == [p] && [p][1..] == [];
    } else {
      var tail, head := parents[1..], if parents[0] in ids then [parents[0]] else [];
      assert (parents + [p])[1..] == tail + [p];
      assert PresentIn(ids, parents + [p]) == head + PresentIn(ids, tail + [p]);
      assert PresentIn(ids, parents) == head + PresentIn(ids, tail);
      hide PresentIn;
      PresentNext(ids, tail, p);
      var last := if p in ids then [p] else [];
      Regroup(head, PresentIn(ids, tail), last);
    }
  }

  method ScanParents(ids: set<string>, r: Receipt) returns (present: seq<string>, missing: set<string>)
    ensures present == PresentIn(ids, r.parents)
    ensures missing == set p | p in r.parents && p !in ids
  {
    hide PresentIn;
    var all := r.parents;
    present, missing := [], {};
    PresentNone(ids);
    assert all[..0] == [];
    for k := 0 to |all|
      invariant present == PresentIn(ids, all[..k])
      invariant missing == set p | p in all[..k] && p !in ids
    {
      var p := all[k];
      assert all[..k + 1] == all[..k] + [p];
      PresentNext(ids, all[..k], p);
      if p in ids {
        present := present + [p];
      } else {
        missing := missing + {p};
      }
    }
    assert all[..|all|] == all;
  }

  lemma {:induction false} PresentNone(ids: set<string>)
    ensures PresentIn(ids, []) == []
  {
  }

  // Of receipts with the same id the last one counts.
  method BuildGraph(run: seq<Receipt>) returns (g: Graph, missing: set<string>)
    ensures g == GraphOf(run) && missing == MissingFrom(Ids(run), run)
  {
    hide PresentIn, MissingFrom;
    var ids := set r | r in run :: r.id;
    g, missing := map[], {};
    assert MissingFrom(ids, []) == {} && run[..0] == [] by { NoneMissing(ids); }
    for i := 0 to |run|
      invariant g.Keys == Ids(run[..i])
      invariant forall id :: id in g ==> g[id] == NodeOf(ids, ReceiptOf(run[..i], id))
      invariant missing == MissingFrom(ids, run[..i])
    {
      var present, lost := ScanParents(ids, run[i]);
      assert run[..i + 1] == run[..i] + [run[i]];
      IdsSnoc(run[..i], run[i]);
      forall id | id in Ids(run[..i + 1])
        ensures ReceiptOf(run[..i + 1], id) == if id == run[i].id then run[i] else ReceiptOf(run[..i], id)
      {
        LastReceipt(run[..i], run[i], id);
      }
      MissingNext(ids, run[..i], run[i]);
      g := g[run[i].id := Node(run[i].height, present)];
      missing := missing + lost;
    }
    assert run[..|run|] == run;
  }

  lemma {:induction false} LastReceipt(run: seq<Receipt>, r: Receipt, id: string)
    requires id in Ids(run + [r])
    ensures id != r.id ==> id in Ids(run)
    ensures ReceiptOf(run + [r], id) == if id == r.id then r else ReceiptOf(run, id)
  {
    IdsSnoc(run, r);
    assert (run + [r])[..|run|] == run;
  }

  lemma {:induction false} NoneMissing(ids: set<string>)
    ensures MissingFrom(ids, []) == {}
  {
  }

  method ReconstructWorkflow(receipts: seq<Receipt>, workflowId: Option<string>, tenantId: Option<string>)
    returns (replay: Replay)
    ensures var run := RunOf(receipts, workflowId, tenantId);
      var g, ids := GraphOf(run), multiset(IdsOf(run));
      && IsWholeTrace(g, ids, replay.order)
      && replay.roots == PresentIn(RootsOf(g), IdsOf(run))
      && replay.leaves == PresentIn(LeavesOf(run), IdsOf(run))
      && replay.missing == MissingFrom(Ids(run), run)
      && (replay.acyclic <==> OnceEach(g, ids) && exists later :: Unblocks(g, multiset(replay.roots), later))
      && (DistinctIds(run) ==>
            IsReplay(g, replay.order)
            && (replay.acyclic <==> !HasCycle(g) && forall id :: id in g ==> NoRepeats(g[id].present)))
  {
    hide RunOf, IsReplay, HasCycle, NoRepeats, MissingFrom, DistinctIds, LeavesOf, RootsOf, IsWholeTrace, OnceEach,
      Unblocks, AreRoots;
    var run := RunOf(receipts, workflowId, tenantId);
    var g, missing := BuildGraph(run);
    var order := KahnOrder(g, run);
    var ids := IdsOf(run);
    var roots := KeepIds(ids, RootsOf(g));
    RunCovered(run, order, roots);
    hide GraphOf;
    var leaves := KeepIds(ids, LeavesOf(run));
    replay := Replay(order, roots, leaves, missing, |order| == |run|);
  }

  // What the acyclic flag says, whether or not ids repeat.
  lemma {:induction false} RunCovered(run: seq<Receipt>, order: seq<string>, roots: seq<string>)
    requires IsWholeTrace(GraphOf(run), multiset(IdsOf(run)), order)
    requires roots == PresentIn(RootsOf(GraphOf(run)), IdsOf(run))
    ensures var g, ids := GraphOf(run), multiset(IdsOf(run));
      && (|order| == |run| <==> OnceEach(g, ids) && exists later :: Unblocks(g, multiset(roots), later))
      && (DistinctIds(run) ==>
            IsReplay(g, order)
            && (|order| == |run| <==> !HasCycle(g) && forall id :: id in g ==> NoRepeats(g[id].present)))
  {
    var g, ids := GraphOf(run), multiset(IdsOf(run));
    RootsAre(run);
    IdsAre(run);
    SizeOf(IdsOf(run));
    GraphClosed(run);
    hide *;
    CoversExactly(g, ids, multiset(roots), order);
    if DistinctIds(run) {
      IdsOnce(run);
      TraceIsReplay(g, ids, order);
      CoversIffAcyclic(g, order);
    }
  }

  lemma {:induction false} IdsAre(run: seq<Receipt>)
    ensures AreIdsOf(GraphOf(run), multiset(IdsOf(run))) && |IdsOf(run)| == |run|
  {
    IdsOfRun(run);
    forall q ensures q in multiset(IdsOf(run)) <==> q in GraphOf(run) {
      assert q in multiset(IdsOf(run)) <==> q in IdsOf(run);
    }
  }

  lemma {:induction false} IdsOnce(run: seq<Receipt>)
    requires DistinctIds(run)
    ensures (forall q :: q in GraphOf(run) ==> multiset(IdsOf(run))[q] == 1) && |GraphOf(run)| == |run|
  {
    IdsOfRun(run);
    var ids := IdsOf(run);
    assert NoRepeats(ids);
    forall q | q in GraphOf(run) ensures multiset(ids)[q] == 1 {
      OnceInOrder(ids, q);
    }
    DistinctCount(ids);
    assert (set x | x in ids) == GraphOf(run).Keys;
  }

  lemma {:induction false} RootsAre(run: seq<Receipt>)
    ensures AreRoots(GraphOf(run), multiset(IdsOf(run)), multiset(PresentIn(RootsOf(GraphOf(run)), IdsOf(run))))
  {
    hide GraphOf;
    forall q ensures multiset(PresentIn(RootsOf(GraphOf(run)), IdsOf(run)))[q]
      == if q in RootsOf(GraphOf(run)) then multiset(IdsOf(run))[q] else 0
    {
      PresentTimes(RootsOf(GraphOf(run)), IdsOf(run), q);
    }
  }

  // r is what is wanted of s, in its order: `at` says where.
  ghost predicate Picks<T(!new)>(wanted: set<T>, s: seq<T>, r: seq<T>, at: seq<nat>) {
    && |at| == |r| && (forall k :: 0 <= k < |at| ==> at[k] < |s| && r[k] == s[at[k]])
    && (forall k, l :: 0 <= k < l < |at| ==> at[k] < at[l])
    && forall j :: 0 <= j < |s| ==> (j in at <==> s[j] in wanted)
  }

  lemma {:induction false} PicksNext<T(!new)>(wanted: set<T>, s: seq<T>, r: seq<T>, at: seq<nat>, x: T)
    requires Picks(wanted, s, r, at)
    ensures if x in wanted then Picks(wanted, s + [x], r + [x], at + [|s|]) else Picks(wanted, s + [x], r, at)
  {
  }

  lemma {:induction false} PresentAt(wanted: set<string>, s: seq<string>) returns (at: seq<nat>)
    ensures Picks(wanted, s, PresentIn(wanted, s), at)
  {
    hide PresentIn;
    at := [];
    PresentNone(wanted);
    if s != [] {
      var front, x := s[..|s| - 1], s[|s| - 1];
      at := PresentAt(wanted, front);
      PresentNext(wanted, front, x);
      PicksNext(wanted, front, PresentIn(wanted, front), at, x);
      assert s == front + [x];
      hide Picks;
      if x in wanted {
        at := at + [|front|];
      } else {
        NothingAdded(PresentIn(wanted, front));
      }
    }
  }

  lemma {:induction false} NothingAdded<T>(r: seq<T>)
    ensures r + [] == r
  {
  }

  lemma {:induction false} PresentTimes(wanted: set<string>, s: seq<string>, q: string)
    ensures multiset(PresentIn(wanted, s))[q] == if q in wanted then multiset(s)[q] else 0
  {
    if s != [] {
      PresentTimes(wanted, s[1..], q);
      assert s == [s[0]] + s[1..];
    }
  }

  // The ids in the order of the run.
  function IdsOf(run: seq<Receipt>): (ids: seq<string>)
    ensures |ids| == |run| && forall i :: 0 <= i < |run| ==> ids[i] == run[i].id
  {
    seq(|run|, i requires 0 <= i < |run| => run[i].id)
  }

  // The entry points: no recorded parent is in the run.
  function RootsOf(g: Graph): set<string> {
    set id | id in g && g[id].present == []
  }

  // The final outputs: no receipt of the run records them as a parent.
  function LeavesOf(run: seq<Receipt>): set<string> {
    set id | id in Ids(run) && forall r | r in run :: id !in r.parents
  }

  // ---------- what a repeated root does ----------

  lemma {:induction false} PresentTwo(ids: set<string>, a: string, b: string)
    requires a in ids && b in ids
    ensures PresentIn(ids, []) == [] && PresentIn(ids, [a]) == [a] && PresentIn(ids, [a, b]) == [a, b]
  {
    assert [a][1..] == [] && [a, b][1..] == [b] && [b][1..] == [];
  }

  lemma {:induction false} ArrivalsTwo(a: string, b: string, taken: multiset<string>)
    requires a != b
    ensures Arrivals([a], taken) == taken[a] && Arrivals([a, b], taken) == taken[a] + taken[b]
  {
    ArrivalsOfNone(taken);
    assert [a][..0] == [] && [a, b][..1] == [a] && [a, b][1] !in [a];
  }

  lemma {:induction false} ArrivalsOfNone(taken: multiset<string>)
    ensures Arrivals([], taken) == 0
  {
  }

  // The graph of a root listed twice and two more receipts.
  lemma {:induction false} FourInGraph(p: Receipt, x: Receipt, y: Receipt)
    requires p.id != x.id && p.id != y.id && x.id != y.id
    ensures var run := [p, p, x, y];
      && Ids(run) == {p.id, x.id, y.id} && IdsOf(run) == [p.id, p.id, x.id, y.id]
      && GraphOf(run)[p.id] == NodeOf(Ids(run), p) && GraphOf(run)[x.id] == NodeOf(Ids(run), x)
      && GraphOf(run)[y.id] == NodeOf(Ids(run), y)
  {
    var run := [p, p, x, y];
    assert p in run && x in run && y in run;
    hide NodeOf;
    forall r | r in run ensures r == p || r == x || r == y {
    }
  }

  lemma {:induction false} CycleOfTwo(g: Graph, x: string, y: string)
    requires Edge(g, x, y) && Edge(g, y, x)
    ensures HasCycle(g)
  {
    assert IsCycle(g, [x, y]);
  }

  lemma {:induction false} FourPresent(p: Receipt, x: Receipt, y: Receipt)
    requires p.id != x.id && p.id != y.id && x.id != y.id
    requires p.parents == [] && x.parents == [p.id, y.id] && y.parents == [x.id]
    ensures var g := GraphOf([p, p, x, y]);
      && g.Keys == {p.id, x.id, y.id} && IdsOf([p, p, x, y]) == [p.id, p.id, x.id, y.id]
      && g[p.id].present == [] && g[x.id].present == [p.id, y.id] && g[y.id].present == [x.id]
  {
    FourInGraph(p, x, y);
    var ids := Ids([p, p, x, y]);
    PresentTwo(ids, p.id, y.id);
    PresentTwo(ids, x.id, y.id);
    hide PresentIn;
  }

  // Of p, p, x, y with x and y each other's parents and p another parent of x, the run has a cycle
  // and is replayed in full, so it is reported as acyclic: taking p twice releases x.
  lemma {:induction false} CycleLooksAcyclic(p: Receipt, x: Receipt, y: Receipt, order: seq<string>)
    requires p.id != x.id && p.id != y.id && x.id != y.id
    requires p.parents == [] && x.parents == [p.id, y.id] && y.parents == [x.id]
    requires var run := [p, p, x, y]; IsWholeTrace(GraphOf(run), multiset(IdsOf(run)), order)
    ensures var run := [p, p, x, y]; HasCycle(GraphOf(run)) && |order| == |run|
  {
    var run := [p, p, x, y];
    var g, ids := GraphOf(run), IdsOf(run);
    var roots := PresentIn(RootsOf(g), ids);
    hide *;
    FourPresent(p, x, y);
    RootsAre(run);
    RunCovered(run, order, roots);
    TwoUnblocked(g, multiset(ids), multiset(roots), p.id, x.id, y.id);
    EdgeIs(g, x.id, y.id);
    EdgeIs(g, y.id, x.id);
    CycleOfTwo(g, x.id, y.id);
  }

  lemma {:induction false} EdgeIs(g: Graph, child: string, parent: string)
    ensures Edge(g, child, parent) <==> child in g && parent in g[child].present
  {
  }

  lemma {:induction false} TwoUnblocked(g: Graph, ids: multiset<string>, roots: multiset<string>, p: string,
                                        x: string, y: string)
    requires p != x && p != y && x != y && g.Keys == {p, x, y} && ids == multiset([p, p, x, y])
    requires g[p].present == [] && g[x].present == [p, y] && g[y].present == [x] && AreRoots(g, ids, roots)
    ensures OnceEach(g, ids) && Unblocks(g, roots, [x, y])
  {
    var later := [x, y];
    assert later[..0] == [] && later[..1] == [x];
    ArrivalsTwo(p, y, roots + multiset([]));
    ArrivalsTwo(x, y, roots + multiset([x]));
  }

  // A root p listed twice, a root q, and c with both as parents and lower than q.
  ghost predicate EarlyGraph(g: Graph, ids: multiset<string>, p: string, q: string, c: string) {
    && p != q && p != c && q != c && g.Keys == {p, q, c} && ids == multiset([p, p, q, c])
    && g[p].present == [] && g[q].present == [] && g[c].present == [p, q]
    && g[p].height <= g[c].height < g[q].height
  }

  lemma {:induction false} EarlyWaits(g: Graph, ids: multiset<string>, p: string, q: string, c: string,
                                      taken: multiset<string>)
    requires EarlyGraph(g, ids, p, q, c)
    ensures forall x :: Waits(g, ids, taken, x) <==>
      || (x == p && taken[p] < 2)
      || (x == q && taken[q] < 1)
      || (x == c && taken[c] < 1 && taken[p] + taken[q] >= 2)
  {
    ArrivalsTwo(p, q, taken);
  }

  lemma {:induction false} EarlyNext(g: Graph, ids: multiset<string>, p: string, q: string, c: string,
                                     taken: multiset<string>, id: string)
    requires EarlyGraph(g, ids, p, q, c) && taken[q] < 1 && taken[c] < 2
    requires id == if taken[p] < 2 then p else if taken[c] < 1 then c else q
    requires taken[p] < 2 ==> taken[c] == 0
    ensures taken[p] <= 2 ==> IsNext(g, ids, taken, id)
  {
    EarlyWaits(g, ids, p, q, c, taken);
    hide Waits;
    IdOrderTotal(g);
    assert IdLe(g, id, id);
    hide KeyLe;
  }

  lemma {:induction false} Prefixes<T>(p: T, q: T, c: T) returns (a: seq<T>, b: seq<T>, d: seq<T>)
    requires p != q && p != c && q != c
    ensures a == [] + [p] && b == a + [p] && d == b + [c] && d + [q] == [p, p, c, q]
    ensures multiset(a)[p] == 1 && multiset(a)[q] == 0 && multiset(a)[c] == 0
    ensures multiset(b)[p] == 2 && multiset(b)[q] == 0 && multiset(b)[c] == 0
    ensures multiset(d)[p] == 2 && multiset(d)[q] == 0 && multiset(d)[c] == 1
  {
    a, b, d := [p], [p, p], [p, p, c];
  }

  lemma {:induction false} EarlyTrace(g: Graph, ids: multiset<string>, p: string, q: string, c: string)
    requires EarlyGraph(g, ids, p, q, c)
    ensures IsWholeTrace(g, ids, [p, p, c, q])
  {
    EarlyWaits(g, ids, p, q, c, multiset([p, p, c, q]));
    var a, b, d := Prefixes(p, q, c);
    assert IsTrace(g, ids, []);
    hide Waits, EarlyGraph, IsNext, IsTrace;
    EarlyNext(g, ids, p, q, c, multiset([]), p);
    TraceNext(g, ids, [], p);
    EarlyNext(g, ids, p, q, c, multiset(a), p);
    TraceNext(g, ids, a, p);
    EarlyNext(g, ids, p, q, c, multiset(b), c);
    TraceNext(g, ids, b, c);
    EarlyNext(g, ids, p, q, c, multiset(d), q);
    TraceNext(g, ids, d, q);
  }

  // Of p, p, q, c with c lower than its parent q, the replay puts c before q and is reported as acyclic.
  lemma {:induction false} ChildBeforeParent(p: Receipt, q: Receipt, c: Receipt, order: seq<string>)
    requires p.id != q.id && p.id != c.id && q.id != c.id && p.height <= c.height < q.height
    requires p.parents == [] && q.parents == [] && c.parents == [p.id, q.id]
    requires var run := [p, p, q, c]; IsWholeTrace(GraphOf(run), multiset(IdsOf(run)), order)
    ensures order == [p.id, p.id, c.id, q.id] && |order| == |[p, p, q, c]|
  {
    EarlyGraphOf(p, q, c);
    var run := [p, p, q, c];
    var g, ids := GraphOf(run), multiset(IdsOf(run));
    hide *;
    EarlyTrace(g, ids, p.id, q.id, c.id);
    TraceUnique(g, ids, order, [p.id, p.id, c.id, q.id]);
  }

  lemma {:induction false} EarlyGraphOf(p: Receipt, q: Receipt, c: Receipt)
    requires p.id != q.id && p.id != c.id && q.id != c.id && p.height <= c.height < q.height
    requires p.parents == [] && q.parents == [] && c.parents == [p.id, q.id]
    ensures EarlyGraph(GraphOf([p, p, q, c]), multiset(IdsOf([p, p, q, c])), p.id, q.id, c.id)
  {
    FourInGraph(p, q, c);
    PresentTwo(Ids([p, p, q, c]), p.id, q.id);
    hide PresentIn, GraphOf;
  }

  method KeepIds(ids: seq<string>, wanted: set<string>) returns (kept: seq<string>)
    ensures kept == PresentIn(wanted, ids)
  {
    kept := [];
    PresentNone(wanted);
    for i := 0 to |ids|
      invariant kept == PresentIn(wanted, ids[..i])
    {
      assert ids[..i + 1] == ids[..i] + [ids[i]];
      PresentNext(wanted, ids[..i], ids[i]);
      if ids[i] in wanted {
        kept := kept + [ids[i]];
      }
    }
    assert ids[..|ids|] == ids;
  }

  lemma {:induction false} InRunCount(receipts: seq<Receipt>, workflow: Option<string>, tenant: Option<string>,
                                      r: Receipt)
    ensures multiset(InRun(receipts, workflow, tenant))[r]
      == if Belongs(r, workflow, tenant) then multiset(receipts)[r] else 0
  {
    if receipts != [] {
      hide Belongs;
      var first, rest, run := receipts[0], receipts[1..], InRun(receipts[1..], workflow, tenant);
      InRunCount(rest, workflow, tenant, r);
      assert receipts == [first] + rest;
      assert multiset(receipts)[r] == multiset(rest)[r] + if r == first then 1 else 0;
      if Belongs(first, workflow, tenant) {
        assert multiset([first] + run)[r] == multiset(run)[r] + if r == first then 1 else 0;
      } else {
        assert [] + run == run;
      }
    }
  }

  lemma {:induction false} Without<T>(s: seq<T>, j: nat)
    requires j < |s|
    ensures multiset(s) == multiset{s[j]} + multiset(s[..j] + s[j + 1..])
  {
    assert s == s[..j] + [s[j]] + s[j + 1..];
  }

  lemma {:induction false} RestsSame<T>(a: seq<T>, b: seq<T>, j: nat)
    requires multiset(a) == multiset(b) && a != [] && j < |b| && b[j] == a[0]
    ensures multiset(a[1..]) == multiset(b[..j] + b[j + 1..])
  {
    var restA, restB := a[1..], b[..j] + b[j + 1..];
    Without(b, j);
    assert a == [a[0]] + restA;
    assert multiset(restA) == multiset(a) - multiset{a[0]};
    assert multiset(restB) == multiset(b) - multiset{a[0]};
  }

  lemma {:induction false} WholesSame<T>(a: seq<T>, b: seq<T>, j: nat)
    requires a != [] && j < |b| && b[j] == a[0] && multiset(a[1..]) == multiset(b[..j] + b[j + 1..])
    ensures multiset(a) == multiset(b)
  {
    Without(b, j);
    assert a == [a[0]] + a[1..];
  }

  lemma {:induction false} IdsWithout(run: seq<Receipt>, j: nat)
    requires j < |run|
    ensures IdsOf(run)[j] == run[j].id
    ensures IdsOf(run[..j] + run[j + 1..]) == IdsOf(run)[..j] + IdsOf(run)[j + 1..]
    ensures j == 0 ==> IdsOf(run[1..]) == IdsOf(run)[1..]
  {
  }

  lemma {:induction false} Position<T>(a: seq<T>, b: seq<T>) returns (j: nat)
    requires multiset(a) == multiset(b) && a != []
    ensures j < |b| && b[j] == a[0]
  {
    assert a[0] in multiset(b);
    j :| 0 <= j < |b| && b[j] == a[0];
  }

  lemma {:induction false} SameLength<T>(a: seq<T>, b: seq<T>)
    requires multiset(a) == multiset(b)
    ensures |a| == |b|
  {
    assert |multiset(a)| == |a|;
  }

  lemma {:induction false} SameIds(a: seq<Receipt>, b: seq<Receipt>)
    requires multiset(a) == multiset(b)
    ensures multiset(IdsOf(a)) == multiset(IdsOf(b))
    decreases |a|
  {
    hide IdsOf;
    SameLength(a, b);
    if a != [] {
      var j := Position(a, b);
      RestsSame(a, b, j);
      SameIds(a[1..], b[..j] + b[j + 1..]);
      IdsWithout(a, 0);
      IdsWithout(b, j);
      WholesSame(IdsOf(a), IdsOf(b), j);
    }
  }

  // With workflow and tenant given, the replay order is the same for every permutation of the input
  // whose graph is the same, which is every one if receipts with one id agree.
  lemma {:induction false} ReplayOrderFree(a: seq<Receipt>, b: seq<Receipt>, workflow: string, tenant: string,
                                           orderA: seq<string>, orderB: seq<string>)
    requires multiset(a) == multiset(b)
    requires var runA, runB := RunOf(a, Some(workflow), Some(tenant)), RunOf(b, Some(workflow), Some(tenant));
      && (OneNodeEach(runA) || GraphOf(runA) == GraphOf(runB))
      && IsWholeTrace(GraphOf(runA), multiset(IdsOf(runA)), orderA)
      && IsWholeTrace(GraphOf(runB), multiset(IdsOf(runB)), orderB)
    ensures orderA == orderB
  {
    hide GraphOf, IsWholeTrace, OneNodeEach;
    var runA, runB := RunOf(a, Some(workflow), Some(tenant)), RunOf(b, Some(workflow), Some(tenant));
    forall r ensures multiset(runA)[r] == multiset(runB)[r] {
      InRunCount(a, Some(workflow), Some(tenant), r);
      InRunCount(b, Some(workflow), Some(tenant), r);
    }
    if OneNodeEach(runA) {
      SameGraph(runA, runB);
    }
    SameIds(runA, runB);
    TraceUnique(GraphOf(runA), multiset(IdsOf(runA)), orderA, orderB);
  }
}
