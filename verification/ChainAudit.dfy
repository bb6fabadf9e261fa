// verifyChain of src/verify.ts: the audit of a tenant's whole receipt chain.
module ChainAudit {
  import opened Wrappers
  import opened Sorting
  import opened Doubles
  import opened Receipts

  datatype ChainVerifyResult = ChainVerifyResult(valid: bool, completeFromGenesis: bool, length: nat,
                                                 tenantId: Tenant, brokenAt: Option<nat>)

  function HeightOf<D>(r: SignedReceipt<D>): real {
    if r.integrity.Some? && r.integrity.value.height.Number? then r.integrity.value.height.value
    else MAX_SAFE_INTEGER as real
  }

  predicate NotHigher<D>(a: SignedReceipt<D>, b: SignedReceipt<D>) {
    HeightOf(a) <= HeightOf(b)
  }

  function InHeightOrder<D>(receipts: seq<SignedReceipt<D>>): (r: seq<SignedReceipt<D>>)
    ensures |r| == |receipts| && multiset(r) == multiset(receipts)
  {
    Sort((a, b) => NotHigher(a, b), receipts)
  }

  // The tenant of the first receipt that names one.
  function FirstTenant<D>(receipts: seq<SignedReceipt<D>>): Tenant {
    if receipts == [] then Null
    else if receipts[0].tenant.Text? then receipts[0].tenant
    else FirstTenant(receipts[1..])
  }

  // What the loop checks at position i.
  predicate PositionOk<D(==)>(v: Verifier<D>, tenant: Tenant, s: seq<SignedReceipt<D>>, i: nat)
    requires i < |s|
  {
    && s[i].tenant == tenant && tenant != Other
    && ReceiptValid(v, s[i], if i == 0 then None else s[i - 1].integrity)
  }

  predicate AuditPasses<D(==)>(v: Verifier<D>, receipts: seq<SignedReceipt<D>>) {
    && receipts != []
    && var s, tenant := InHeightOrder(receipts), FirstTenant(receipts);
    && forall i :: 0 <= i < |s| ==> PositionOk(v, tenant, s, i)
  }

  predicate StartsAtGenesis<D(==)>(v: Verifier<D>, s: seq<SignedReceipt<D>>) {
    && s != [] && s[0].integrity.Some?
    && s[0].integrity.value.height == Number(1.0) && s[0].integrity.value.previousHash == v.genesis
  }

  method VerifyChain<D(==)>(v: Verifier<D>, receipts: seq<SignedReceipt<D>>) returns (result: ChainVerifyResult)
    ensures result.valid <==> AuditPasses(v, receipts)
    ensures result.completeFromGenesis <==>
      var s := InHeightOrder(receipts);
      && s != [] && s[0].integrity.Some?
      && s[0].integrity.value.height == Number(1.0) && s[0].integrity.value.previousHash == v.genesis
    ensures result.length == |receipts| && result.tenantId == FirstTenant(receipts)
    ensures result.brokenAt.None? <==> result.valid || receipts == []
    ensures result.brokenAt.Some? ==>
      var s, k := InHeightOrder(receipts), result.brokenAt.value;
      && k < |s| && !PositionOk(v, FirstTenant(receipts), s, k)
      && forall i :: 0 <= i < k ==> PositionOk(v, FirstTenant(receipts), s, i)
  {
    if |receipts| == 0 {
      return ChainVerifyResult(false, false, 0, Null, None);
    }
    var tenantId := Null;
    for i := 0 to |receipts|
      invariant tenantId == Null && FirstTenant(receipts[i..]) == FirstTenant(receipts)
    {
      if receipts[i].tenant.Text? {
        tenantId := receipts[i].tenant;
        break;
      }
    }
    var ordered := InHeightOrder(receipts);
    var brokenAt: Option<nat> := None;
    for i := 0 to |ordered|
      invariant brokenAt.None? ==> forall j :: 0 <= j < i ==> PositionOk(v, tenantId, ordered, j)
      invariant brokenAt.Some? ==>
        && brokenAt.value < i && !PositionOk(v, tenantId, ordered, brokenAt.value)
        && forall j :: 0 <= j < brokenAt.value ==> PositionOk(v, tenantId, ordered, j)
    {
      var r := ordered[i];
      if r.tenant == Other || r.tenant != tenantId {
        brokenAt := if brokenAt.None? then Some(i) else brokenAt;
        continue;
      }
      var prev := if i == 0 then None else ordered[i - 1].integrity;
      var res := VerifyReceipt(v, r, prev);
      if !res.valid {
        brokenAt := if brokenAt.None? then Some(i) else brokenAt;
      }
    }
    var first := ordered[0].integrity;
    var complete := first.Some? && first.value.height == Number(1.0) && first.value.previousHash == v.genesis;
    result := ChainVerifyResult(brokenAt.None?, complete, |ordered|, tenantId, brokenAt);
  }

  // ---------- what `valid` means ----------

  // One tenant, every receipt sound in itself, each height the rounded successor of the one
  // before, every link matching, and the genesis rule for the first.
  ghost predicate IsLinked<D>(v: Verifier<D>, s: seq<SignedReceipt<D>>) {
    && s != []
    && (forall i :: 0 <= i < |s| ==>
          s[i].tenant == s[0].tenant != Other && OwnChecks(v, s[i]) && IsPositiveInteger(s[i].integrity.value.height))
    && (forall i :: 0 < i < |s| ==> Follows(s[i - 1], s[i]))
    && (s[0].integrity.value.height.value == 1.0 <==> s[0].integrity.value.previousHash == v.genesis)
  }

  ghost predicate Follows<D>(p: SignedReceipt<D>, r: SignedReceipt<D>) {
    && p.integrity.Some? && r.integrity.Some?
    && r.integrity.value.previousHash == p.integrity.value.receiptHash
    && p.integrity.value.height.Number? && r.integrity.value.height.Number?
    && r.integrity.value.height.value == Successor(p.integrity.value.height.value)
  }

  lemma {:induction false} FirstTenantIs<D>(receipts: seq<SignedReceipt<D>>, t: Tenant)
    requires receipts != [] && t != Other
    requires forall r :: r in receipts ==> r.tenant == t
    ensures FirstTenant(receipts) == t
  {
    assert receipts[0] in receipts;
    if |receipts| > 1 {
      assert forall r :: r in receipts[1..] ==> r in receipts;
      FirstTenantIs(receipts[1..], t);
    }
  }

  lemma {:induction false} PassedIsLinked<D>(v: Verifier<D>, t: Tenant, s: seq<SignedReceipt<D>>)
    requires s != [] && forall i :: 0 <= i < |s| ==> PositionOk(v, t, s, i)
    ensures IsLinked(v, s)
  {
    hide Successor, OwnChecks, IsPositiveInteger;
    assert PositionOk(v, t, s, 0);
    forall i | 0 <= i < |s|
      ensures s[i].tenant == s[0].tenant != Other && OwnChecks(v, s[i])
      ensures s[i].integrity.Some? && IsPositiveInteger(s[i].integrity.value.height)
      ensures s[i].integrity.value.height.Number?
    {
      assert PositionOk(v, t, s, i);
      PositiveParts(v, s[i]);
    }
    forall i | 0 < i < |s| ensures Follows(s[i - 1], s[i]) {
      assert PositionOk(v, t, s, i) && PositionOk(v, t, s, i - 1);
    }
  }

  lemma {:induction false} PositiveParts<D>(v: Verifier<D>, r: SignedReceipt<D>)
    ensures OwnChecks(v, r) ==> r.integrity.Some?
    ensures r.integrity.Some? && IsPositiveInteger(r.integrity.value.height) ==> r.integrity.value.height.Number?
  {
  }

  lemma {:induction false} LinkedPasses<D>(v: Verifier<D>, receipts: seq<SignedReceipt<D>>)
    requires IsLinked(v, InHeightOrder(receipts))
    ensures AuditPasses(v, receipts)
  {
    hide Successor, OwnChecks, IsPositiveInteger, InHeightOrder;
    var s := InHeightOrder(receipts);
    forall r | r in receipts ensures r.tenant == s[0].tenant {
      assert r in multiset(receipts);
      assert r in s;
    }
    FirstTenantIs(receipts, s[0].tenant);
    forall i | 0 <= i < |s| ensures PositionOk(v, s[0].tenant, s, i) {
      PositiveParts(v, s[i]);
      assert i > 0 ==> Follows(s[i - 1], s[i]);
    }
  }

  // The verdict on any list, read in height order.
  lemma {:induction false} AuditMeans<D>(v: Verifier<D>, receipts: seq<SignedReceipt<D>>)
    ensures AuditPasses(v, receipts) <==> IsLinked(v, InHeightOrder(receipts))
  {
    hide IsLinked, PositionOk, InHeightOrder;
    if AuditPasses(v, receipts) {
      PassedIsLinked(v, FirstTenant(receipts), InHeightOrder(receipts));
    }
    if IsLinked(v, InHeightOrder(receipts)) {
      LinkedPasses(v, receipts);
    }
  }

  // ---------- consecutive heights ----------

  // The same with heights that really are consecutive integers.
  ghost predicate IsChain<D>(v: Verifier<D>, s: seq<SignedReceipt<D>>) {
    && s != []
    && (forall i :: 0 <= i < |s| ==> s[i].tenant == s[0].tenant != Other && OwnChecks(v, s[i]))
    && (exists base: nat :: IsBase(v, s, base))
    && (forall i :: 0 < i < |s| ==> s[i].integrity.value.previousHash == s[i - 1].integrity.value.receiptHash)
  }

  ghost predicate IsBase<D>(v: Verifier<D>, s: seq<SignedReceipt<D>>, base: nat)
    requires s != [] && s[0].integrity.Some?
  {
    base >= 1 && HeightsFrom(s, base) && (base == 1 <==> s[0].integrity.value.previousHash == v.genesis)
  }

  ghost predicate HeightsFrom<D>(s: seq<SignedReceipt<D>>, base: nat) {
    forall i :: 0 <= i < |s| ==> HasHeight(s[i], base + i)
  }

  predicate HasHeight<D>(r: SignedReceipt<D>, k: nat) {
    r.integrity.Some? && r.integrity.value.height == Number(k as real)
  }

  // Every receipt but the last can still be counted on from.
  predicate RisesTo<D>(s: seq<SignedReceipt<D>>) {
    forall i :: 0 <= i < |s| - 1 ==> HeightOf(s[i]) < TWO_53 as real
  }

  lemma {:induction false} LinkedHeights<D>(v: Verifier<D>, s: seq<SignedReceipt<D>>) returns (base: nat)
    requires IsLinked(v, s) && RisesTo(s)
    ensures IsBase(v, s, base)
  {
    base := s[0].integrity.value.height.value.Floor;
    for n := 1 to |s|
      invariant forall i :: 0 <= i < n ==> HasHeight(s[i], base + i)
    {
      hide Successor, IsPositiveInteger, OwnChecks;
      var k := base + n - 1;
      assert HasHeight(s[n - 1], k) && HeightOf(s[n - 1]) < TWO_53 as real;
      RealFloor(k);
      assert Follows(s[n - 1], s[n]);
      SuccessorExact(k);
    }
  }

  lemma {:induction false} RealFloor(k: int)
    ensures (k as real).Floor == k
  {
  }

  lemma {:induction false} LinkedRises<D>(v: Verifier<D>, s: seq<SignedReceipt<D>>)
    requires IsLinked(v, s) && RisesTo(s)
    ensures IsChain(v, s)
  {
    var base := LinkedHeights(v, s);
    hide OwnChecks;
    forall i | 0 < i < |s| ensures s[i].integrity.value.previousHash == s[i - 1].integrity.value.receiptHash {
      assert Follows(s[i - 1], s[i]);
    }
  }

  lemma {:induction false} RisingIsLinked<D>(v: Verifier<D>, s: seq<SignedReceipt<D>>)
    requires IsChain(v, s) && RisesTo(s)
    ensures IsLinked(v, s)
  {
    var base: nat :| IsBase(v, s, base);
    hide OwnChecks, Successor;
    forall i | 0 <= i < |s| ensures HasHeight(s[i], base + i) && IsPositiveInteger(s[i].integrity.value.height) {
      RealFloor(base + i);
    }
    forall i | 0 < i < |s| ensures Follows(s[i - 1], s[i]) {
      assert HasHeight(s[i - 1], base + i - 1) && HasHeight(s[i], base + i);
      assert HeightOf(s[i - 1]) < TWO_53 as real;
      SuccessorExact(base + i - 1);
    }
    assert HasHeight(s[0], base);
  }

  // Numeric heights are doubles, as every parsed number is.
  ghost predicate DoubleHeights<D>(receipts: seq<SignedReceipt<D>>) {
    forall r :: r in receipts ==> IsDouble(HeightOf(r))
  }

  lemma {:induction false} ChainRises<D>(v: Verifier<D>, s: seq<SignedReceipt<D>>)
    requires IsChain(v, s) && DoubleHeights(s)
    ensures RisesTo(s)
  {
    var base: nat :| IsBase(v, s, base);
    hide OwnChecks, IsDouble;
    forall i | 0 <= i < |s| - 1 ensures HeightOf(s[i]) < TWO_53 as real {
      assert HasHeight(s[i], base + i) && HasHeight(s[i + 1], base + i + 1);
      assert IsDouble(HeightOf(s[i])) && IsDouble(HeightOf(s[i + 1]));
      if base + i >= TWO_53 {
        NoConsecutive(base + i);
      }
    }
  }

  // Receipts form a chain with consecutive heights exactly when the audit passes and no receipt
  // but the last has a height of 2^53 or more.
  lemma {:induction false} ConsecutiveExactly<D>(v: Verifier<D>, receipts: seq<SignedReceipt<D>>)
    requires DoubleHeights(receipts)
    ensures IsChain(v, InHeightOrder(receipts))
       <==> AuditPasses(v, receipts) && RisesTo(InHeightOrder(receipts))
  {
    var s := InHeightOrder(receipts);
    forall r | r in s ensures r in receipts {
      assert r in multiset(s);
    }
    hide IsChain, IsLinked, RisesTo, AuditPasses, InHeightOrder;
    AuditMeans(v, receipts);
    if IsChain(v, s) {
      ChainRises(v, s);
      RisingIsLinked(v, s);
    }
    if IsLinked(v, s) && RisesTo(s) {
      LinkedRises(v, s);
    }
  }

  ghost predicate SafeHeights<D>(receipts: seq<SignedReceipt<D>>) {
    forall r :: r in receipts ==> HeightOf(r) <= MAX_SAFE_INTEGER as real
  }

  // With heights that are safe integers, as the signer makes them, the verdict is IsChain.
  lemma {:induction false} AuditMeaning<D>(v: Verifier<D>, receipts: seq<SignedReceipt<D>>)
    requires SafeHeights(receipts)
    ensures AuditPasses(v, receipts) <==> IsChain(v, InHeightOrder(receipts))
  {
    var s := InHeightOrder(receipts);
    assert RisesTo(s) by {
      forall i | 0 <= i < |s| ensures HeightOf(s[i]) < TWO_53 as real {
        assert s[i] in multiset(s);
        assert s[i] in receipts;
      }
    }
    hide IsChain, IsLinked, RisesTo, AuditPasses, InHeightOrder;
    AuditMeans(v, receipts);
    if IsChain(v, s) {
      RisingIsLinked(v, s);
    }
    if IsLinked(v, s) {
      LinkedRises(v, s);
    }
  }

  // ---------- when the verdict does not depend on the order of the input ----------

  lemma {:induction false} HeightsTotal<D(!new)>()
    ensures TotalPreorder((a: SignedReceipt<D>, b: SignedReceipt<D>) => NotHigher(a, b))
  {
  }

  // No two positions hold the same height, among those from `least` on.
  ghost predicate DistinctFrom<D>(receipts: seq<SignedReceipt<D>>, least: real) {
    forall i, j :: 0 <= i < j < |receipts| && HeightOf(receipts[i]) >= least ==>
      HeightOf(receipts[i]) != HeightOf(receipts[j])
  }

  ghost predicate DistinctHeights<D>(receipts: seq<SignedReceipt<D>>) {
    forall i, j :: 0 <= i < j < |receipts| ==> HeightOf(receipts[i]) != HeightOf(receipts[j])
  }

  lemma {:induction false} TwoOf<T>(s: seq<T>, i: nat, j: nat)
    requires i < j < |s| && s[i] == s[j]
    ensures multiset(s)[s[i]] >= 2
  {
    assert s == s[..i] + [s[i]] + s[i + 1..j] + [s[j]] + s[j + 1..];
  }

  lemma {:induction false} TwoPositions<T>(s: seq<T>, x: T) returns (i: nat, j: nat)
    requires multiset(s)[x] >= 2
    ensures i < j < |s| && s[i] == x && s[j] == x
  {
    var last := |s| - 1;
    assert s == s[..last] + [s[last]];
    if s[last] == x {
      assert x in multiset(s[..last]);
      i :| 0 <= i < last && s[..last][i] == x;
      j := last;
    } else {
      i, j := TwoPositions(s[..last], x);
    }
  }

  // Two positions of a list have counterparts in every permutation of it.
  lemma {:induction false} Counterparts<T>(a: seq<T>, b: seq<T>, i: nat, j: nat) returns (p: nat, q: nat)
    requires multiset(a) == multiset(b) && i < j < |a|
    ensures p < q < |b| && ((b[p] == a[i] && b[q] == a[j]) || (b[p] == a[j] && b[q] == a[i]))
  {
    if a[i] == a[j] {
      TwoOf(a, i, j);
      p, q := TwoPositions(b, a[i]);
    } else {
      assert a[i] in multiset(b) && a[j] in multiset(b);
      var x :| 0 <= x < |b| && b[x] == a[i];
      var y :| 0 <= y < |b| && b[y] == a[j];
      p, q := if x < y then x else y, if x < y then y else x;
    }
  }

  // Sharing a height does not depend on the order of the list.
  lemma {:induction false} SharedHeights<D>(a: seq<SignedReceipt<D>>, b: seq<SignedReceipt<D>>, i: nat, j: nat)
    returns (p: nat, q: nat)
    requires multiset(a) == multiset(b) && i < j < |a| && HeightOf(a[i]) == HeightOf(a[j])
    ensures p < q < |b| && HeightOf(b[p]) == HeightOf(b[q]) == HeightOf(a[i])
  {
    hide HeightOf;
    p, q := Counterparts(a, b, i, j);
  }

  // Distinct heights come out of the sort in one order only.
  lemma {:induction false} DistinctOrder<D(!new)>(a: seq<SignedReceipt<D>>, b: seq<SignedReceipt<D>>)
    requires multiset(a) == multiset(b) && DistinctHeights(InHeightOrder(a))
    ensures InHeightOrder(b) == InHeightOrder(a)
  {
    var le := (x: SignedReceipt<D>, y: SignedReceipt<D>) => NotHigher(x, y);
    HeightsTotal<D>();
    SortSorted(le, a);
    var s := InHeightOrder(a);
    assert StrictlySorted(le, s) by {
      forall i, j | 0 <= i < j < |s| ensures le(s[i], s[j]) && !le(s[j], s[i]) {
        assert HeightOf(s[i]) != HeightOf(s[j]);
      }
    }
    SortStrict(le, s, b);
  }

  // Receipts that form a chain come out of the sort in chain order, however they are permuted.
  lemma {:induction false} ChainOrder<D(!new)>(v: Verifier<D>, chain: seq<SignedReceipt<D>>,
                                               receipts: seq<SignedReceipt<D>>)
    requires IsChain(v, chain) && multiset(receipts) == multiset(chain)
    ensures InHeightOrder(receipts) == chain
  {
    var le := (a: SignedReceipt<D>, b: SignedReceipt<D>) => NotHigher(a, b);
    var base: nat :| IsBase(v, chain, base);
    assert StrictlySorted(le, chain) by {
      forall i, j | 0 <= i < j < |chain| ensures le(chain[i], chain[j]) && !le(chain[j], chain[i]) {
        assert HasHeight(chain[i], base + i) && HasHeight(chain[j], base + j);
      }
    }
    HeightsTotal<D>();
    SortStrict(le, chain, receipts);
  }

  // The order of the audit written out: by height, a height that is no finite number counting as 2^53 - 1.
  lemma {:induction false} HeightOrderMeans<D(!new)>(a: seq<SignedReceipt<D>>, i: nat, j: nat)
    requires i < j < |a|
    ensures var p, q := InHeightOrder(a)[i], InHeightOrder(a)[j];
      var wellP, wellQ := p.integrity.Some? && p.integrity.value.height.Number?,
                          q.integrity.Some? && q.integrity.value.height.Number?;
      && (wellP && wellQ ==> p.integrity.value.height.value <= q.integrity.value.height.value)
      && (wellP && !wellQ ==> p.integrity.value.height.value <= 9007199254740991.0)
      && (!wellP && wellQ ==> 9007199254740991.0 <= q.integrity.value.height.value)
  {
    OrderSorted(a);
    hide InHeightOrder;
  }

  lemma {:induction false} OrderSorted<D(!new)>(a: seq<SignedReceipt<D>>)
    ensures forall i, j :: 0 <= i < j < |a| ==> HeightOf(InHeightOrder(a)[i]) <= HeightOf(InHeightOrder(a)[j])
  {
    HeightsTotal<D>();
    SortSorted((x: SignedReceipt<D>, y: SignedReceipt<D>) => NotHigher(x, y), a);
  }

  // Below 2^53 a list that passes has no height twice, since each height is one more than the last.
  lemma {:induction false} PassedIsDistinct<D(!new)>(v: Verifier<D>, a: seq<SignedReceipt<D>>)
    requires AuditPasses(v, a) && DistinctFrom(a, TWO_53 as real)
    ensures DistinctHeights(InHeightOrder(a))
  {
    var s := InHeightOrder(a);
    AuditMeans(v, a);
    OrderSorted(a);
    hide InHeightOrder, AuditPasses, OwnChecks, Successor;
    forall i, j | 0 <= i < j < |s| ensures HeightOf(s[i]) != HeightOf(s[j]) {
      if HeightOf(s[i]) == HeightOf(s[j]) {
        if HeightOf(s[i]) >= TWO_53 as real {
          var p, q := SharedHeights(s, a, i, j);
        } else {
          assert HeightOf(s[i]) <= HeightOf(s[i + 1]) && (i + 1 < j ==> HeightOf(s[i + 1]) <= HeightOf(s[j]));
          assert Follows(s[i], s[i + 1]);
          var h := s[i].integrity.value.height.value;
          SuccessorExact(h.Floor);
        }
      }
    }
  }

  // The verdict is the same for every permutation as long as no two receipts share a height of
  // 2^53 or more; duplicate lower heights and malformed ones are rejected in every order.
  lemma {:induction false} AuditOrderFree<D(!new)>(v: Verifier<D>, a: seq<SignedReceipt<D>>, b: seq<SignedReceipt<D>>)
    requires multiset(a) == multiset(b) && DistinctFrom(a, TWO_53 as real)
    ensures AuditPasses(v, a) <==> AuditPasses(v, b)
    ensures AuditPasses(v, a) ==> InHeightOrder(a) == InHeightOrder(b)
  {
    assert DistinctFrom(b, TWO_53 as real) by {
      hide AuditPasses, InHeightOrder, HeightOf;
      forall i, j | 0 <= i < j < |b| && HeightOf(b[i]) >= TWO_53 as real ensures HeightOf(b[i]) != HeightOf(b[j]) {
        if HeightOf(b[i]) == HeightOf(b[j]) {
          var p, q := SharedHeights(b, a, i, j);
        }
      }
    }
    hide AuditPasses, InHeightOrder, DistinctHeights, DistinctFrom, IsLinked;
    AuditMeans(v, a);
    AuditMeans(v, b);
    if AuditPasses(v, a) {
      PassedIsDistinct(v, a);
      DistinctOrder(a, b);
    }
    if AuditPasses(v, b) {
      PassedIsDistinct(v, b);
      DistinctOrder(b, a);
    }
  }

  // No two receipts follow each other both ways.
  ghost predicate OneWay<D>(receipts: seq<SignedReceipt<D>>) {
    forall i, j :: 0 <= i < j < |receipts| ==> !(Follows(receipts[i], receipts[j]) && Follows(receipts[j], receipts[i]))
  }

  lemma {:induction false} OneWayOrderFree<D>(a: seq<SignedReceipt<D>>, b: seq<SignedReceipt<D>>)
    requires multiset(a) == multiset(b) && OneWay(a)
    ensures OneWay(b)
  {
    hide Follows;
    forall i: nat, j: nat | i < j < |b| ensures !(Follows(b[i], b[j]) && Follows(b[j], b[i])) {
      var p, q := Counterparts(b, a, i, j);
    }
  }

  lemma {:induction false} SortedStays<D(!new)>(s: seq<SignedReceipt<D>>)
    requires forall i, j :: 0 <= i < j < |s| ==> HeightOf(s[i]) <= HeightOf(s[j])
    ensures InHeightOrder(s) == s
  {
    hide HeightOf;
    SortStays((a: SignedReceipt<D>, b: SignedReceipt<D>) => NotHigher(a, b), s);
  }

  // Two neighbours link in one order only.
  lemma {:induction false} SwapBreaks<D>(v: Verifier<D>, s: seq<SignedReceipt<D>>, i: nat)
    requires OneWay(s) && IsLinked(v, s) && i + 1 < |s|
    ensures !IsLinked(v, s[i := s[i + 1]][i + 1 := s[i]])
  {
    hide IsLinked, Follows;
    LinkedFollows(v, s, i);
    LinkedFollows(v, s[i := s[i + 1]][i + 1 := s[i]], i);
  }

  lemma {:induction false} LinkedFollows<D>(v: Verifier<D>, s: seq<SignedReceipt<D>>, i: nat)
    requires i + 1 < |s|
    ensures IsLinked(v, s) ==> Follows(s[i], s[i + 1])
  {
    hide Follows, OwnChecks, IsPositiveInteger;
    var j := i + 1;
    assert IsLinked(v, s) ==> Follows(s[j - 1], s[j]);
  }

  // Of the lists that pass in some order, if no two of their receipts follow each other both ways,
  // those that pass in every order are exactly the ones in which no height repeats.
  lemma {:induction false} OrderFreeExactly<D(!new)>(v: Verifier<D>, a: seq<SignedReceipt<D>>)
    requires OneWay(a) && AuditPasses(v, a)
    ensures (forall b :: multiset(b) == multiset(a) ==> AuditPasses(v, b)) <==> DistinctHeights(a)
  {
    var s := InHeightOrder(a);
    AuditMeans(v, a);
    OrderSorted(a);
    hide InHeightOrder, AuditPasses, IsLinked, HeightOf, OneWay;
    if DistinctHeights(a) {
      forall i, j | 0 <= i < j < |s| ensures HeightOf(s[i]) != HeightOf(s[j]) {
        if HeightOf(s[i]) == HeightOf(s[j]) {
          var p, q := SharedHeights(s, a, i, j);
        }
      }
      forall b | multiset(b) == multiset(a) ensures AuditPasses(v, b) {
        DistinctOrder(a, b);
        AuditMeans(v, b);
      }
    } else {
      var i, j :| 0 <= i < j < |a| && HeightOf(a[i]) == HeightOf(a[j]);
      var p, q := SharedHeights(a, s, i, j);
      var b := s[p := s[p + 1]][p + 1 := s[p]];
      assert HeightOf(s[p]) == HeightOf(s[p + 1]) by {
        assert HeightOf(s[p]) <= HeightOf(s[p + 1]) && (p + 1 < q ==> HeightOf(s[p + 1]) <= HeightOf(s[q]));
      }
      forall k, l | 0 <= k < l < |b| ensures HeightOf(b[k]) <= HeightOf(b[l]) {
        SwappedHeights(s, p, k);
        SwappedHeights(s, p, l);
      }
      SortedStays(b);
      SwapMultiset(s, p);
      OneWayOrderFree(a, s);
      SwapBreaks(v, s, p);
      AuditMeans(v, b);
    }
  }

  lemma {:induction false} SwappedHeights<D>(s: seq<SignedReceipt<D>>, p: nat, k: nat)
    requires p + 1 < |s| && k < |s| && HeightOf(s[p]) == HeightOf(s[p + 1])
    ensures HeightOf(s[p := s[p + 1]][p + 1 := s[p]][k]) == HeightOf(s[k])
  {
    hide HeightOf;
  }

  lemma {:induction false} SwapMultiset<T>(s: seq<T>, p: nat)
    requires p + 1 < |s|
    ensures multiset(s[p := s[p + 1]][p + 1 := s[p]]) == multiset(s)
  {
    var x, y, t := s[p], s[p + 1], s[p := s[p + 1]];
    assert multiset(t) == multiset(s) - multiset{x} + multiset{y};
    assert multiset(t[p + 1 := x]) == multiset(t) - multiset{y} + multiset{x};
    assert x in multiset(s);
  }

  // A receipt at height 2^53 in a small world where every hash is one more than the link.
  function EdgeVerifier(): Verifier<int> {
    Verifier((body: Body<int>) => body.previousHash + 1, (_, _, _, _) => true, map["k" := "key"], 0)
  }

  function EdgeReceipt(content: string, previousHash: int): SignedReceipt<int> {
    SignedReceipt(Text("t"), content, content, Some(Integrity(previousHash, previousHash + 1, Number(TWO_53 as real))),
                  true, true, [Signature(true, "k", "sig")], false)
  }

  lemma {:induction false} EdgeChecks(content: string, previousHash: int)
    ensures OwnChecks(EdgeVerifier(), EdgeReceipt(content, previousHash))
    ensures IsPositiveInteger(Number(TWO_53 as real))
  {
    var r := EdgeReceipt(content, previousHash);
    assert SignatureOk(EdgeVerifier(), r.Hashed(), previousHash + 1, r.signatures[0]);
    RealFloor(TWO_53);
  }

  lemma {:induction false} EdgeLinked()
    ensures IsLinked(EdgeVerifier(), [EdgeReceipt("a", 5), EdgeReceipt("b", 6)])
  {
    EdgeChecks("a", 5);
    EdgeChecks("b", 6);
    hide OwnChecks, IsPositiveInteger, Successor;
    SuccessorStuck();
    assert Follows(EdgeReceipt("a", 5), EdgeReceipt("b", 6));
  }

  // Such lists exist: two receipts at height 2^53, of which the second links to the first, pass in
  // that order and fail in the other.
  lemma {:induction false} OrderMattersAtTheEdge()
    ensures var v, a, b := EdgeVerifier(), EdgeReceipt("a", 5), EdgeReceipt("b", 6);
            && HeightOf(a) == HeightOf(b) == TWO_53 as real
            && AuditPasses(v, [a, b]) && !AuditPasses(v, [b, a])
  {
    var v, a, b := EdgeVerifier(), EdgeReceipt("a", 5), EdgeReceipt("b", 6);
    EdgeLinked();
    NotLinkedBack(v, a, b);
    hide EdgeVerifier, IsLinked, AuditPasses, InHeightOrder;
    SortedStays([a, b]);
    SortedStays([b, a]);
    AuditMeans(v, [a, b]);
    AuditMeans(v, [b, a]);
  }

  lemma {:induction false} NotLinkedBack<D>(v: Verifier<D>, a: SignedReceipt<D>, b: SignedReceipt<D>)
    requires a.integrity.Some? && b.integrity.Some?
    requires a.integrity.value.previousHash != b.integrity.value.receiptHash
    ensures !IsLinked(v, [b, a])
  {
    LinkedFollows(v, [b, a], 0);
  }

  // ---------- what acceptance proves of the receipts ----------

  // In an accepted list every receipt has the hash of its own fields and an EdDSA signature over them
  // that verifies under the key supplied for it; none has a malformed envelope or a mismatched imprint.
  lemma {:induction false} AcceptedIsSound<D(!new)>(v: Verifier<D>, receipts: seq<SignedReceipt<D>>,
                                                    r: SignedReceipt<D>)
    requires AuditPasses(v, receipts) && r in receipts
    ensures r.integrity.Some? && r.wellFormed && r.canonicalizes && !r.imprintMismatch
    ensures var i := r.integrity.value;
      var body := Body(r.tenant, r.id, r.content, i.previousHash, i.height);
      && i.receiptHash == v.hash(body)
      && exists s :: s in r.signatures && s.isEdDSA && s.kid in v.keys && v.keys[s.kid] != ""
                     && v.verify(body, i.receiptHash, s.sig, v.keys[s.kid])
  {
    var s := InHeightOrder(receipts);
    assert r in multiset(receipts);
    assert r in multiset(s);
    var k :| 0 <= k < |s| && s[k] == r;
    hide InHeightOrder;
    assert PositionOk(v, FirstTenant(receipts), s, k);
    ValidMeans(v, r, if k == 0 then None else s[k - 1].integrity);
  }

  // The key of an entry accepts these bodies only.
  ghost predicate SignsOnly<D(!new)>(v: Verifier<D>, signed: Body<D> -> bool) {
    forall body, hash, sig, kid :: kid in v.keys && v.verify(body, hash, sig, v.keys[kid]) ==> signed(body)
  }

  // Nothing is accepted that was not signed: if the supplied keys verify signatures over bodies from
  // some set only, the body of every receipt of an accepted list, with all its fields, is in that set.
  lemma {:induction false} AcceptedIsSigned<D(!new)>(v: Verifier<D>, receipts: seq<SignedReceipt<D>>,
                                                     r: SignedReceipt<D>, signed: Body<D> -> bool)
    requires AuditPasses(v, receipts) && r in receipts && SignsOnly(v, signed)
    ensures r.integrity.Some?
    ensures signed(Body(r.tenant, r.id, r.content, r.integrity.value.previousHash, r.integrity.value.height))
  {
    hide AuditPasses;
    AcceptedIsSound(v, receipts, r);
  }

  // A list with one forged receipt is refused: no entry of it verifies.
  lemma {:induction false} ForgedIsRefused<D(!new)>(v: Verifier<D>, receipts: seq<SignedReceipt<D>>,
                                                    r: SignedReceipt<D>)
    requires r in receipts && r.integrity.Some?
    requires forall s :: s in r.signatures && s.kid in v.keys ==>
      !v.verify(Body(r.tenant, r.id, r.content, r.integrity.value.previousHash, r.integrity.value.height),
                r.integrity.value.receiptHash, s.sig, v.keys[s.kid])
    ensures !AuditPasses(v, receipts)
  {
    if AuditPasses(v, receipts) {
      hide AuditPasses;
      AcceptedIsSound(v, receipts, r);
    }
  }

  // The tenant that is reported is that of the first receipt that names one.
  lemma {:induction false} FirstTenantNamed<D>(receipts: seq<SignedReceipt<D>>, i: nat)
    requires i <= |receipts| && forall j :: 0 <= j < i ==> !receipts[j].tenant.Text?
    requires i < |receipts| ==> receipts[i].tenant.Text?
    ensures FirstTenant(receipts) == if i == |receipts| then Null else receipts[i].tenant
    decreases i
  {
    if i > 0 {
      FirstTenantNamed(receipts[1..], i - 1);
    }
  }

  // ---------- the head hash fixes history ----------

  ghost predicate InjectiveHash<D(!new)>(hash: Body<D> -> D) {
    forall a, b :: hash(a) == hash(b) ==> a == b
  }

  ghost predicate SamePrefix<D>(a: seq<SignedReceipt<D>>, b: seq<SignedReceipt<D>>, n: nat) {
    && n <= |a| && n <= |b|
    && forall i :: 0 <= i < n ==>
         a[i].integrity.Some? && a[i].integrity == b[i].integrity
         && a[i].tenant == b[i].tenant && a[i].id == b[i].id && a[i].content == b[i].content
  }

  // Only the first of a list from genesis has height 1.
  lemma {:induction false} OneIsFirst<D>(v: Verifier<D>, s: seq<SignedReceipt<D>>, p: nat)
    requires IsLinked(v, s) && p < |s| && s[p].integrity.value.height == Number(1.0)
    ensures p == 0
  {
    hide Successor, OwnChecks;
    if p > 0 {
      assert Follows(s[p - 1], s[p]);
      SuccessorAboveOne(s[p - 1].integrity.value.height.value);
    }
  }

  // Equal hashes at two positions force everything before them to be equal.
  lemma {:induction false} HashFixesPrefix<D(!new)>(v: Verifier<D>, a: seq<SignedReceipt<D>>, p: nat,
                                                    b: seq<SignedReceipt<D>>, q: nat)
    requires InjectiveHash(v.hash) && IsLinked(v, a) && IsLinked(v, b)
    requires StartsAtGenesis(v, a) && StartsAtGenesis(v, b) && p < |a| && q < |b|
    requires a[p].integrity.value.receiptHash == b[q].integrity.value.receiptHash
    ensures p == q && SamePrefix(a, b, p + 1)
    decreases p
  {
    hide Successor, IsPositiveInteger;
    assert OwnChecks(v, a[p]) && OwnChecks(v, b[q]);
    assert a[p].Hashed() == b[q].Hashed();
    if p == 0 {
      OneIsFirst(v, b, q);
    } else if q == 0 {
      OneIsFirst(v, a, p);
    } else {
      assert Follows(a[p - 1], a[p]) && Follows(b[q - 1], b[q]);
      HashFixesPrefix(v, a, p - 1, b, q - 1);
    }
  }

  // Two lists that verifyChain accepts as complete from genesis and whose last hashes are equal
  // have the same length and identical bodies throughout, whatever their heights.
  lemma {:induction false} AuditedHeadFixesHistory<D(!new)>(v: Verifier<D>, a: seq<SignedReceipt<D>>,
                                                            b: seq<SignedReceipt<D>>)
    requires InjectiveHash(v.hash) && AuditPasses(v, a) && AuditPasses(v, b)
    requires var s, t := InHeightOrder(a), InHeightOrder(b);
      && StartsAtGenesis(v, s) && StartsAtGenesis(v, t)
      && s[|s| - 1].integrity.Some? && t[|t| - 1].integrity.Some?
      && s[|s| - 1].integrity.value.receiptHash == t[|t| - 1].integrity.value.receiptHash
    ensures |a| == |b| && SamePrefix(InHeightOrder(a), InHeightOrder(b), |a|)
  {
    hide AuditPasses, IsLinked, InHeightOrder, SamePrefix;
    AuditMeans(v, a);
    AuditMeans(v, b);
    HashFixesPrefix(v, InHeightOrder(a), |a| - 1, InHeightOrder(b), |b| - 1);
  }
}
