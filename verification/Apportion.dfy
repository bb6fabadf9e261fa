// Expansion of a usage bill into receipts: splitEvenly and receiptsFromWorkloads of
// src/cost/ingest.ts. Counts are integers. The definitions take the arithmetic as a parameter: exact,
// or binary64 as the code runs.
module Apportion {
  import opened Doubles

  datatype Arithmetic = Exact | Binary64

  datatype Workload = Workload(app: string, requests: int, inputTotal: nat, outputTotal: nat)

  datatype Receipt = Receipt(workload: Workload, input: int, output: int, index: nat)

  datatype IngestResult = IngestResult(
    receipts: seq<Receipt>, totalRequests: int, scale: real, sampled: bool, residual: real)

  // The result of one operation.
  function Fl(ar: Arithmetic, x: real): real {
    if ar.Exact? then x else ToDouble(x)
  }

  function FlInt(ar: Arithmetic, k: int): int {
    Fl(ar, k as real).Floor
  }

  // The relative error of one operation is at most this.
  function Eps(ar: Arithmetic): real {
    if ar.Exact? then 0.0 else 1.0 / TWO_53 as real
  }

  // Doubles hold every product that splitting the total takes.
  predicate Fits(ar: Arithmetic, total: int, n: int) {
    ar.Exact? || (0 <= total && n * total <= TWO_53)
  }

  // Math.round
  function Round(x: real): int {
    (x + 0.5).Floor
  }

  function Abs(x: real): real {
    if x < 0.0 then -x else x
  }

  lemma {:induction false} FlError(ar: Arithmetic, x: real)
    ensures Abs(Fl(ar, x) - x) <= Eps(ar) * Abs(x)
  {
    hide RoundPositive;
    if x > 0.0 {
      RelativeError(x);
    } else if x < 0.0 {
      RelativeError(-x);
    }
  }

  lemma {:induction false} FlSign(ar: Arithmetic, x: real)
    ensures Fl(ar, x) > 0.0 <==> x > 0.0
    ensures Fl(ar, x) == 0.0 <==> x == 0.0
  {
    hide RoundPositive;
    if x > 0.0 {
      RelativeError(x);
    } else if x < 0.0 {
      RelativeError(-x);
    }
  }

  lemma {:induction false} FlInteger(ar: Arithmetic, k: int)
    requires ar.Exact? || -TWO_53 <= k <= TWO_53
    ensures Fl(ar, k as real) == k as real && FlInt(ar, k) == k
  {
    hide ToDouble;
    if ar == Binary64 {
      IntegerExact(k);
    }
  }

  // ---------- splitEvenly ----------

  // What the parts before part i add up to.
  function Cumulative(ar: Arithmetic, total: int, n: int, i: int): int
    requires n > 0
  {
    Fl(ar, Fl(ar, (i * total) as real) / n as real).Floor
  }

  function SplitEvenly(ar: Arithmetic, total: int, n: int, i: int): int {
    if n <= 0 then 0 else FlInt(ar, Cumulative(ar, total, n, i + 1) - Cumulative(ar, total, n, i))
  }

  // The first k parts together.
  function PartSum(ar: Arithmetic, total: int, n: int, k: nat): int {
    if k == 0 then 0 else PartSum(ar, total, n, k - 1) + SplitEvenly(ar, total, n, k - 1)
  }

  // Every boundary is an integer that doubles hold.
  ghost predicate Bounded(ar: Arithmetic, total: int, n: int)
    requires n > 0
  {
    ar.Exact? || forall i :: 0 <= i <= n ==> 0 <= Cumulative(ar, total, n, i) <= TWO_53
  }

  lemma {:induction false} PartsTelescope(ar: Arithmetic, total: int, n: int, k: nat)
    requires n > 0 && k <= n && Bounded(ar, total, n)
    ensures PartSum(ar, total, n, k) == Cumulative(ar, total, n, k)
  {
    if k == 0 {
      assert 0 * total == 0;
    } else {
      hide Cumulative, Fl;
      PartsTelescope(ar, total, n, k - 1);
      FlInteger(ar, Cumulative(ar, total, n, k) - Cumulative(ar, total, n, k - 1));
    }
  }

  lemma {:induction false} TimesOrdered(i: int, n: int, x: int)
    requires 0 <= i <= n && x >= 0
    ensures 0 <= i * x <= n * x
  {
    assert (n - i) * x >= 0;
  }

  // While n x total is at most 2^53 every boundary is the exact one.
  lemma {:induction false} CumulativeExact(ar: Arithmetic, total: int, n: int, i: int)
    requires n > 0 && 0 <= i <= n && Fits(ar, total, n)
    ensures Cumulative(ar, total, n, i) == i * total / n
  {
    hide ToDouble;
    var k := i * total;
    if ar == Binary64 {
      TimesOrdered(i, n, total);
      IntegerExact(k);
      RoundedQuotient(k, n);
    } else {
      FloorOfQuotient(k, n);
    }
  }

  lemma {:induction false} QuotientIs(q: int, n: int, r: int)
    requires n > 0 && 0 <= r < n
    ensures (q * n + r) / n == q
  {
    var a := q * n + r;
    assert (a / n - q) * n == r - a % n;
    Pinned(a / n - q, n, r - a % n);
  }

  lemma {:induction false} Pinned(x: int, n: int, y: int)
    requires n > 0 && x * n == y && -n < y
    ensures x >= 0 && (y < n ==> x == 0) && (y < 2 * n ==> x <= 1)
  {
    assert x <= -1 ==> x * n <= -1 * n;
    assert x >= 1 ==> x * n >= 1 * n;
    assert x >= 2 ==> x * n >= 2 * n;
  }

  lemma {:induction false} QuotientRange(k: int, n: int)
    requires n > 0 && k >= 0
    ensures 0 <= k / n <= k
  {
    var q, r := k / n, k % n;
    assert q * n == k - r;
    Pinned(q, n, k - r);
    assert (q - k) * n == k - r - k * n;
    assert k * n >= k;
    assert q - k >= 1 ==> (q - k) * n >= n;
  }

  lemma {:induction false} BoundaryRange(total: int, n: int, i: int)
    requires n > 0 && 0 <= i <= n && 0 <= total && n * total <= TWO_53
    ensures 0 <= i * total / n <= TWO_53
  {
    TimesOrdered(i, n, total);
    QuotientRange(i * total, n);
  }

  // The parts add up to the total, and each is the mean rounded down or one more: in exact
  // arithmetic always, in doubles while n x total is at most 2^53.
  lemma {:induction false} SplitIsExact(ar: Arithmetic, total: int, n: int)
    requires n > 0 && Fits(ar, total, n)
    ensures PartSum(ar, total, n, n) == total
    ensures forall i :: 0 <= i < n ==> SplitEvenly(ar, total, n, i) in {total / n, total / n + 1}
    ensures forall k :: 0 <= k <= n ==> PartSum(ar, total, n, k) == k * total / n
  {
    hide Cumulative, SplitEvenly, PartSum;
    forall i | 0 <= i <= n
      ensures Cumulative(ar, total, n, i) == i * total / n && (ar == Binary64 ==> 0 <= i * total / n <= TWO_53)
    {
      CumulativeExact(ar, total, n, i);
      if ar == Binary64 {
        BoundaryRange(total, n, i);
      }
    }
    PartsTelescope(ar, total, n, n);
    QuotientIs(total, n, 0);
    forall i | 0 <= i < n ensures SplitEvenly(ar, total, n, i) in {total / n, total / n + 1} {
      PartIsMean(ar, total, n, i);
    }
    forall k | 0 <= k <= n ensures PartSum(ar, total, n, k) == k * total / n {
      PartsTelescope(ar, total, n, k);
    }
  }

  lemma {:induction false} PartIsMean(ar: Arithmetic, total: int, n: int, i: int)
    requires n > 0 && 0 <= i < n && Fits(ar, total, n)
    ensures SplitEvenly(ar, total, n, i) in {total / n, total / n + 1}
  {
    hide Cumulative, FlInt;
    CumulativeExact(ar, total, n, i + 1);
    CumulativeExact(ar, total, n, i);
    var part := (i + 1) * total / n - i * total / n;
    MeanPart(total, n, i);
    if ar == Binary64 {
      BoundaryRange(total, n, i + 1);
      BoundaryRange(total, n, i);
    }
    FlInteger(ar, part);
  }

  lemma {:induction false} MeanPart(total: int, n: int, i: int)
    requires n > 0
    ensures (i + 1) * total / n - i * total / n in {total / n, total / n + 1}
  {
    var upper, lower := (i + 1) * total, i * total;
    assert upper - lower == total;
    var x := upper / n - lower / n - total / n;
    var y := total % n - upper % n + lower % n;
    assert x * n == y;
    Pinned(x, n, y);
  }

  // ---------- where the parts miss the total ----------

  lemma {:induction false} Divided(a: real, b: real, n: real)
    requires n > 0.0 && a * n < b * n
    ensures a < b
  {
    assert a >= b ==> (a - b) * n >= 0.0;
  }

  // A rounded product, divided, is within one part in 2^53 of the exact quotient.
  lemma {:induction false} QuotientShift(k: real, p: real, n: real, x: real, z: real)
    requires n > 0.0 && x * n == k && z * n == p && -k < (p - k) * TWO_53 as real < k
    ensures -x < (z - x) * TWO_53 as real < x
  {
    var e := (z - x) * TWO_53 as real;
    Sum(z, -x, n);
    assert e * n == (p - k) * TWO_53 as real;
    assert (-x) * n == -k;
    Divided(e, x, n);
    Divided(-x, e, n);
  }

  lemma {:induction false} NearQuotient(k: int, n: int, total: int, x: real, z: real)
    requires n > 0 && k > 0 && 0 <= total <= MAX_SAFE_INTEGER && 0.0 < x <= total as real
    requires x * n as real == k as real && z * n as real == ToDouble(k as real)
    ensures 0.0 <= ToDouble(z) <= TWO_53 as real && Abs(ToDouble(z) - x) < 0.5 + total as real / TWO_53 as real
  {
    hide RoundPositive;
    RelativeError(k as real);
    QuotientShift(k as real, ToDouble(k as real), n as real, x, z);
    HalfUnit(z);
    Monotone(z, TWO_53 as real);
    IntegerExact(TWO_53);
  }

  lemma {:induction false} QuotientUpTo(k: int, n: int, total: int, x: real)
    requires n > 0 && 0 <= k <= n * total && x * n as real == k as real
    ensures 0.0 <= x <= total as real && (k == n * total ==> x == total as real) && (x == 0.0 <==> k == 0)
  {
    assert (n * total) as real == total as real * n as real;
    assert x < 0.0 ==> x * n as real < 0.0;
    assert x > 0.0 ==> x * n as real > 0.0;
    assert x > total as real ==> (x - total as real) * n as real > 0.0;
    assert x < total as real ==> (total as real - x) * n as real > 0.0;
  }

  // A boundary of a safe total before it is rounded down, as computed (d) and exact (x).
  lemma {:induction false} BoundaryNear(total: int, n: int, i: int) returns (d: real, x: real)
    requires n > 0 && 0 <= i <= n && 0 <= total <= MAX_SAFE_INTEGER
    ensures Cumulative(Binary64, total, n, i) == d.Floor && i * total / n == x.Floor
    ensures 0.0 <= x <= total as real && (i == n ==> x == total as real) && 0.0 <= d <= TWO_53 as real
    ensures d == x || Abs(d - x) < 0.5 + total as real / TWO_53 as real
  {
    hide Cumulative, ToDouble;
    var k := i * total;
    TimesOrdered(i, n, total);
    FloorOfQuotient(k, n);
    x := k as real / n as real;
    var z := ToDouble(k as real) / n as real;
    d := ToDouble(z);
    CumulativeIs(total, n, i, k, d);
    QuotientTimes(k as real, n);
    QuotientTimes(ToDouble(k as real), n);
    QuotientUpTo(k, n, total, x);
    if k > 0 {
      NearQuotient(k, n, total, x, z);
    } else {
      NothingRounds(z, n);
    }
  }

  lemma {:induction false} CumulativeIs(total: int, n: int, i: int, k: int, d: real)
    requires n > 0 && k == i * total && d == ToDouble(ToDouble(k as real) / n as real)
    ensures Cumulative(Binary64, total, n, i) == d.Floor
  {
    hide ToDouble;
  }

  lemma {:induction false} QuotientTimes(a: real, n: int)
    requires n > 0
    ensures a / n as real * n as real == a
  {
  }

  lemma {:induction false} NothingRounds(z: real, n: int)
    requires n > 0 && z * n as real == ToDouble(0.0)
    ensures ToDouble(z) == 0.0
  {
    assert z < 0.0 ==> z * n as real < 0.0;
    assert z > 0.0 ==> z * n as real > 0.0;
  }

  lemma {:induction false} CumulativeRange(ar: Arithmetic, total: int, n: int, i: int)
    requires n > 0 && 0 <= i <= n && 0 <= total <= MAX_SAFE_INTEGER && ar == Binary64
    ensures 0 <= Cumulative(ar, total, n, i) <= TWO_53
  {
    var d, x := BoundaryNear(total, n, i);
    hide Cumulative;
  }

  lemma {:induction false} SafeIsBounded(ar: Arithmetic, total: int, n: int)
    requires n > 0 && (ar.Exact? || 0 <= total <= MAX_SAFE_INTEGER)
    ensures Bounded(ar, total, n)
  {
    hide Cumulative;
    if ar == Binary64 {
      forall i | 0 <= i <= n ensures 0 <= Cumulative(ar, total, n, i) <= TWO_53 {
        CumulativeRange(ar, total, n, i);
      }
    }
  }

  // The parts of a safe total add up to it exactly when the last boundary,
  // floor(n x total / n) as computed, is the total.
  lemma {:induction false} SplitExactly(ar: Arithmetic, total: int, n: int)
    requires n > 0 && (ar.Exact? || 0 <= total <= MAX_SAFE_INTEGER)
    ensures PartSum(ar, total, n, n) == total <==> Cumulative(ar, total, n, n) == total
  {
    hide Cumulative, PartSum, Bounded;
    SafeIsBounded(ar, total, n);
    PartsTelescope(ar, total, n, n);
  }

  // How far a boundary of a safe total can be off.
  function Off(total: int): int {
    if total <= TWO_52 then 1 else 2
  }

  lemma {:induction false} BoundaryOff(total: int, n: int, i: int)
    requires n > 0 && 0 <= i <= n && 0 <= total <= MAX_SAFE_INTEGER
    ensures -Off(total) <= Cumulative(Binary64, total, n, i) - i * total / n <= Off(total)
    ensures i == n ==> total - Off(total) <= Cumulative(Binary64, total, n, i) < total + Off(total)
  {
    var d, x := BoundaryNear(total, n, i);
    hide Cumulative;
    assert total <= TWO_52 ==> total as real / TWO_53 as real <= 0.5;
    assert total as real / TWO_53 as real < 1.0;
  }

  // Boundaries rise, because rounding keeps order.
  lemma {:induction false} BoundaryRises(total: int, n: int, i: int)
    requires n > 0 && 0 <= i < n && 0 <= total <= MAX_SAFE_INTEGER
    ensures Cumulative(Binary64, total, n, i) <= Cumulative(Binary64, total, n, i + 1)
  {
    TimesOrdered(i, i + 1, total);
    var p, p' := ToDouble((i * total) as real), ToDouble(((i + 1) * total) as real);
    Monotone((i * total) as real, ((i + 1) * total) as real);
    hide ToDouble;
    var z, z' := p / n as real, p' / n as real;
    assert z * n as real == p && z' * n as real == p';
    assert z > z' ==> (z - z') * n as real > 0.0;
    assert z < 0.0 ==> z * n as real < 0.0;
    Monotone(z, z');
    FloorRises(ToDouble(z), ToDouble(z'));
  }

  lemma {:induction false} FloorRises(x: real, y: real)
    requires x <= y
    ensures x.Floor <= y.Floor
  {
  }

  // Wherever the product goes, in doubles the parts of a total up to 2^52 add up to it or to one
  // less, and no part is negative or more than two below or three above the mean rounded down. From
  // there to 2^53 the sum is at most two below and one above, and a part four below and five above.
  lemma {:induction false} SplitNearly(total: int, n: int)
    requires n > 0 && 0 <= total <= MAX_SAFE_INTEGER
    ensures total - Off(total) <= PartSum(Binary64, total, n, n) < total + Off(total)
    ensures forall i :: 0 <= i < n ==>
      && 0 <= SplitEvenly(Binary64, total, n, i)
      && -2 * Off(total) <= SplitEvenly(Binary64, total, n, i) - total / n <= 2 * Off(total) + 1
  {
    hide Cumulative, PartSum, Bounded, SplitEvenly;
    SafeIsBounded(Binary64, total, n);
    PartsTelescope(Binary64, total, n, n);
    BoundaryOff(total, n, n);
    forall i | 0 <= i < n
      ensures 0 <= SplitEvenly(Binary64, total, n, i)
      ensures -2 * Off(total) <= SplitEvenly(Binary64, total, n, i) - total / n <= 2 * Off(total) + 1
    {
      PartNearly(total, n, i);
    }
  }

  lemma {:induction false} PartNearly(total: int, n: int, i: int)
    requires n > 0 && 0 <= i < n && 0 <= total <= MAX_SAFE_INTEGER
    ensures 0 <= SplitEvenly(Binary64, total, n, i)
    ensures -2 * Off(total) <= SplitEvenly(Binary64, total, n, i) - total / n <= 2 * Off(total) + 1
  {
    hide Cumulative, FlInt;
    BoundaryOff(total, n, i);
    BoundaryOff(total, n, i + 1);
    BoundaryRises(total, n, i);
    MeanPart(total, n, i);
    CumulativeRange(Binary64, total, n, i);
    CumulativeRange(Binary64, total, n, i + 1);
    FlInteger(Binary64, Cumulative(Binary64, total, n, i + 1) - Cumulative(Binary64, total, n, i));
  }

  const LONG_REQUESTS: int := 199339
  const LONG_TOKENS: int := 45248239363

  lemma {:induction false} LongProduct()
    ensures Fl(Binary64, (LONG_REQUESTS * LONG_TOKENS) as real) == (LONG_REQUESTS * LONG_TOKENS - 1) as real
  {
    var y := (LONG_REQUESTS * LONG_TOKENS) as real;
    assert (y / 2.0).Floor == 4509869393190528;
    assert RoundLarge(y / 2.0) == 4509869393190528 as real;
  }

  lemma {:induction false} DoubledFour(x: real, j: nat, p: real)
    requires Doubled(x, j) == p * x
    ensures Doubled(x, j + 4) == 16.0 * p * x
  {
    assert Doubled(x, j + 1) == 2.0 * p * x;
    assert Doubled(x, j + 2) == 4.0 * p * x;
    assert Doubled(x, j + 3) == 8.0 * p * x;
  }

  lemma {:induction false} Doubled17(x: real)
    ensures Doubled(x, 17) == 131072.0 * x
  {
    assert Doubled(x, 0) == 1.0 * x;
    assert Doubled(x, 1) == 2.0 * Doubled(x, 0);
    hide Doubled;
    DoubledFour(x, 1, 2.0);
    DoubledFour(x, 5, 32.0);
    DoubledFour(x, 9, 512.0);
    DoubledFour(x, 13, 8192.0);
  }

  lemma {:induction false} LongQuotient()
    ensures Fl(Binary64, (LONG_REQUESTS * LONG_TOKENS - 1) as real / LONG_REQUESTS as real)
         == LONG_TOKENS as real - 1.0 / 131072.0
  {
    var z := (LONG_REQUESTS * LONG_TOKENS - 1) as real / LONG_REQUESTS as real;
    var far := 131072.0 * z;
    var f := LONG_TOKENS * 131072 - 1;
    assert far.Floor == f;
    assert RoundLarge(far) == f as real;
    RoundDoubled(z, 17);
    Doubled17(z);
    Doubled17(RoundPositive(z));
  }

  // A bill of this many requests and tokens is within the default cap, and its parts lose a token:
  // the product is past 2^53 and the last boundary one below the total.
  lemma {:induction false} SplitFallsShort()
    ensures PartSum(Binary64, LONG_TOKENS, LONG_REQUESTS, LONG_REQUESTS) == LONG_TOKENS - 1
  {
    hide PartSum, Fl, Bounded;
    SafeIsBounded(Binary64, LONG_TOKENS, LONG_REQUESTS);
    hide Cumulative;
    PartsTelescope(Binary64, LONG_TOKENS, LONG_REQUESTS, LONG_REQUESTS);
    LongBoundary();
  }

  lemma {:induction false} LongBoundary()
    ensures Cumulative(Binary64, LONG_TOKENS, LONG_REQUESTS, LONG_REQUESTS) == LONG_TOKENS - 1
  {
    hide Fl;
    LongProduct();
    LongQuotient();
  }

  // ---------- how many receipts ----------

  function Live(workloads: seq<Workload>): (r: seq<Workload>)
    ensures forall i :: 0 <= i < |r| ==> r[i].requests > 0
  {
    if workloads == [] then []
    else
      var last := workloads[|workloads| - 1];
      Live(workloads[..|workloads| - 1]) + if last.requests > 0 then [last] else []
  }

  function Requests(ar: Arithmetic, rows: seq<Workload>): int {
    if rows == [] then 0 else FlInt(ar, Requests(ar, rows[..|rows| - 1]) + rows[|rows| - 1].requests)
  }

  // targetScale; a cap of zero makes it infinite.
  function Target(ar: Arithmetic, total: int, cap: real): (target: real)
    requires total != 0 && cap != 0.0
    ensures target != 0.0
  {
    var x := total as real / cap;
    assert x * cap == total as real;
    FlSign(ar, x);
    Fl(ar, x)
  }

  // requests / targetScale
  function Quota(ar: Arithmetic, requests: int, total: int, cap: real): real {
    if total as real <= cap then requests as real
    else if cap == 0.0 || total == 0 then 0.0
    else Fl(ar, requests as real / Target(ar, total, cap))
  }

  function CountOf(ar: Arithmetic, requests: int, total: int, cap: real): (n: int)
    ensures n >= 1
  {
    var n := Round(Quota(ar, requests, total, cap));
    if n < 1 then 1 else n
  }

  // The number of receipts, which is the length of a list and so exact.
  function Emitted(ar: Arithmetic, rows: seq<Workload>, total: int, cap: real): (n: nat)
    ensures n >= |rows|
  {
    if rows == [] then 0
    else Emitted(ar, rows[..|rows| - 1], total, cap) + CountOf(ar, rows[|rows| - 1].requests, total, cap)
  }

  function Scale(ar: Arithmetic, total: int, emitted: int): real {
    if emitted > 0 then Fl(ar, total as real / emitted as real) else 1.0
  }

  // The rescaled receipt count of a row.
  function Rescaled(ar: Arithmetic, n: int, scale: real): real {
    Fl(ar, n as real * scale)
  }

  // How far it is from the row's requests.
  function RowDrift(ar: Arithmetic, requests: int, n: int, scale: real): real {
    Abs(Fl(ar, Rescaled(ar, n, scale) - requests as real))
  }

  function Drift(ar: Arithmetic, rows: seq<Workload>, total: int, cap: real, scale: real): real {
    if rows == [] then 0.0
    else
      var w := rows[|rows| - 1];
      Fl(ar, Drift(ar, rows[..|rows| - 1], total, cap, scale)
             + RowDrift(ar, w.requests, CountOf(ar, w.requests, total, cap), scale))
  }

  function Residual(ar: Arithmetic, total: int, drift: real): real {
    if total > 0 then Fl(ar, drift / (2.0 * total as real)) else 0.0
  }

  // ---------- the receipts ----------

  // Share of a token total, before it is split.
  function Share(ar: Arithmetic, tokens: int, scale: real): int
    requires scale > 0.0
  {
    Round(Fl(ar, tokens as real / scale))
  }

  // The first k receipts of a row, numbered from `start`.
  function RowReceipts(ar: Arithmetic, w: Workload, scale: real, n: int, k: nat, start: nat): (r: seq<Receipt>)
    requires scale > 0.0
    ensures |r| == k
  {
    if k == 0 then []
    else
      RowReceipts(ar, w, scale, n, k - 1, start)
      + [Receipt(w, SplitEvenly(ar, Share(ar, w.inputTotal, scale), n, k - 1),
                 SplitEvenly(ar, Share(ar, w.outputTotal, scale), n, k - 1), start + k - 1)]
  }

  function AllOfRow(ar: Arithmetic, w: Workload, total: int, cap: real, scale: real, start: nat): (r: seq<Receipt>)
    requires scale > 0.0
    ensures |r| == CountOf(ar, w.requests, total, cap)
  {
    var n := CountOf(ar, w.requests, total, cap);
    RowReceipts(ar, w, scale, n, n, start)
  }

  function AllReceipts(ar: Arithmetic, rows: seq<Workload>, total: int, cap: real, scale: real): (r: seq<Receipt>)
    requires scale > 0.0
    ensures |r| == Emitted(ar, rows, total, cap)
  {
    if rows == [] then []
    else
      var w := rows[|rows| - 1];
      var before := AllReceipts(ar, rows[..|rows| - 1], total, cap, scale);
      before + AllOfRow(ar, w, total, cap, scale, |before|)
  }

  lemma {:induction false} FlIntPositive(ar: Arithmetic, k: int)
    requires k > 0
    ensures FlInt(ar, k) > 0
  {
    hide Fl;
    if k <= TWO_53 {
      FlInteger(ar, k);
    } else {
      FlError(ar, k as real);
    }
  }

  lemma {:induction false} RequestsPositive(ar: Arithmetic, rows: seq<Workload>)
    requires forall i :: 0 <= i < |rows| ==> rows[i].requests > 0
    ensures Requests(ar, rows) >= 0 && (rows == [] <==> Requests(ar, rows) == 0)
  {
    hide FlInt;
    if rows != [] {
      var front, last := rows[..|rows| - 1], rows[|rows| - 1];
      RequestsPositive(ar, front);
      FlIntPositive(ar, Requests(ar, front) + last.requests);
    }
  }

  lemma {:induction false} ScalePositive(ar: Arithmetic, total: int, emitted: int)
    requires total > 0 || emitted <= 0
    ensures Scale(ar, total, emitted) > 0.0
  {
    hide Fl;
    if emitted > 0 {
      var x := total as real / emitted as real;
      assert x * emitted as real == total as real;
      FlSign(ar, x);
    }
  }

  function ScaleOf(ar: Arithmetic, rows: seq<Workload>, cap: real): (s: real)
    requires forall i :: 0 <= i < |rows| ==> rows[i].requests > 0
    ensures s > 0.0
  {
    RequestsPositive(ar, rows);
    var total := Requests(ar, rows);
    var emitted := Emitted(ar, rows, total, cap);
    ScalePositive(ar, total, emitted);
    Scale(ar, total, emitted)
  }

  function Ingest(ar: Arithmetic, workloads: seq<Workload>, cap: real): IngestResult {
    var rows := Live(workloads);
    var total, scale := Requests(ar, rows), ScaleOf(ar, rows, cap);
    IngestResult(AllReceipts(ar, rows, total, cap, scale), total, scale, total as real > cap,
                 Residual(ar, total, Drift(ar, rows, total, cap, scale)))
  }

  lemma {:induction false} TotalsSnoc(ar: Arithmetic, rows: seq<Workload>, k: nat, total: int, cap: real)
    requires k < |rows|
    ensures Requests(ar, rows[..k + 1]) == FlInt(ar, Requests(ar, rows[..k]) + rows[k].requests)
    ensures Emitted(ar, rows[..k + 1], total, cap)
         == Emitted(ar, rows[..k], total, cap) + CountOf(ar, rows[k].requests, total, cap)
  {
    assert rows[..k + 1][..k] == rows[..k];
  }

  lemma {:induction false} ReceiptsSnoc(ar: Arithmetic, rows: seq<Workload>, k: nat, total: int, cap: real, scale: real)
    requires k < |rows| && scale > 0.0
    ensures AllReceipts(ar, rows[..k + 1], total, cap, scale)
         == AllReceipts(ar, rows[..k], total, cap, scale)
          + AllOfRow(ar, rows[k], total, cap, scale, Emitted(ar, rows[..k], total, cap))
  {
    hide CountOf, AllOfRow, Emitted;
    assert rows[..k + 1][..k] == rows[..k];
  }

  lemma {:induction false} DriftSnoc(ar: Arithmetic, rows: seq<Workload>, k: nat, total: int, cap: real, scale: real)
    requires k < |rows|
    ensures Drift(ar, rows[..k + 1], total, cap, scale)
         == Fl(ar, Drift(ar, rows[..k], total, cap, scale)
                   + RowDrift(ar, rows[k].requests, CountOf(ar, rows[k].requests, total, cap), scale))
  {
    hide CountOf, RowDrift;
    assert rows[..k + 1][..k] == rows[..k];
  }

  lemma {:induction false} NoRows(ar: Arithmetic, total: int, cap: real, scale: real)
    requires scale > 0.0
    ensures Requests(ar, []) == 0 && Emitted(ar, [], total, cap) == 0
    ensures AllReceipts(ar, [], total, cap, scale) == [] && Drift(ar, [], total, cap, scale) == 0.0
  {
  }

  lemma {:induction false} RowSnoc(ar: Arithmetic, w: Workload, scale: real, n: int, i: nat, start: nat)
    requires scale > 0.0
    ensures RowReceipts(ar, w, scale, n, 0, start) == []
    ensures RowReceipts(ar, w, scale, n, i + 1, start) == RowReceipts(ar, w, scale, n, i, start)
         + [Receipt(w, SplitEvenly(ar, Share(ar, w.inputTotal, scale), n, i),
                    SplitEvenly(ar, Share(ar, w.outputTotal, scale), n, i), start + i)]
  {
  }

  // The code, which runs in doubles.
  method ReceiptsFromWorkloads(workloads: seq<Workload>, cap: real) returns (r: IngestResult)
    ensures r == Ingest(Binary64, workloads, cap)
    ensures r.sampled <==> r.totalRequests as real > cap
  {
    hide Live, Requests, Emitted, AllReceipts, Drift, RowReceipts, CountOf, RowDrift, Residual, Fl, FlInt;
    var rows := Live(workloads);
    NoRows(Binary64, 0, cap, 1.0);
    var total := 0;
    for i := 0 to |rows|
      invariant total == Requests(Binary64, rows[..i])
    {
      TotalsSnoc(Binary64, rows, i, 0, cap);
      total := FlInt(Binary64, total + rows[i].requests);
    }
    assert rows[..|rows|] == rows;
    var sampled := total as real > cap;
    var counts: seq<int> := [];
    var emitted := 0;
    NoRows(Binary64, total, cap, 1.0);
    for i := 0 to |rows|
      invariant |counts| == i && emitted == Emitted(Binary64, rows[..i], total, cap)
      invariant forall k :: 0 <= k < i ==> counts[k] == CountOf(Binary64, rows[k].requests, total, cap)
    {
      TotalsSnoc(Binary64, rows, i, total, cap);
      counts := counts + [CountOf(Binary64, rows[i].requests, total, cap)];
      emitted := emitted + counts[i];
    }
    var scale := Scale(Binary64, total, emitted);
    assert scale == ScaleOf(Binary64, rows, cap) > 0.0;
    hide Scale, ScaleOf;
    var receipts: seq<Receipt> := [];
    var drift := 0.0;
    NoRows(Binary64, total, cap, scale);
    for k := 0 to |rows|
      invariant receipts == AllReceipts(Binary64, rows[..k], total, cap, scale)
      invariant drift == Drift(Binary64, rows[..k], total, cap, scale)
    {
      ReceiptsSnoc(Binary64, rows, k, total, cap, scale);
      DriftSnoc(Binary64, rows, k, total, cap, scale);
      var w, n := rows[k], counts[k];
      drift := Fl(Binary64, drift + RowDrift(Binary64, w.requests, n, scale));
      receipts := EmitRow(w, n, scale, receipts);
    }
    r := IngestResult(receipts, total, scale, sampled, Residual(Binary64, total, drift));
  }

  // The inner loop of the second pass.
  method EmitRow(w: Workload, n: nat, scale: real, before: seq<Receipt>) returns (receipts: seq<Receipt>)
    requires scale > 0.0
    ensures receipts == before + RowReceipts(Binary64, w, scale, n, n, |before|)
  {
    hide RowReceipts;
    var inShare := Share(Binary64, w.inputTotal, scale);
    var outShare := Share(Binary64, w.outputTotal, scale);
    receipts := before;
    RowSnoc(Binary64, w, scale, n, 0, |before|);
    for i := 0 to n
      invariant receipts == before + RowReceipts(Binary64, w, scale, n, i, |before|)
    {
      RowSnoc(Binary64, w, scale, n, i, |before|);
      receipts := receipts
                + [Receipt(w, SplitEvenly(Binary64, inShare, n, i), SplitEvenly(Binary64, outShare, n, i), |receipts|)];
    }
  }

  // ---------- what it guarantees ----------

  function InputSum(receipts: seq<Receipt>): int {
    if receipts == [] then 0 else InputSum(receipts[..|receipts| - 1]) + receipts[|receipts| - 1].input
  }

  function OutputSum(receipts: seq<Receipt>): int {
    if receipts == [] then 0 else OutputSum(receipts[..|receipts| - 1]) + receipts[|receipts| - 1].output
  }

  lemma {:induction false} RowSums(ar: Arithmetic, w: Workload, scale: real, n: int, k: nat, start: nat)
    requires scale > 0.0
    ensures InputSum(RowReceipts(ar, w, scale, n, k, start)) == PartSum(ar, Share(ar, w.inputTotal, scale), n, k)
    ensures OutputSum(RowReceipts(ar, w, scale, n, k, start)) == PartSum(ar, Share(ar, w.outputTotal, scale), n, k)
  {
    hide SplitEvenly, Share;
    if k > 0 {
      RowSums(ar, w, scale, n, k - 1, start);
      var r := RowReceipts(ar, w, scale, n, k, start);
      assert r[..k - 1] == RowReceipts(ar, w, scale, n, k - 1, start);
    }
  }

  // Half way between two integers the greater one is taken.
  lemma {:induction false} RoundIsNear(x: real)
    ensures -0.5 < Round(x) as real - x <= 0.5
  {
  }

  // The rows that count are those with requests, each as often as it is given.
  lemma {:induction false} LiveMeans(workloads: seq<Workload>, w: Workload)
    ensures multiset(Live(workloads))[w] == if w.requests > 0 then multiset(workloads)[w] else 0
    ensures (forall i :: 0 <= i < |workloads| ==> workloads[i].requests > 0) ==> Live(workloads) == workloads
  {
    if workloads != [] {
      var front, last := workloads[..|workloads| - 1], workloads[|workloads| - 1];
      assert workloads == front + [last];
      LiveMeans(front, w);
      LiveNext(workloads);
      hide *;
      CountSnoc(front, last, w);
      CountSnoc(Live(front), last, w);
    }
  }

  lemma {:induction false} LiveNext(workloads: seq<Workload>)
    requires workloads != []
    ensures var front, last := workloads[..|workloads| - 1], workloads[|workloads| - 1];
      Live(workloads) == if last.requests > 0 then Live(front) + [last] else Live(front)
  {
  }

  lemma {:induction false} CountSnoc<T>(s: seq<T>, x: T, y: T)
    ensures multiset(s + [x])[y] == multiset(s)[y] + if x == y then 1 else 0
  {
  }

  // The residual is half the mean drift of a request.
  lemma {:induction false} ResidualMeans(total: int, drift: real)
    requires total > 0
    ensures Residual(Exact, total, drift) * (2.0 * total as real) == drift
  {
  }

  // Rescaled, the sum is within half a scale of the tokens, give or take one rounding.
  predicate Near(ar: Arithmetic, sum: int, tokens: int, scale: real) {
    Abs(sum as real * scale - tokens as real) <= scale / 2.0 + Eps(ar) * tokens as real
  }

  lemma {:induction false} Scaled(x: real, bound: real, scale: real)
    requires scale > 0.0 && -bound <= x <= bound
    ensures -(bound * scale) <= x * scale <= bound * scale
  {
    assert (bound - x) * scale >= 0.0;
    assert (bound + x) * scale >= 0.0;
  }

  // A rounded quotient times its divisor is the dividend, up to the rounding.
  lemma {:induction false} QuotientError(ar: Arithmetic, x: real, scale: real, tokens: real)
    requires scale > 0.0 && tokens >= 0.0 && x * scale == tokens
    ensures x >= 0.0 && Abs(Fl(ar, x) * scale - tokens) <= Eps(ar) * tokens
  {
    hide Fl;
    assert x < 0.0 ==> x * scale < 0.0;
    FlError(ar, x);
    var e := Fl(ar, x) - x;
    Sum(Fl(ar, x), -x, scale);
    if ar == Binary64 {
      hide Abs;
      var far := TWO_53 as real * e;
      assert -x <= far <= x by {
        Eps53(x, e);
      }
      Scaled(far, x, scale);
      assert far * scale == TWO_53 as real * (e * scale);
      Eps53Back(tokens, e * scale);
    }
  }

  lemma {:induction false} Eps53(x: real, e: real)
    requires x >= 0.0 && Abs(e) <= Eps(Binary64) * Abs(x)
    ensures -x <= TWO_53 as real * e <= x
  {
  }

  lemma {:induction false} Eps53Back(x: real, e: real)
    requires x >= 0.0 && -x <= TWO_53 as real * e <= x
    ensures Abs(e) <= Eps(Binary64) * x
  {
  }

  lemma {:induction false} ShareIsNear(ar: Arithmetic, tokens: nat, scale: real)
    requires scale > 0.0
    ensures Near(ar, Share(ar, tokens, scale), tokens, scale)
  {
    hide *;
    var x := QuotientOf(tokens as real, scale);
    var share := ShareIs(ar, tokens, x, scale);
    RoundedNear(ar, share, tokens, x, scale);
  }

  lemma {:induction false} RoundedNear(ar: Arithmetic, share: int, tokens: nat, x: real, scale: real)
    requires scale > 0.0 && x * scale == tokens as real && share == Round(Fl(ar, x))
    ensures Near(ar, share, tokens, scale)
  {
    hide Fl, Round, Eps, Near;
    QuotientError(ar, x, scale, tokens as real);
    RoundIsNear(Fl(ar, x));
    RoundedBound(share as real, Fl(ar, x), scale, tokens as real, Eps(ar) * tokens as real);
    NearIs(ar, share, tokens, scale);
  }

  lemma {:induction false} QuotientOf(x: real, p: real) returns (q: real)
    requires p > 0.0
    ensures q == x / p && q * p == x
  {
    q := x / p;
  }

  lemma {:induction false} ShareIs(ar: Arithmetic, tokens: int, x: real, scale: real) returns (share: int)
    requires scale > 0.0 && x == tokens as real / scale
    ensures share == Share(ar, tokens, scale) == Round(Fl(ar, x))
  {
    share := Share(ar, tokens, scale);
  }

  lemma {:induction false} NearIs(ar: Arithmetic, sum: int, tokens: int, scale: real)
    ensures Near(ar, sum, tokens, scale)
       <==> Abs(sum as real * scale - tokens as real) <= scale / 2.0 + Eps(ar) * tokens as real
  {
  }

  lemma {:induction false} RoundedBound(share: real, y: real, scale: real, tokens: real, bound: real)
    requires scale > 0.0 && -0.5 <= share - y <= 0.5 && Abs(y * scale - tokens) <= bound
    ensures Abs(share * scale - tokens) <= scale / 2.0 + bound
  {
    Scaled(share - y, 0.5, scale);
    Sum(share, -y, scale);
  }

  // ---------- the counts ----------

  // A total this side of 2^53 was added up without rounding.
  predicate Counted(ar: Arithmetic, total: int) {
    ar.Exact? || total < TWO_53
  }

  lemma {:induction false} LargeIntStaysLarge(k: int)
    requires k >= TWO_53
    ensures FlInt(Binary64, k) >= TWO_53
  {
    LargeStaysLarge(k as real);
  }

  lemma {:induction false} RequestsExact(ar: Arithmetic, rows: seq<Workload>)
    requires forall i :: 0 <= i < |rows| ==> rows[i].requests > 0
    requires Counted(ar, Requests(ar, rows))
    ensures Requests(ar, rows) == Requests(Exact, rows)
  {
    hide FlInt;
    if rows != [] {
      var front, last := rows[..|rows| - 1], rows[|rows| - 1];
      RequestsPositive(ar, front);
      var sum := Requests(ar, front) + last.requests;
      if sum >= TWO_53 {
        LargeIntStaysLarge(sum);
        FlInteger(Exact, sum);
        assert ar == Binary64 ==> FlInt(ar, sum) >= TWO_53;
      } else {
        FlInteger(ar, sum);
      }
      RequestsExact(ar, front);
      FlInteger(Exact, Requests(Exact, front) + last.requests);
    }
  }

  lemma {:induction false} CountUnsampled(ar: Arithmetic, requests: int, total: int, cap: real)
    requires requests > 0 && total as real <= cap
    ensures CountOf(ar, requests, total, cap) == requests
  {
  }

  lemma {:induction false} EmittedUnsampled(ar: Arithmetic, rows: seq<Workload>, total: int, cap: real)
    requires total as real <= cap && forall i :: 0 <= i < |rows| ==> rows[i].requests > 0
    ensures Emitted(ar, rows, total, cap) == Requests(Exact, rows)
  {
    hide FlInt, CountOf;
    if rows != [] {
      var front, last := rows[..|rows| - 1], rows[|rows| - 1];
      EmittedUnsampled(ar, front, total, cap);
      CountUnsampled(ar, last.requests, total, cap);
      FlInteger(Exact, Requests(Exact, front) + last.requests);
    }
  }

  lemma {:induction false} TargetRange(ar: Arithmetic, total: int, cap: real)
    requires total > 0 && cap > 0.0
    ensures total as real / cap > 0.0 && Target(ar, total, cap) > 0.0
    ensures Target(ar, total, cap) >= (1.0 - Eps(ar)) * (total as real / cap)
  {
    hide Fl;
    var x := total as real / cap;
    assert x * cap == total as real;
    assert x <= 0.0 ==> x * cap <= 0.0;
    FlSign(ar, x);
    FlError(ar, x);
  }

  lemma {:induction false} CountSampled(ar: Arithmetic, requests: int, total: int, cap: real)
    requires requests > 0 && total > 0 && total as real > cap > 0.0
    ensures Target(ar, total, cap) > 0.0
    ensures CountOf(ar, requests, total, cap) as real
         <= (1.0 + Eps(ar)) * (requests as real / Target(ar, total, cap)) + 1.0
  {
    hide Fl, Target, Round;
    TargetRange(ar, total, cap);
    var target := Target(ar, total, cap);
    var x := requests as real / target;
    assert x * target == requests as real;
    assert x <= 0.0 ==> x * target <= 0.0;
    FlError(ar, x);
    RoundIsNear(Fl(ar, x));
  }

  // With a cap the receipts of a row are its share of the cap rounded half up, but at least one.
  lemma {:induction false} CountMeans(requests: int, total: int, cap: real)
    requires requests > 0 && total > 0 && total as real > cap > 0.0
    ensures var share, n := requests as real * cap / total as real, CountOf(Exact, requests, total, cap) as real;
      if share < 0.5 then n == 1.0 else share - 0.5 < n <= share + 0.5
  {
    var x := total as real / cap;
    assert x * cap == total as real;
    assert x > 0.0 by {
      assert x <= 0.0 ==> x * cap <= 0.0;
    }
    var y, share := requests as real / x, requests as real * cap / total as real;
    assert y * x == requests as real && share * total as real == requests as real * cap;
    ShareIsQuotient(y, x, cap, total as real, requests as real, share);
    assert Quota(Exact, requests, total, cap) == y;
    RoundIsNear(y);
  }

  lemma {:induction false} ShareIsQuotient(y: real, x: real, cap: real, total: real, requests: real, share: real)
    requires x > 0.0 && cap > 0.0 && x * cap == total && y * x == requests && share * total == requests * cap
    ensures y == share
  {
    assert y * total == y * x * cap == requests * cap;
    assert total > 0.0;
    assert (y - share) * total == 0.0;
  }

  lemma {:induction false} CountNoCap(ar: Arithmetic, requests: int, total: int, cap: real)
    requires requests > 0 && total > 0 && cap <= 0.0
    ensures CountOf(ar, requests, total, cap) == 1
  {
    hide Fl;
    if cap < 0.0 {
      var x := total as real / cap;
      assert x * cap == total as real;
      assert x >= 0.0 ==> x * cap <= 0.0;
      FlSign(ar, x);
      var target := Target(ar, total, cap);
      assert target < 0.0;
      var y := requests as real / target;
      assert y * target == requests as real;
      assert y >= 0.0 ==> y * target <= 0.0;
      FlSign(ar, y);
    }
  }

  lemma {:induction false} EmittedSampled(ar: Arithmetic, rows: seq<Workload>, total: int, cap: real)
    requires total > 0 && total as real > cap > 0.0
    requires forall i :: 0 <= i < |rows| ==> rows[i].requests > 0
    ensures Target(ar, total, cap) > 0.0
    ensures Emitted(ar, rows, total, cap) as real
         <= (1.0 + Eps(ar)) * (Requests(Exact, rows) as real / Target(ar, total, cap)) + |rows| as real
  {
    hide Target, CountOf, FlInt;
    TargetRange(ar, total, cap);
    var target := Target(ar, total, cap);
    if rows != [] {
      var front, w := rows[..|rows| - 1], rows[|rows| - 1];
      EmittedSampled(ar, front, total, cap);
      CountSampled(ar, w.requests, total, cap);
      FlInteger(Exact, Requests(Exact, front) + w.requests);
      hide *;
      QuotientSum(Requests(Exact, front), w.requests, target, 1.0 + Eps(ar));
    }
  }

  lemma {:induction false} QuotientSum(x: int, y: int, target: real, factor: real)
    requires target > 0.0
    ensures factor * ((x + y) as real / target) == factor * (x as real / target) + factor * (y as real / target)
  {
    assert (x + y) as real / target == x as real / target + y as real / target;
  }

  lemma {:induction false} EmittedNoCap(ar: Arithmetic, rows: seq<Workload>, total: int, cap: real)
    requires total > 0 && cap <= 0.0 && forall i :: 0 <= i < |rows| ==> rows[i].requests > 0
    ensures Emitted(ar, rows, total, cap) == |rows|
  {
    hide CountOf;
    if rows != [] {
      EmittedNoCap(ar, rows[..|rows| - 1], total, cap);
      CountNoCap(ar, rows[|rows| - 1].requests, total, cap);
    }
  }

  function Max(x: real, y: real): real {
    if x < y then y else x
  }

  // (1 - eps) x total / target <= cap
  lemma {:induction false} TargetRecovers(ar: Arithmetic, total: int, cap: real)
    requires total > 0 && cap > 0.0
    ensures Target(ar, total, cap) > 0.0
    ensures (1.0 - Eps(ar)) * (total as real / Target(ar, total, cap)) <= cap
  {
    hide Target, Eps;
    TargetRange(ar, total, cap);
    var x, target := total as real / cap, Target(ar, total, cap);
    assert x * cap == total as real;
    Cross(total as real / target, target, x, cap, 1.0 - Eps(ar));
  }

  lemma {:induction false} Cross(q: real, target: real, x: real, cap: real, part: real)
    requires target > 0.0 && x > 0.0 && cap > 0.0
    requires q * target == x * cap && target >= part * x
    ensures part * q <= cap
  {
    var gap := target - part * x;
    assert q <= 0.0 ==> q * target <= 0.0;
    assert x * cap > 0.0;
    assert q * gap >= 0.0;
    assert q * gap == q * target - q * (part * x);
    assert q * (part * x) == (part * q) * x;
    assert (part * q) * x <= cap * x;
    assert part * q > cap ==> (part * q - cap) * x > 0.0;
  }

  // There are at most cap plus one receipt a row, give or take the rounding of two quotients.
  lemma {:induction false} EmittedBound(ar: Arithmetic, rows: seq<Workload>, cap: real)
    requires forall i :: 0 <= i < |rows| ==> rows[i].requests > 0
    requires Counted(ar, Requests(ar, rows))
    ensures (1.0 - Eps(ar)) * (Emitted(ar, rows, Requests(ar, rows), cap) - |rows|) as real
         <= (1.0 + Eps(ar)) * Max(cap, 0.0)
  {
    hide Emitted, Requests, Target, CountOf;
    RequestsPositive(ar, rows);
    RequestsExact(ar, rows);
    var total := Requests(ar, rows);
    NoRows(ar, total, cap, 1.0);
    if total as real <= cap {
      EmittedUnsampled(ar, rows, total, cap);
    } else if rows == [] {
    } else if cap > 0.0 {
      EmittedSampled(ar, rows, total, cap);
      TargetRecovers(ar, total, cap);
    } else {
      EmittedNoCap(ar, rows, total, cap);
    }
  }

  // ---------- the drift ----------

  // The rescaled receipt count of a row is its requests.
  ghost predicate RowExact(ar: Arithmetic, w: Workload, total: int, cap: real, scale: real) {
    Rescaled(ar, CountOf(ar, w.requests, total, cap), scale) == w.requests as real
  }

  lemma {:induction false} RowDriftIsZero(ar: Arithmetic, w: Workload, total: int, cap: real, scale: real)
    ensures 0.0 <= RowDrift(ar, w.requests, CountOf(ar, w.requests, total, cap), scale)
    ensures RowDrift(ar, w.requests, CountOf(ar, w.requests, total, cap), scale) == 0.0
       <==> RowExact(ar, w, total, cap, scale)
  {
    hide CountOf, Rescaled, Fl;
    FlSign(ar, Rescaled(ar, CountOf(ar, w.requests, total, cap), scale) - w.requests as real);
  }

  lemma {:induction false} DriftIsZero(ar: Arithmetic, rows: seq<Workload>, total: int, cap: real, scale: real)
    requires scale > 0.0
    ensures Drift(ar, rows, total, cap, scale) >= 0.0
    ensures Drift(ar, rows, total, cap, scale) == 0.0
       <==> forall i :: 0 <= i < |rows| ==> RowExact(ar, rows[i], total, cap, scale)
  {
    hide Drift, Emitted, Requests, CountOf, RowDrift, RowExact, Fl, AllReceipts;
    NoRows(ar, total, cap, scale);
    if rows != [] {
      var last := |rows| - 1;
      var front, w := rows[..last], rows[last];
      assert rows[..last + 1] == rows == front + [w];
      DriftSnoc(ar, rows, last, total, cap, scale);
      DriftIsZero(ar, front, total, cap, scale);
      RowDriftIsZero(ar, w, total, cap, scale);
      FlSign(ar, Drift(ar, front, total, cap, scale)
                 + RowDrift(ar, w.requests, CountOf(ar, w.requests, total, cap), scale));
    }
  }

  lemma {:induction false} RowDriftRange(requests: int, n: int, scale: real)
    requires scale > 0.0 && requests > 0 && n > 0
    ensures RowDrift(Exact, requests, n, scale) <= n as real * scale + requests as real
  {
    assert n as real * scale > 0.0;
  }

  lemma {:induction false} Distribute(m: int, n: int, scale: real)
    ensures (m + n) as real * scale == m as real * scale + n as real * scale
  {
  }

  lemma {:induction false} DriftRange(rows: seq<Workload>, total: int, cap: real, scale: real)
    requires scale > 0.0 && forall i :: 0 <= i < |rows| ==> rows[i].requests > 0
    ensures Drift(Exact, rows, total, cap, scale)
         <= Emitted(Exact, rows, total, cap) as real * scale + Requests(Exact, rows) as real
  {
    hide Drift, Emitted, Requests, CountOf, RowDrift, AllReceipts;
    NoRows(Exact, total, cap, scale);
    if rows != [] {
      var last := |rows| - 1;
      var front, w := rows[..last], rows[last];
      assert rows[..last + 1] == rows;
      DriftSnoc(Exact, rows, last, total, cap, scale);
      TotalsSnoc(Exact, rows, last, total, cap);
      DriftRange(front, total, cap, scale);
      var n := CountOf(Exact, w.requests, total, cap);
      RowDriftRange(w.requests, n, scale);
      Distribute(Emitted(Exact, front, total, cap), n, scale);
    }
  }

  lemma {:induction false} ScaleRecovers(ar: Arithmetic, total: int, emitted: nat)
    requires total >= 0 && (emitted > 0 || total == 0)
    ensures Abs(emitted as real * Scale(ar, total, emitted) - total as real) <= Eps(ar) * total as real
  {
    hide Fl;
    if emitted > 0 {
      var x, p := total as real / emitted as real, emitted as real;
      assert x * p == total as real;
      QuotientError(ar, x, p, total as real);
    }
  }

  lemma {:induction false} ResidualIsZero(ar: Arithmetic, total: int, drift: real)
    requires total >= 0 && drift >= 0.0 && (total == 0 ==> drift == 0.0)
    ensures Residual(ar, total, drift) >= 0.0
    ensures Residual(ar, total, drift) == 0.0 <==> drift == 0.0
  {
    hide Fl;
    if total > 0 {
      var x := drift / (2.0 * total as real);
      assert x * (2.0 * total as real) == drift;
      FlSign(ar, x);
    }
  }

  lemma {:induction false} ResidualRange(total: int, drift: real)
    requires total >= 0 && drift <= 2.0 * total as real
    ensures Residual(Exact, total, drift) <= 1.0
  {
    if total > 0 {
      assert Residual(Exact, total, drift) * (2.0 * total as real) == drift;
    }
  }

  // The receipts times the scale are the requests, up to one rounding; the reported residual is 0
  // exactly when every row's request count is recovered, and in exact arithmetic a fraction. While
  // the total is this side of 2^53 it is the true one and the number of receipts is bounded.
  lemma {:induction false} RequestsRecovered(ar: Arithmetic, workloads: seq<Workload>, cap: real)
    ensures var r, rows := Ingest(ar, workloads, cap), Live(workloads);
            && Abs(|r.receipts| as real * r.scale - r.totalRequests as real) <= Eps(ar) * r.totalRequests as real
            && (Counted(ar, r.totalRequests) ==>
                  r.totalRequests == Requests(Exact, rows)
                  && (1.0 - Eps(ar)) * (|r.receipts| - |rows|) as real <= (1.0 + Eps(ar)) * Max(cap, 0.0))
            && 0.0 <= r.residual && (ar.Exact? ==> r.residual <= 1.0)
            && (r.residual == 0.0
                <==> forall i :: 0 <= i < |rows| ==> RowExact(ar, rows[i], r.totalRequests, cap, r.scale))
  {
    hide Live, Requests, Emitted, AllReceipts, Scale, RowExact, Drift, Residual, Max, Counted, Eps;
    var rows := Live(workloads);
    var total, scale := Requests(ar, rows), ScaleOf(ar, rows, cap);
    var emitted := Emitted(ar, rows, total, cap);
    RequestsPositive(ar, rows);
    NoRows(ar, total, cap, scale);
    if Counted(ar, total) {
      RequestsExact(ar, rows);
      EmittedBound(ar, rows, cap);
    }
    DriftIsZero(ar, rows, total, cap, scale);
    assert rows == [] || emitted > 0;
    ScaleRecovers(ar, total, emitted);
    ResidualIsZero(ar, total, Drift(ar, rows, total, cap, scale));
    if ar == Exact {
      ExactResidual(rows, cap);
    }
  }

  lemma {:induction false} ExactResidual(rows: seq<Workload>, cap: real)
    requires forall i :: 0 <= i < |rows| ==> rows[i].requests > 0
    ensures var total, scale := Requests(Exact, rows), ScaleOf(Exact, rows, cap);
            Residual(Exact, total, Drift(Exact, rows, total, cap, scale)) <= 1.0
  {
    hide Requests, Emitted, Scale, Drift, Residual;
    var total, scale := Requests(Exact, rows), ScaleOf(Exact, rows, cap);
    RequestsPositive(Exact, rows);
    NoRows(Exact, total, cap, scale);
    DriftRange(rows, total, cap, scale);
    ScaleRecovers(Exact, total, Emitted(Exact, rows, total, cap));
    ResidualRange(total, Drift(Exact, rows, total, cap, scale));
  }

  lemma {:induction false} ScaleIsOne(ar: Arithmetic, total: int)
    requires total >= 0
    ensures Scale(ar, total, total) == 1.0
  {
    hide Fl;
    if total > 0 {
      assert total as real / total as real == 1.0;
      FlInteger(ar, 1);
    }
  }

  // A bill within the cap is expanded one receipt a request, without scaling or residual.
  lemma {:induction false} UnsampledExact(ar: Arithmetic, workloads: seq<Workload>, cap: real)
    requires var r := Ingest(ar, workloads, cap); !r.sampled && Counted(ar, r.totalRequests)
    ensures var r := Ingest(ar, workloads, cap);
            |r.receipts| == r.totalRequests == Requests(Exact, Live(workloads)) && r.scale == 1.0 && r.residual == 0.0
  {
    hide Live, Requests, Emitted, AllReceipts, Scale, RowExact, Drift, Residual, Max, CountOf, Fl;
    var rows := Live(workloads);
    var total := Requests(ar, rows);
    RequestsPositive(ar, rows);
    RequestsExact(ar, rows);
    EmittedUnsampled(ar, rows, total, cap);
    ScaleIsOne(ar, total);
    forall i | 0 <= i < |rows| ensures RowExact(ar, rows[i], total, cap, 1.0) {
      RowUnsampled(ar, rows, i, total, cap);
    }
    RequestsRecovered(ar, workloads, cap);
  }

  lemma {:induction false} RequestsCover(rows: seq<Workload>, i: nat)
    requires i < |rows| && forall k :: 0 <= k < |rows| ==> rows[k].requests > 0
    ensures rows[i].requests <= Requests(Exact, rows)
  {
    hide FlInt;
    var front, last := rows[..|rows| - 1], rows[|rows| - 1];
    FlInteger(Exact, Requests(Exact, front) + last.requests);
    RequestsPositive(Exact, front);
    if i < |front| {
      RequestsCover(front, i);
    }
  }

  lemma {:induction false} RowUnsampled(ar: Arithmetic, rows: seq<Workload>, i: nat, total: int, cap: real)
    requires i < |rows| && forall k :: 0 <= k < |rows| ==> rows[k].requests > 0
    requires total == Requests(Exact, rows) && Counted(ar, total) && total as real <= cap
    ensures RowExact(ar, rows[i], total, cap, 1.0)
  {
    hide Fl, CountOf, Requests;
    RequestsCover(rows, i);
    CountUnsampled(ar, rows[i].requests, total, cap);
    FlInteger(ar, rows[i].requests);
    assert rows[i].requests as real * 1.0 == rows[i].requests as real;
  }

  lemma {:induction false} RowNumbered(ar: Arithmetic, w: Workload, scale: real, n: int, k: nat, start: nat)
    requires scale > 0.0
    ensures forall i :: 0 <= i < k ==> RowReceipts(ar, w, scale, n, k, start)[i].index == start + i
  {
    hide SplitEvenly, Share;
    if k > 0 {
      RowNumbered(ar, w, scale, n, k - 1, start);
    }
  }

  // The receipts are numbered in order from 0, so no two share an identifier.
  lemma {:induction false} Numbered(ar: Arithmetic, rows: seq<Workload>, total: int, cap: real, scale: real)
    requires scale > 0.0
    ensures forall i :: 0 <= i < |AllReceipts(ar, rows, total, cap, scale)| ==>
              AllReceipts(ar, rows, total, cap, scale)[i].index == i
  {
    hide AllReceipts, RowReceipts, Emitted, CountOf;
    NoRows(ar, total, cap, scale);
    if rows != [] {
      var last := |rows| - 1;
      assert rows[..last + 1] == rows;
      Numbered(ar, rows[..last], total, cap, scale);
      ReceiptsSnoc(ar, rows, last, total, cap, scale);
      var n := CountOf(ar, rows[last].requests, total, cap);
      RowNumbered(ar, rows[last], scale, n, n, Emitted(ar, rows[..last], total, cap));
    }
  }

  // ---------- the tokens ----------

  lemma {:induction false} Prefix(ar: Arithmetic, rows: seq<Workload>, k: nat, total: int, cap: real, scale: real)
    requires scale > 0.0 && k <= |rows|
    ensures Emitted(ar, rows[..k], total, cap) <= Emitted(ar, rows, total, cap)
    ensures AllReceipts(ar, rows, total, cap, scale)[..Emitted(ar, rows[..k], total, cap)]
         == AllReceipts(ar, rows[..k], total, cap, scale)
    decreases |rows|
  {
    hide CountOf, AllOfRow;
    if k == |rows| {
      assert rows[..k] == rows;
    } else {
      var front := rows[..|rows| - 1];
      Prefix(ar, front, k, total, cap, scale);
      assert front[..k] == rows[..k];
    }
  }

  // The stretch of the receipts that row k emitted.
  function OfRow(ar: Arithmetic, r: IngestResult, rows: seq<Workload>, cap: real, k: nat): seq<Receipt>
    requires k < |rows| && |r.receipts| == Emitted(ar, rows, r.totalRequests, cap)
  {
    Stretch(ar, rows, k, r.totalRequests, cap);
    r.receipts[Emitted(ar, rows[..k], r.totalRequests, cap)..Emitted(ar, rows[..k + 1], r.totalRequests, cap)]
  }

  lemma {:induction false} Stretch(ar: Arithmetic, rows: seq<Workload>, k: nat, total: int, cap: real)
    requires k < |rows|
    ensures Emitted(ar, rows[..k], total, cap) <= Emitted(ar, rows[..k + 1], total, cap)
    ensures Emitted(ar, rows[..k + 1], total, cap) <= Emitted(ar, rows, total, cap)
  {
    hide CountOf, AllReceipts;
    TotalsSnoc(ar, rows, k, total, cap);
    Prefix(ar, rows, k + 1, total, cap, 1.0);
  }

  lemma {:induction false} RowStretch(ar: Arithmetic, rows: seq<Workload>, k: nat, total: int, cap: real, scale: real)
    requires k < |rows| && scale > 0.0
    ensures Emitted(ar, rows[..k], total, cap) <= Emitted(ar, rows[..k + 1], total, cap)
    ensures Emitted(ar, rows[..k + 1], total, cap) <= Emitted(ar, rows, total, cap)
    ensures var lo, hi := Emitted(ar, rows[..k], total, cap), Emitted(ar, rows[..k + 1], total, cap);
            AllReceipts(ar, rows, total, cap, scale)[lo..hi] == AllOfRow(ar, rows[k], total, cap, scale, lo)
  {
    hide AllReceipts, Emitted, CountOf, AllOfRow, Drift;
    Stretch(ar, rows, k, total, cap);
    Prefix(ar, rows, k + 1, total, cap, scale);
    ReceiptsSnoc(ar, rows, k, total, cap, scale);
    var all := AllReceipts(ar, rows, total, cap, scale);
    var lo, hi := Emitted(ar, rows[..k], total, cap), Emitted(ar, rows[..k + 1], total, cap);
    assert all[lo..hi] == all[..hi][lo..];
  }

  lemma {:induction false} RowOwner(ar: Arithmetic, w: Workload, scale: real, n: int, k: nat, start: nat)
    requires scale > 0.0
    ensures forall i :: 0 <= i < k ==> RowReceipts(ar, w, scale, n, k, start)[i].workload == w
  {
    hide SplitEvenly, Share;
    if k > 0 {
      RowOwner(ar, w, scale, n, k - 1, start);
    }
  }

  // The parts of a share add up to it as far as doubles allow.
  ghost predicate SplitsTo(ar: Arithmetic, sum: int, share: int, n: int)
    requires n > 0
  {
    && (Fits(ar, share, n) ==> sum == share)
    && ((ar.Exact? || 0 <= share <= MAX_SAFE_INTEGER) ==> (sum == share <==> Cumulative(ar, share, n, n) == share))
    && (0 <= share <= MAX_SAFE_INTEGER ==> share - Off(share) <= sum < share + Off(share))
  }

  lemma {:induction false} RowTokens(ar: Arithmetic, w: Workload, total: int, cap: real, scale: real, start: nat)
    requires scale > 0.0
    ensures var own := AllOfRow(ar, w, total, cap, scale, start);
            && (forall i :: 0 <= i < |own| ==> own[i].workload == w)
            && |own| > 0
            && SplitsTo(ar, InputSum(own), Share(ar, w.inputTotal, scale), |own|)
            && SplitsTo(ar, OutputSum(own), Share(ar, w.outputTotal, scale), |own|)
  {
    hide RowReceipts, InputSum, OutputSum, PartSum, SplitEvenly, Share, Cumulative, CountOf, SplitsTo;
    var n := CountOf(ar, w.requests, total, cap);
    RowOwner(ar, w, scale, n, n, start);
    RowSums(ar, w, scale, n, n, start);
    ShareSplits(ar, Share(ar, w.inputTotal, scale), n);
    ShareSplits(ar, Share(ar, w.outputTotal, scale), n);
  }

  lemma {:induction false} ExactFits(total: int, n: int)
    ensures Fits(Exact, total, n)
  {
  }

  lemma {:induction false} ShareSplits(ar: Arithmetic, share: int, n: int)
    requires n > 0
    ensures SplitsTo(ar, PartSum(ar, share, n, n), share, n)
  {
    hide PartSum, Cumulative, Fits;
    if Fits(ar, share, n) {
      SplitIsExact(ar, share, n);
    }
    if ar.Exact? || 0 <= share <= MAX_SAFE_INTEGER {
      SplitExactly(ar, share, n);
    }
    if 0 <= share <= MAX_SAFE_INTEGER {
      if ar == Binary64 {
        SplitNearly(share, n);
      } else {
        ExactFits(share, n);
        SplitIsExact(ar, share, n);
      }
    }
  }

  // Rescaled, the sum is within half a scale of the tokens, give or take one rounding and up to
  // `off` tokens more or less in the sum.
  predicate NearBy(ar: Arithmetic, sum: int, tokens: int, scale: real, off: int) {
    Abs(sum as real * scale - tokens as real) <= (off as real + 0.5) * scale + Eps(ar) * tokens as real
  }

  lemma {:induction false} OffBy(ar: Arithmetic, sum: int, share: int, tokens: int, scale: real, off: int)
    requires scale > 0.0 && -off <= sum - share <= off && Near(ar, share, tokens, scale)
    ensures NearBy(ar, sum, tokens, scale, off)
  {
    hide Eps;
    OffBound(sum as real, share as real, scale, tokens as real, off as real, Eps(ar) * tokens as real);
  }

  lemma {:induction false} OffBound(sum: real, share: real, scale: real, tokens: real, off: real, bound: real)
    requires scale > 0.0 && -off <= sum - share <= off && Abs(share * scale - tokens) <= scale / 2.0 + bound
    ensures Abs(sum * scale - tokens) <= (off + 0.5) * scale + bound
  {
    var d := sum - share;
    Scaled(d, off, scale);
    Sum(share, d, scale);
    Sum(off, 0.5, scale);
    assert share + d == sum;
  }

  // Each row's receipts carry its app and share of the tokens, which rescaled is within half a scale
  // of them while receipts x share is at most 2^53. Past that, a share that is a safe integer is one
  // token off at most, or two from 2^52 on.
  lemma {:induction false} TokensRecovered(ar: Arithmetic, workloads: seq<Workload>, cap: real, k: nat)
    requires k < |Live(workloads)|
    ensures var r, rows := Ingest(ar, workloads, cap), Live(workloads);
            var own := OfRow(ar, r, rows, cap, k);
            && r.scale > 0.0 && |own| > 0
            && (forall i :: 0 <= i < |own| ==> own[i].workload == rows[k])
            && Recovered(ar, InputSum(own), rows[k].inputTotal, r.scale, |own|)
            && Recovered(ar, OutputSum(own), rows[k].outputTotal, r.scale, |own|)
  {
    hide Live, Requests, Emitted, AllReceipts, AllOfRow, Drift, InputSum, OutputSum, Residual, Scale, Share, Recovered;
    RowShares(ar, workloads, cap, k);
    var r, rows := Ingest(ar, workloads, cap), Live(workloads);
    var own := OfRow(ar, r, rows, cap, k);
    hide Ingest, OfRow, SplitsTo;
    ShareRecovered(ar, InputSum(own), rows[k].inputTotal, r.scale, |own|);
    ShareRecovered(ar, OutputSum(own), rows[k].outputTotal, r.scale, |own|);
  }

  predicate Recovered(ar: Arithmetic, sum: int, tokens: int, scale: real, n: int)
    requires scale > 0.0
  {
    var share := Share(ar, tokens, scale);
    && (Fits(ar, share, n) ==> Near(ar, sum, tokens, scale))
    && (0 <= share <= MAX_SAFE_INTEGER ==> NearBy(ar, sum, tokens, scale, Off(share)))
  }

  lemma {:induction false} ShareRecovered(ar: Arithmetic, sum: int, tokens: nat, scale: real, n: int)
    requires scale > 0.0 && n > 0 && SplitsTo(ar, sum, Share(ar, tokens, scale), n)
    ensures Recovered(ar, sum, tokens, scale, n)
  {
    hide Share, Near, NearBy, Cumulative, Fits;
    var share := Share(ar, tokens, scale);
    ShareIsNear(ar, tokens, scale);
    if 0 <= share <= MAX_SAFE_INTEGER {
      OffBy(ar, sum, share, tokens, scale, Off(share));
    }
  }

  lemma {:induction false} RowShares(ar: Arithmetic, workloads: seq<Workload>, cap: real, k: nat)
    requires k < |Live(workloads)|
    ensures var r, rows := Ingest(ar, workloads, cap), Live(workloads);
            var own := OfRow(ar, r, rows, cap, k);
            && r.scale > 0.0 && |own| == CountOf(ar, rows[k].requests, r.totalRequests, cap)
            && (forall i :: 0 <= i < |own| ==> own[i].workload == rows[k])
            && SplitsTo(ar, InputSum(own), Share(ar, rows[k].inputTotal, r.scale), |own|)
            && SplitsTo(ar, OutputSum(own), Share(ar, rows[k].outputTotal, r.scale), |own|)
  {
    hide Live, Requests, Emitted, AllReceipts, AllOfRow, Drift, InputSum, OutputSum, Residual, Scale, Share, SplitsTo,
      CountOf;
    var r, rows := Ingest(ar, workloads, cap), Live(workloads);
    var total, scale := r.totalRequests, r.scale;
    RowStretch(ar, rows, k, total, cap, scale);
    RowTokens(ar, rows[k], total, cap, scale, Emitted(ar, rows[..k], total, cap));
  }

  lemma {:induction false} ShareOfOne(ar: Arithmetic, tokens: int)
    requires ar.Exact? || 0 <= tokens <= TWO_53
    ensures Share(ar, tokens, 1.0) == tokens
  {
    hide Fl;
    assert tokens as real / 1.0 == tokens as real;
    FlInteger(ar, tokens);
  }

  // Within the cap a row keeps its tokens while requests x tokens is at most 2^53; up to 2^53 tokens
  // exactly when the last boundary comes out as the total, and otherwise it is one or two off.
  ghost predicate Keeps(ar: Arithmetic, sum: int, tokens: int, requests: int)
    requires requests > 0
  {
    && (Fits(ar, tokens, requests) ==> sum == tokens)
    && ((ar.Exact? || tokens <= MAX_SAFE_INTEGER) ==>
          (sum == tokens <==> Cumulative(ar, tokens, requests, requests) == tokens))
    && (tokens <= MAX_SAFE_INTEGER ==> tokens - Off(tokens) <= sum < tokens + Off(tokens))
  }

  lemma {:induction false} ShareKept(ar: Arithmetic, sum: int, tokens: nat, n: int)
    requires n > 0 && SplitsTo(ar, sum, Share(ar, tokens, 1.0), n)
    ensures Keeps(ar, sum, tokens, n)
  {
    hide Share, Cumulative;
    if ar.Exact? || tokens <= TWO_53 {
      ShareOfOne(ar, tokens);
    } else {
      assert n * tokens >= tokens;
    }
  }

  lemma {:induction false} TokensExactly(ar: Arithmetic, workloads: seq<Workload>, cap: real, k: nat)
    requires var r := Ingest(ar, workloads, cap); !r.sampled && Counted(ar, r.totalRequests)
    requires k < |Live(workloads)|
    ensures var r, rows := Ingest(ar, workloads, cap), Live(workloads);
            var own := OfRow(ar, r, rows, cap, k);
            && |own| == rows[k].requests
            && Keeps(ar, InputSum(own), rows[k].inputTotal, rows[k].requests)
            && Keeps(ar, OutputSum(own), rows[k].outputTotal, rows[k].requests)
  {
    hide Live, Requests, Emitted, AllReceipts, Drift, InputSum, OutputSum, Residual, Scale, Share, SplitsTo, CountOf,
      Keeps;
    var r, rows := Ingest(ar, workloads, cap), Live(workloads);
    UnsampledExact(ar, workloads, cap);
    RowShares(ar, workloads, cap, k);
    CountUnsampled(ar, rows[k].requests, r.totalRequests, cap);
    var own := OfRow(ar, r, rows, cap, k);
    hide OfRow, Ingest;
    ShareKept(ar, InputSum(own), rows[k].inputTotal, |own|);
    ShareKept(ar, OutputSum(own), rows[k].outputTotal, |own|);
  }

  lemma {:induction false} OneRow(ar: Arithmetic, w: Workload, cap: real, scale: real)
    requires 0 < w.requests <= TWO_53 && scale > 0.0
    ensures Live([w]) == [w] && Requests(ar, [w]) == w.requests
    ensures AllReceipts(ar, [w], w.requests, cap, scale) == AllOfRow(ar, w, w.requests, cap, scale, 0)
  {
    hide AllReceipts, AllOfRow, FlInt;
    assert [w][..0] == [] && [w][..1] == [w];
    assert Live([]) == [] && Requests(ar, []) == 0;
    FlInteger(ar, w.requests);
    NoRows(ar, w.requests, cap, scale);
    ReceiptsSnoc(ar, [w], 0, w.requests, cap, scale);
  }

  // The bill of one such row reports no scale and no residual, and its receipts lack a token.
  lemma {:induction false} TokenLost(app: string)
    ensures var r := Ingest(Binary64, [Workload(app, LONG_REQUESTS, LONG_TOKENS, 0)], 200000.0);
            && !r.sampled && r.scale == 1.0 && r.residual == 0.0
            && |r.receipts| == LONG_REQUESTS && InputSum(r.receipts) == LONG_TOKENS - 1
  {
    hide Live, Requests, AllReceipts, AllOfRow, InputSum, Share, PartSum, Residual, ScaleOf, CountOf;
    var w := Workload(app, LONG_REQUESTS, LONG_TOKENS, 0);
    var r := Ingest(Binary64, [w], 200000.0);
    OneRow(Binary64, w, 200000.0, 1.0);
    assert r.totalRequests == LONG_REQUESTS;
    UnsampledExact(Binary64, [w], 200000.0);
    assert r.receipts == AllOfRow(Binary64, w, LONG_REQUESTS, 200000.0, 1.0, 0);
    CountUnsampled(Binary64, LONG_REQUESTS, LONG_REQUESTS, 200000.0);
    ShareOfOne(Binary64, LONG_TOKENS);
    OneRowSum(w, 200000.0);
    SplitFallsShort();
  }

  lemma {:induction false} OneRowSum(w: Workload, cap: real)
    ensures InputSum(AllOfRow(Binary64, w, w.requests, cap, 1.0, 0))
         == PartSum(Binary64, Share(Binary64, w.inputTotal, 1.0), CountOf(Binary64, w.requests, w.requests, cap),
                    CountOf(Binary64, w.requests, w.requests, cap))
  {
    hide InputSum, OutputSum, RowReceipts, Share, PartSum, CountOf;
    var n := CountOf(Binary64, w.requests, w.requests, cap);
    RowSums(Binary64, w, 1.0, n, n, 0);
  }
}
