// IEEE 754 binary64 rounding: to nearest, ties to even, on values away from overflow and from the
// subnormal range. Every arithmetic result of the repository's number type goes through it.
module Doubles {
  const TWO_52: int := 0x10_0000_0000_0000
  const TWO_53: int := 0x20_0000_0000_0000
  const MAX_SAFE_INTEGER: int := 0x1F_FFFF_FFFF_FFFF

  function HalfEven(x: real): int {
    var f := x.Floor;
    var d := x - f as real;
    if d < 0.5 || (d == 0.5 && f % 2 == 0) then f else f + 1
  }

  // Rounds to 53 significant bits by halving down to the binade of 2^52, where doubles are the integers.
  function RoundLarge(y: real): real
    requires y >= TWO_52 as real
    decreases y.Floor
  {
    if y < TWO_53 as real then HalfEven(y) as real else 2.0 * RoundLarge(y / 2.0)
  }

  // How far below 2^52 y is.
  function Shortfall(y: real): nat
    requires y > 0.0
  {
    (TWO_52 as real / y).Floor
  }

  lemma {:induction false} ShortfallHalves(y: real)
    requires 0.0 < y < TWO_52 as real
    ensures Shortfall(2.0 * y) < Shortfall(y)
  {
    var q := TWO_52 as real / y;
    assert q * y == TWO_52 as real;
    assert q > 1.0;
    assert (q / 2.0) * (2.0 * y) == TWO_52 as real;
    assert TWO_52 as real / (2.0 * y) == q / 2.0;
  }

  function RoundPositive(y: real): real
    requires y > 0.0
    decreases Shortfall(y)
  {
    if y >= TWO_52 as real then RoundLarge(y)
    else
      ShortfallHalves(y);
      RoundPositive(2.0 * y) / 2.0
  }

  function ToDouble(x: real): real {
    if x == 0.0 then 0.0 else if x > 0.0 then RoundPositive(x) else -RoundPositive(-x)
  }

  predicate IsDouble(x: real) {
    ToDouble(x) == x
  }

  // Rounding commutes with scaling by two.
  lemma {:induction false} Doubling(y: real)
    requires y > 0.0
    ensures RoundPositive(2.0 * y) == 2.0 * RoundPositive(y)
  {
    assert 2.0 * y / 2.0 == y;
  }

  // y x 2^j
  function Doubled(y: real, j: nat): real {
    if j == 0 then y else 2.0 * Doubled(y, j - 1)
  }

  lemma {:induction false} RoundDoubled(y: real, j: nat)
    requires y > 0.0
    ensures Doubled(y, j) > 0.0 && RoundPositive(Doubled(y, j)) == Doubled(RoundPositive(y), j)
  {
    if j > 0 {
      RoundDoubled(y, j - 1);
      Doubling(Doubled(y, j - 1));
    }
  }

  lemma {:induction false} LargeError(y: real)
    requires y >= TWO_52 as real
    ensures -y < (RoundLarge(y) - y) * TWO_53 as real < y
    decreases y.Floor
  {
    if y >= TWO_53 as real {
      LargeError(y / 2.0);
    }
  }

  // The relative error is less than 2^-53.
  lemma {:induction false} RelativeError(y: real)
    requires y > 0.0
    ensures -y < (RoundPositive(y) - y) * TWO_53 as real < y
    decreases Shortfall(y)
  {
    if y >= TWO_52 as real {
      LargeError(y);
    } else {
      ShortfallHalves(y);
      RelativeError(2.0 * y);
    }
  }

  lemma {:induction false} LargeStaysLarge(y: real)
    requires y >= TWO_52 as real
    ensures RoundLarge(y) >= TWO_52 as real
    ensures y >= TWO_53 as real ==> RoundLarge(y) >= TWO_53 as real
    decreases y.Floor
  {
    if y >= TWO_53 as real {
      LargeStaysLarge(y / 2.0);
    }
  }

  // Integers up to 2^53 are doubles.
  lemma {:induction false} IntegerExact(k: int)
    requires -TWO_53 <= k <= TWO_53
    ensures ToDouble(k as real) == k as real
    decreases if k < 0 then 1 else 0, TWO_53 - k
  {
    if k < 0 {
      IntegerExact(-k);
    } else if k == TWO_53 {
      assert TWO_53 as real / 2.0 == TWO_52 as real;
      assert RoundLarge(TWO_52 as real) == TWO_52 as real;
    } else if 0 < k < TWO_52 {
      IntegerExact(2 * k);
      assert (2 * k) as real == 2.0 * k as real;
    }
  }

  // From 2^52 on doubles are integers, from 2^53 on even ones.
  lemma {:induction false} LargeInteger(y: real) returns (k: int)
    requires y >= TWO_52 as real
    ensures RoundLarge(y) == k as real && (y >= TWO_53 as real ==> k % 2 == 0)
    decreases y.Floor
  {
    hide HalfEven;
    if y < TWO_53 as real {
      k := HalfEven(y);
    } else {
      var half := LargeInteger(y / 2.0);
      assert RoundLarge(y) == 2.0 * half as real == (2 * half) as real;
      hide RoundLarge;
      k := 2 * half;
      assert k % 2 == 0;
    }
  }

  // Below 2^53 the error is at most one half.
  lemma {:induction false} HalfUnit(y: real)
    requires 0.0 < y < TWO_53 as real
    ensures -0.5 <= RoundPositive(y) - y <= 0.5
    decreases Shortfall(y)
  {
    if y < TWO_52 as real {
      ShortfallHalves(y);
      HalfUnit(2.0 * y);
    }
  }

  lemma {:induction false} HalfEvenMonotone(x: real, y: real)
    requires x <= y
    ensures HalfEven(x) <= HalfEven(y)
  {
  }

  lemma {:induction false} LargeMonotone(x: real, y: real)
    requires TWO_52 as real <= x <= y
    ensures RoundLarge(x) <= RoundLarge(y)
    decreases y.Floor
  {
    if y < TWO_53 as real {
      HalfEvenMonotone(x, y);
    } else if x < TWO_53 as real {
      LargeStaysLarge(y);
      assert HalfEven(x) <= TWO_53;
    } else {
      LargeMonotone(x / 2.0, y / 2.0);
    }
  }

  // Rounding keeps order.
  lemma {:induction false} PositiveMonotone(x: real, y: real)
    requires 0.0 < x <= y
    ensures RoundPositive(x) <= RoundPositive(y)
    decreases Shortfall(x)
  {
    if x >= TWO_52 as real {
      LargeMonotone(x, y);
    } else {
      ShortfallHalves(x);
      PositiveMonotone(2.0 * x, 2.0 * y);
      hide RoundLarge;
      Doubling(x);
      hide RoundPositive;
      Doubling(y);
    }
  }

  lemma {:induction false} Monotone(x: real, y: real)
    requires 0.0 <= x <= y
    ensures 0.0 <= ToDouble(x) <= ToDouble(y)
  {
    hide RoundPositive;
    if x > 0.0 {
      PositiveMonotone(x, y);
      RelativeError(x);
    } else if y > 0.0 {
      RelativeError(y);
    }
  }

  // ---------- adding one ----------

  // x + 1 as the code computes it.
  function Successor(x: real): real {
    ToDouble(x + 1.0)
  }

  lemma {:induction false} SuccessorExact(k: int)
    requires 0 <= k < TWO_53
    ensures Successor(k as real) == (k + 1) as real
  {
    IntegerExact(k + 1);
    assert (k + 1) as real == k as real + 1.0;
  }

  // Where counting stops: 2^53 is its own successor.
  lemma {:induction false} SuccessorStuck()
    ensures Successor(TWO_53 as real) == TWO_53 as real
  {
    var y := TWO_53 as real + 1.0;
    assert y / 2.0 == TWO_52 as real + 0.5;
    assert (y / 2.0).Floor == TWO_52;
    assert RoundLarge(y / 2.0) == TWO_52 as real;
  }

  lemma {:induction false} SuccessorAboveOne(x: real)
    requires x >= 1.0
    ensures Successor(x) > 1.0
  {
    RelativeError(x + 1.0);
  }

  lemma {:induction false} SameReal(k: int, l: int)
    ensures k as real == l as real <==> k == l
  {
    assert (k as real).Floor == k && (l as real).Floor == l;
  }

  lemma {:induction false} LargeDoubleIsEven(x: int)
    requires x >= TWO_53
    ensures IsDouble(x as real) ==> x % 2 == 0
  {
    var k := LargeInteger(x as real);
    hide RoundLarge;
    SameReal(k, x);
  }

  // No double from 2^53 on is one more than another.
  lemma {:induction false} NoConsecutive(x: int)
    requires x >= TWO_53 && IsDouble(x as real)
    ensures !IsDouble((x + 1) as real)
  {
    hide IsDouble;
    LargeDoubleIsEven(x);
    LargeDoubleIsEven(x + 1);
  }

  // ---------- integers and their quotients ----------

  // A real quotient of integers rounded down is the integer quotient.
  lemma {:induction false} FloorOfQuotient(k: int, n: int)
    requires n >= 1
    ensures (k as real / n as real).Floor == k / n
  {
    var y, q, r := k as real / n as real, k / n, k % n;
    assert y * n as real == k as real == q as real * n as real + r as real;
    Sum(y, -(q as real), n as real);
    Within(y, q, n, r as real);
  }

  lemma {:induction false} Within(y: real, q: int, n: int, r: real)
    requires n >= 1 && 0.0 <= r < n as real && (y - q as real) * n as real == r
    ensures q as real <= y < q as real + 1.0
  {
    var d := y - q as real;
    assert d < 0.0 ==> d * n as real < 0.0;
    assert d >= 1.0 ==> d * n as real >= n as real;
  }

  // As long as the dividend is at most 2^53, rounding the quotient does not move it to another integer.
  lemma {:induction false} RoundedQuotient(k: int, n: int)
    requires 0 <= k <= TWO_53 && n >= 1
    ensures ToDouble(k as real / n as real).Floor == k / n
  {
    hide RoundPositive;
    if k == 0 {
    } else if k % n == 0 {
      WholeQuotient(k, n);
      IntegerExact(k / n);
    } else {
      PartQuotient(k, n);
    }
  }

  lemma {:induction false} WholeQuotient(k: int, n: int)
    requires 0 <= k <= TWO_53 && n >= 1 && k % n == 0
    ensures k as real / n as real == (k / n) as real && 0 <= k / n <= TWO_53
  {
    var q := k / n;
    assert q * n == k;
    WholeNumber(q, n, k);
    assert q < 0 ==> q * n < 0;
    assert q > k ==> q * n > k;
  }

  lemma {:induction false} WholeNumber(q: int, n: int, k: int)
    requires n >= 1 && q * n == k
    ensures k as real / n as real == q as real
  {
    var y := k as real / n as real;
    assert y * n as real == k as real == q as real * n as real;
    Scaling(y, q as real, n as real);
  }

  lemma {:induction false} PartQuotient(k: int, n: int)
    requires 0 < k <= TWO_53 && n >= 1 && k % n != 0
    ensures ToDouble(k as real / n as real).Floor == k / n
  {
    var y, q, r := k as real / n as real, k / n, k % n;
    assert k == q * n + r;
    assert y * n as real == k as real == q as real * n as real + r as real;
    assert y <= 0.0 ==> y * n as real <= 0.0;
    RelativeError(y);
    var d := RoundPositive(y);
    assert ToDouble(y) == d;
    hide *;
    StaysBetween(y, d, k, n, q, r);
  }

  lemma {:induction false} Scaling(x: real, y: real, p: real)
    requires p > 0.0 && x * p == y * p
    ensures x == y
  {
    assert (x - y) * p == 0.0;
  }

  lemma {:induction false} SmallShift(y: real, d: real, k: int, n: int) returns (e: real)
    requires 0 < k <= TWO_53 && n >= 1 && y * n as real == k as real
    requires -y < (d - y) * TWO_53 as real < y
    ensures e == (d - y) * n as real && -1.0 < e < 1.0
  {
    e := (d - y) * n as real;
    var x := (d - y) * TWO_53 as real;
    assert e * TWO_53 as real == x * n as real;
    Wider(-y, x, n as real);
    Wider(x, y, n as real);
  }

  lemma {:induction false} StaysBetween(y: real, d: real, k: int, n: int, q: int, r: int)
    requires 0 < k <= TWO_53 && n >= 1 && 0 < r < n
    requires y * n as real == k as real == q as real * n as real + r as real
    requires -y < (d - y) * TWO_53 as real < y
    ensures d.Floor == q
  {
    var e := SmallShift(y, d, k, n);
    Sum(y, -(q as real), n as real);
    Sum(d - y, y - q as real, n as real);
    Within(d, q, n, e + r as real);
  }

  lemma {:induction false} Sum(x: real, y: real, p: real)
    ensures (x + y) * p == x * p + y * p
  {
  }

  lemma {:induction false} Wider(x: real, y: real, p: real)
    requires x < y && p > 0.0
    ensures x * p < y * p
  {
    assert (y - x) * p > 0.0;
  }
}
