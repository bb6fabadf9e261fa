// Which digits a library yields for a double that holds an integer, and when the exact-integer path
// of the Rust printer therefore writes what the Go printer writes for the double of the same value.
module DoubleDigits {
  import opened Wrappers
  import opened Doubles
  import opened Numerals
  import opened NumeralReader
  import opened Unicode
  import opened JsonText
  import opened JsonRoundTrip

  // v x 10^e
  function Decimal(v: nat, e: int): real {
    if e >= 0 then (v * Pow10(e)) as real else v as real / Pow10(-e) as real
  }

  // The decimal that a double is printed from, without its sign.
  function Quantity(f: Double): real
    requires f.Finite? && IsNormal(f.digits)
  {
    Decimal(Value(f.digits), f.exponent + 1 - |f.digits|)
  }

  // The decimal rounds to the double of value i.
  predicate Holds(f: Double, i: int) {
    && f.Finite? && IsNormal(f.digits) && f.negative == (i < 0)
    && ToDouble(Quantity(f)) == Magnitude(i) as real
  }

  function Distance(f: Double, i: int): real
    requires f.Finite? && IsNormal(f.digits)
  {
    var d := Quantity(f) - Magnitude(i) as real;
    if d < 0.0 then -d else d
  }

  // What strconv.FormatFloat and Rust's formatter promise: no fewer digits would do, and no equally
  // many come closer.
  ghost predicate IsLibraryDouble(f: Double, i: int) {
    && Holds(f, i)
    && forall g :: Holds(g, i) ==>
         |f.digits| < |g.digits| || (|f.digits| == |g.digits| && Distance(f, i) <= Distance(g, i))
  }

  // The decimal is i itself.
  predicate Denotes(f: Double, i: int) {
    && f.Finite? && IsNormal(f.digits) && f.negative == (i < 0)
    && SameQuantity(Value(f.digits), f.exponent + 1 - |f.digits|, Magnitude(i), 0)
  }

  lemma {:induction false} FractionEquals(v: nat, p: nat, m: nat)
    requires p >= 1
    ensures v as real / p as real == m as real <==> v == m * p
  {
    var x := v as real / p as real;
    assert x * p as real == v as real;
    assert (m * p) as real == m as real * p as real;
    Scaled(x, m as real, p as real);
    SameReal(v, m * p);
  }

  lemma {:induction false} DecimalEquals(v: nat, e: int, m: nat)
    ensures SameQuantity(v, e, m, 0) <==> Decimal(v, e) == m as real
  {
    PowZero();
    hide Pow10;
    if e >= 0 {
      SameReal(v * Pow10(e), m);
    } else {
      FractionEquals(v, Pow10(-e), m);
    }
  }

  lemma {:induction false} DenotesQuantity(f: Double, i: int)
    requires f.Finite? && IsNormal(f.digits) && f.negative == (i < 0)
    ensures Denotes(f, i) <==> Quantity(f) == Magnitude(i) as real
  {
    hide Value, SameQuantity, Decimal;
    DecimalEquals(Value(f.digits), f.exponent + 1 - |f.digits|, Magnitude(i));
  }

  lemma {:induction false} PowZero()
    ensures Pow10(0) == 1
  {
  }

  lemma {:induction false} Scaled(x: real, y: real, p: real)
    requires p > 0.0
    ensures x * p == y * p <==> x == y
  {
    assert (x - y) * p == x * p - y * p;
  }

  // ---------- exactly which texts agree ----------

  lemma {:induction false} DecimalDenotes(i: int)
    requires i != 0
    ensures Denotes(DecimalOf(i), i)
  {
    var n := Magnitude(i);
    var text := Digits(n);
    StripKeepsHead(text);
    var s := StripTrailing(text);
    hide Value, Digits, StripTrailing;
    StrippedQuantity(s, |text| - |s|, n);
  }

  // The texts of a double and of an integer below 10^21 agree if and only if the double's digits
  // denote the integer, and then the digits are its own.
  lemma {:induction false} TextsAgreeExactly(f: Double, i: int)
    requires IsPrintable(f) && 0 < Magnitude(i) < TEN_TO_21
    ensures NumberText(f) == IntegerText(i) <==> Denotes(f, i)
    ensures Denotes(f, i) <==> f == DecimalOf(i)
  {
    DecimalDenotes(i);
    IntegerPathWrites(i);
    hide Denotes, Layout, IntegerText, DecimalOf;
    if NumberText(f) == IntegerText(i) {
      NumberTextInjective(f, DecimalOf(i));
      ZeroDecimal(i);
    }
    if Denotes(f, i) {
      DenotedText(f, i);
      NumberTextInjective(f, DecimalOf(i));
      ZeroDecimal(i);
    }
  }

  lemma {:induction false} ZeroDecimal(i: int)
    requires i != 0
    ensures !DecimalOf(i).Zero?
  {
  }

  lemma {:induction false} DenotedText(f: Double, i: int)
    requires Denotes(f, i) && 0 < Magnitude(i) < TEN_TO_21
    ensures NumberText(f) == IntegerText(i)
  {
    hide Layout, Digits, SameQuantity, Value, IsNormal;
    IntegerLayout(Magnitude(i), f.digits, f.exponent + 1);
    assert "" + Digits(Magnitude(i)) == Digits(Magnitude(i));
  }

  // ---------- integers up to 2^53 ----------

  lemma {:induction false} NearQuantity(f: Double, i: int)
    requires Holds(f, i) && i != 0
    ensures Quantity(f) > 0.0 && Distance(f, i) * TWO_53 as real < Quantity(f)
  {
    hide ToDouble, Value, Decimal, RoundPositive;
    LastDigitNotZero(f.digits);
    PositiveDecimal(Value(f.digits), f.exponent + 1 - |f.digits|);
    RelativeError(Quantity(f));
    assert ToDouble(Quantity(f)) == RoundPositive(Quantity(f)) by {
      RoundedPositive(Quantity(f));
    }
  }

  lemma {:induction false} RoundedPositive(y: real)
    requires y > 0.0
    ensures ToDouble(y) == RoundPositive(y)
  {
  }

  lemma {:induction false} PositiveDecimal(v: nat, e: int)
    requires v > 0
    ensures Decimal(v, e) > 0.0
  {
    hide Pow10;
    if e >= 0 {
      assert v * Pow10(e) > 0;
    } else {
      assert Decimal(v, e) * Pow10(-e) as real == v as real;
    }
  }

  // Without a fraction the nearest decimal is i, or 2^53 + 1 for i = 2^53.
  lemma {:induction false} WholeQuantity(f: Double, i: int) returns (d: nat)
    requires Holds(f, i) && 0 < Magnitude(i) <= TWO_53 && f.exponent + 1 >= |f.digits|
    ensures Quantity(f) == d as real && (d == Magnitude(i) || (Magnitude(i) == TWO_53 && d == TWO_53 + 1))
  {
    NearQuantity(f, i);
    hide Value, Pow10, Holds;
    d := Value(f.digits) * Pow10(f.exponent + 1 - |f.digits|);
    var m := Magnitude(i);
    var gap := if d < m then m - d else d - m;
    assert Distance(f, i) == gap as real;
    assert gap as real * TWO_53 as real == (gap * TWO_53) as real;
    hide Quantity, Distance;
    assert gap * TWO_53 < d;
  }

  lemma {:induction false} LengthBelow(i: nat, n: nat)
    requires 0 < i < Pow10(n)
    ensures |Digits(i)| <= n && |StripTrailing(Digits(i))| <= n
  {
    var text := Digits(i);
    hide Digits, Pow10, Value;
    ValueBounds(text);
    StripKeepsHead(text);
    if |text| > n {
      Pow10Monotone(n, |text| - 1);
    }
  }

  lemma {:induction false} PowerDigits(n: nat)
    requires Pow10(n) < TEN_TO_21
    ensures |DecimalOf(Pow10(n)).digits| == 1
  {
    var f := Finite(false, "1", n);
    assert "1"[..0] == "" && Value("1") == 1;
    hide Pow10, DecimalOf, Value;
    assert Denotes(f, Pow10(n));
    TextsAgreeExactly(f, Pow10(n));
  }

  lemma {:induction false} QuotientOf(v: nat, p: nat, bound: nat, q: real)
    requires p > 0 && q == v as real / p as real && v < bound * p
    ensures q < bound as real
  {
    assert q * p as real == v as real;
    assert (bound * p) as real == bound as real * p as real;
    QuotientBelow(v as real, q, p as real, bound as real);
  }

  // The point stands after n digits.
  lemma {:induction false} DecimalBelow(v: nat, k: nat, n: nat)
    requires v < Pow10(k) && n < k
    ensures Decimal(v, n - k) < Pow10(n) as real
  {
    Pow10Sum(n, k - n);
    var p, q := Pow10(k - n), Decimal(v, n - k);
    hide Pow10;
    assert q == v as real / p as real;
    hide Decimal;
    QuotientOf(v, p, Pow10(n), q);
  }

  lemma {:induction false} QuantityBelow(f: Double)
    requires f.Finite? && IsNormal(f.digits) && 0 <= f.exponent + 1 < |f.digits|
    ensures Quantity(f) < Pow10(f.exponent + 1) as real
  {
    hide Value, Pow10, Decimal;
    ValueBounds(f.digits);
    DecimalBelow(Value(f.digits), |f.digits|, f.exponent + 1);
  }

  // With a fraction, the digits are more than the integer has.
  lemma {:induction false} FractionIsLonger(f: Double, i: int)
    requires Holds(f, i) && 0 < Magnitude(i) <= TWO_53 && f.exponent + 1 < |f.digits|
    ensures |f.digits| > |DecimalOf(i).digits|
  {
    var n, m := f.exponent + 1, Magnitude(i);
    if n <= 0 {
      BelowOne(f, i);
    } else {
      NearQuantity(f, i);
      QuantityBelow(f);
      DecimalLength(i);
      NearBelow(f, i);
      hide Pow10, Holds, DecimalOf, StripTrailing, Digits, Quantity, Distance;
      if m < Pow10(n) {
        LengthBelow(m, n);
      } else {
        NotAbove(Quantity(f), m, Pow10(n));
        PowerDigits(n);
        SameMagnitude(i);
      }
    }
  }

  lemma {:induction false} NearBelow(f: Double, i: int)
    requires f.Finite? && IsNormal(f.digits) && Distance(f, i) * TWO_53 as real < Quantity(f)
    ensures (Magnitude(i) as real - Quantity(f)) * TWO_53 as real < Quantity(f)
  {
  }

  lemma {:induction false} QuotientBelow(v: real, q: real, p: real, bound: real)
    requires p > 0.0 && q * p == v && v < bound * p
    ensures q < bound
  {
    assert q >= bound ==> q * p >= bound * p;
  }

  lemma {:induction false} DecimalLength(i: int)
    requires i != 0
    ensures |DecimalOf(i).digits| == |StripTrailing(Digits(Magnitude(i)))|
  {
  }

  lemma {:induction false} SameMagnitude(i: int)
    requires i != 0
    ensures |DecimalOf(i).digits| == |DecimalOf(Magnitude(i)).digits|
  {
  }

  lemma {:induction false} NotAbove(q: real, m: nat, p: nat)
    requires 0.0 < q < p as real && p <= m <= TWO_53
    requires (m as real - q) * TWO_53 as real < q
    ensures m == p
  {
    assert m as real - q < 1.0;
  }

  // A decimal below one has at most the value of its first digit in the first place.
  lemma {:induction false} DecimalSmall(v: nat, k: nat, n: int)
    requires 1 <= k && v < Pow10(k) && n <= 0
    ensures Decimal(v, n - k) < 1.0 && (k == 1 ==> Decimal(v, n - k) <= 0.9)
  {
    Pow10Monotone(k, k - n);
    var p, q := Pow10(k - n), Decimal(v, n - k);
    assert Pow10(1) == 10;
    hide Pow10;
    assert q * p as real == v as real;
    hide Decimal;
    QuotientBelow(v as real, q, p as real, 1.0);
    if k == 1 {
      AtMostNineTenths(v, p, q);
    }
  }

  lemma {:induction false} SmallQuantity(f: Double)
    requires f.Finite? && IsNormal(f.digits) && f.exponent + 1 <= 0
    ensures Quantity(f) < 1.0 && (|f.digits| == 1 ==> Quantity(f) <= 0.9)
  {
    hide Value, Pow10, Decimal;
    ValueBounds(f.digits);
    DecimalSmall(Value(f.digits), |f.digits|, f.exponent + 1);
  }

  lemma {:induction false} AtMostNineTenths(v: nat, p: nat, q: real)
    requires v <= 9 && p >= 10 && q * p as real == v as real
    ensures q <= 0.9
  {
    assert q > 0.9 ==> q * p as real > 0.9 * p as real;
  }

  lemma {:induction false} BelowOne(f: Double, i: int)
    requires Holds(f, i) && 0 < Magnitude(i) <= TWO_53 && f.exponent + 1 <= 0
    ensures |f.digits| > |DecimalOf(i).digits|
  {
    NearQuantity(f, i);
    SmallQuantity(f);
    NearBelow(f, i);
    PowZero();
    PowerDigits(0);
    SameMagnitude(i);
    hide Quantity, Distance, Holds, DecimalOf, Pow10;
    assert Magnitude(i) == 1;
  }

  lemma {:induction false} ShortIsExact(f: Double, i: int)
    requires Holds(f, i) && 0 < Magnitude(i) <= TWO_53 && |f.digits| <= |DecimalOf(i).digits|
    ensures Denotes(f, i) || (Magnitude(i) == TWO_53 && Denotes(f, if i < 0 then i - 1 else i + 1))
  {
    hide Holds, Denotes, DecimalOf, Quantity;
    HoldsParts(f, i);
    if f.exponent + 1 < |f.digits| {
      FractionIsLonger(f, i);
    } else {
      var d := WholeQuantity(f, i);
      DenotesQuantity(f, i);
      DenotesQuantity(f, if i < 0 then i - 1 else i + 1);
    }
  }

  lemma {:induction false} HoldsParts(f: Double, i: int)
    requires Holds(f, i)
    ensures f.Finite? && IsNormal(f.digits) && f.negative == (i < 0)
  {
  }

  lemma {:induction false} DecimalHolds(i: int)
    requires 0 < Magnitude(i) <= TWO_53
    ensures Holds(DecimalOf(i), i) && Distance(DecimalOf(i), i) == 0.0
  {
    DecimalDenotes(i);
    hide Quantity, ToDouble, DecimalOf;
    DenotesQuantity(DecimalOf(i), i);
    IntegerExact(Magnitude(i));
  }

  lemma {:induction false} Powers()
    ensures Pow10(15) == 1_000_000_000_000_000 && Pow10(16) == 10_000_000_000_000_000
  {
    assert Pow10(7) == 10_000_000;
    assert Pow10(8) == 10 * Pow10(7);
    Pow10Sum(8, 7);
    assert Pow10(16) == 10 * Pow10(15);
  }

  // An integer of sixteen digits that does not end in 0 keeps them all.
  lemma {:induction false} SixteenDigits(n: nat)
    requires 1_000_000_000_000_000 <= n < 10_000_000_000_000_000 && n % 10 != 0
    ensures |DecimalOf(n).digits| == 16
  {
    var text := Digits(n);
    hide Digits, Value, StripTrailing;
    OwnDigits(n);
    ValueBounds(text);
    hide Pow10;
    Powers();
    if |text| < 16 {
      Pow10Monotone(|text|, 15);
    } else if |text| > 16 {
      Pow10Monotone(16, |text| - 1);
    }
  }

  // The digits that a library yields for a double holding an integer up to 2^53 are the integer's own.
  lemma {:induction false} SafeDigits(f: Double, i: int)
    requires 0 < Magnitude(i) <= TWO_53
    ensures IsLibraryDouble(f, i) <==> f == DecimalOf(i)
  {
    DecimalHolds(i);
    var exact := DecimalOf(i);
    hide Holds, Denotes, DecimalOf, Distance;
    if IsLibraryDouble(f, i) {
      ShortIsExact(f, i);
      HoldsParts(f, i);
      ExactOrNext(f, i);
    }
    if f == exact {
      forall g | Holds(g, i)
        ensures |f.digits| < |g.digits| || (|f.digits| == |g.digits| && Distance(f, i) <= Distance(g, i))
      {
        HoldsParts(g, i);
        DistancePositive(g, i);
        if |g.digits| < |f.digits| {
          ShortIsExact(g, i);
          ExactOrNext(g, i);
        }
      }
    }
  }

  lemma {:induction false} DistancePositive(f: Double, i: int)
    requires f.Finite? && IsNormal(f.digits)
    ensures Distance(f, i) >= 0.0
  {
  }

  lemma {:induction false} NextDistance(f: Double, i: int)
    requires f.Finite? && IsNormal(f.digits) && Quantity(f) == (Magnitude(i) + 1) as real
    ensures Distance(f, i) > 0.0
  {
  }

  lemma {:induction false} DenotesOnly(f: Double, i: int)
    requires f.Finite? && IsNormal(f.digits) && 0 < Magnitude(i) < TEN_TO_21
    ensures Denotes(f, i) <==> f == DecimalOf(i)
  {
    hide NumberText, IntegerText, Denotes, DecimalOf;
    TextsAgreeExactly(f, i);
  }

  lemma {:induction false} EdgeLength(i: int)
    requires Magnitude(i) == TWO_53 || Magnitude(i) == TWO_53 + 1
    ensures |DecimalOf(i).digits| == 16
  {
    hide DecimalOf;
    SixteenDigits(Magnitude(i));
    SameMagnitude(i);
  }

  // The decimal next to 2^53 is no shorter and further off.
  lemma {:induction false} ExactOrNext(f: Double, i: int)
    requires 0 < Magnitude(i) <= TWO_53 && f.Finite? && IsNormal(f.digits)
    requires Denotes(f, i) || (Magnitude(i) == TWO_53 && Denotes(f, if i < 0 then i - 1 else i + 1))
    ensures f == DecimalOf(i) || (|f.digits| == |DecimalOf(i).digits| && Distance(f, i) > 0.0)
  {
    hide DecimalOf, Quantity, Distance, IsNormal, Denotes;
    DenotesOnly(f, i);
    if !Denotes(f, i) {
      var next := if i < 0 then i - 1 else i + 1;
      DenotesOnly(f, next);
      SignOf(f, next);
      DenotesQuantity(f, next);
      NextDistance(f, i);
      EdgeLength(i);
      EdgeLength(next);
    }
  }

  lemma {:induction false} SignOf(f: Double, i: int)
    requires Denotes(f, i)
    ensures f.Finite? && f.negative == (i < 0)
  {
  }

  // The exact-integer path prints what the library's digits print for the double of the same value,
  // for every integer up to 2^53.
  lemma {:induction false} IntegerPathAgrees(f: Double, i: int)
    requires Magnitude(i) <= TWO_53 && if i == 0 then f.Zero? else IsLibraryDouble(f, i)
    ensures IsPrintable(f) && NumberText(f) == IntegerText(i)
  {
    if i == 0 {
      assert Digits(0) == "0";
    } else {
      SafeDigits(f, i);
      IntegerPathWrites(i);
    }
  }

  // ---------- above 2^53 ----------

  const TWO_60: int := 0x1000_0000_0000_0000

  // What the Go library yields for 2^60.
  function Shorter60(): Double {
    Finite(false, Digits(1152921504606847), 18)
  }

  // The digits of a number that does not end in 0.
  lemma {:induction false} OwnDigits(n: nat)
    requires n % 10 != 0
    ensures IsNormal(Digits(n)) && StripTrailing(Digits(n)) == Digits(n)
  {
    var text := Digits(n);
    assert text[|text| - 1] == DigitChar(n % 10) != '0';
  }

  lemma {:induction false} Shorter60Parts()
    ensures IsNormal(Shorter60().digits) && |Shorter60().digits| == 16
    ensures Quantity(Shorter60()) == 1152921504606847000.0
  {
    var n := 1152921504606847;
    hide Digits, Value, StripTrailing, DecimalOf;
    OwnDigits(n);
    SixteenDigits(n);
    DecimalLength(n);
    assert Pow10(3) == 1000;
    hide Pow10;
    assert Decimal(n, 3) == 1152921504606847000.0;
  }

  lemma {:induction false} Rounds60()
    ensures RoundPositive(1152921504606847000.0) == TWO_60 as real
  {
    var y := 4503599627370496.09375;
    RoundDoubled(y, 8);
    assert y.Floor == 4503599627370496;
    assert RoundPositive(y) == 4503599627370496.0;
    hide RoundPositive;
    assert Doubled(y, 4) == 16.0 * y && Doubled(y, 8) == 16.0 * Doubled(y, 4);
    var z := 4503599627370496.0;
    assert Doubled(z, 4) == 16.0 * z && Doubled(z, 8) == 16.0 * Doubled(z, 4);
  }

  lemma {:induction false} Shorter60Holds()
    ensures Holds(Shorter60(), TWO_60) && |Shorter60().digits| == 16
    ensures Denotes(Shorter60(), 1152921504606847000)
  {
    Shorter60Parts();
    Rounds60();
    hide Digits, Quantity, RoundPositive, Denotes;
    DenotesQuantity(Shorter60(), 1152921504606847000);
  }

  // The shortfall: no library double of 2^60 prints as the integer does; the Go text is
  // 1152921504606847000, the Rust integer text 1152921504606846976.
  lemma {:induction false} TwoTo60Differs(f: Double)
    ensures Holds(Shorter60(), TWO_60) && NumberText(Shorter60()) == IntegerText(1152921504606847000)
    ensures IntegerText(1152921504606847000) != IntegerText(TWO_60)
    ensures IsLibraryDouble(f, TWO_60) ==> NumberText(f) != IntegerText(TWO_60)
  {
    Shorter60Holds();
    HoldsParts(Shorter60(), TWO_60);
    hide Shorter60, Holds, Denotes, Digits, DecimalOf, NumberText, Distance, Value;
    TextsAgreeExactly(Shorter60(), 1152921504606847000);
    DifferentTexts(1152921504606847000, TWO_60);
    if IsLibraryDouble(f, TWO_60) {
      HoldsParts(f, TWO_60);
      TextsAgreeExactly(f, TWO_60);
      LongDigits(TWO_60);
    }
  }

  lemma {:induction false} DifferentTexts(i: nat, j: nat)
    requires i != j
    ensures IntegerText(i) != IntegerText(j)
  {
    hide Digits;
    assert Value(Digits(i)) != Value(Digits(j));
  }

  lemma {:induction false} LongDigits(n: nat)
    requires n >= 10_000_000_000_000_000 && n % 10 != 0
    ensures |DecimalOf(n).digits| > 16
  {
    var text := Digits(n);
    hide Digits, Value, StripTrailing;
    OwnDigits(n);
    DecimalLength(n);
    ValueBounds(text);
    hide Pow10, DecimalOf, IsNormal;
    Powers();
    if |text| <= 16 {
      Pow10Monotone(|text|, 16);
    }
  }

  // ---------- same value, same text ----------

  // i held as an integer and f held as a double are the same number.
  ghost predicate HeldAs(f: Double, i: int) {
    if i == 0 then f.Zero? else IsLibraryDouble(f, i)
  }

  // The same JSON value, however its numbers are held.
  ghost predicate SameValue(a: Json, b: Json)
    decreases a
  {
    match (a, b)
    case (Integer(i), Integer(j)) => i == j
    case (Integer(i), Float(g)) => HeldAs(g, i)
    case (Float(f), Integer(j)) => HeldAs(f, j)
    case (Float(f), Float(g)) => f == g || (f.Zero? && g.Zero?)
    case (Arr(s), Arr(t)) => |s| == |t| && forall n :: 0 <= n < |s| ==> SameValue(s[n], t[n])
    case (Obj(m), Obj(n)) => m.Keys == n.Keys && forall k :: k in m ==> SameValue(m[k], n[k])
    case _ => a == b
  }

  // Integers are held as such up to 2^53 only.
  ghost predicate SafeIntegers(v: Json)
    decreases v
  {
    match v
    case Integer(i) => Magnitude(i) <= TWO_53
    case Arr(items) => forall x :: x in items ==> SafeIntegers(x)
    case Obj(fields) => forall k :: k in fields ==> SafeIntegers(fields[k])
    case _ => true
  }

  lemma {:induction false} SafeIntegersFit(v: Json)
    requires SafeIntegers(v)
    ensures IntegersFit(v)
    decreases v
  {
    match v
    case Arr(items) =>
      forall x | x in items ensures IntegersFit(x) {
        SafeIntegersFit(x);
      }
    case Obj(fields) =>
      forall k | k in fields ensures IntegersFit(fields[k]) {
        SafeIntegersFit(fields[k]);
      }
    case _ =>
  }

  lemma {:induction false} DecimalInjective(i: int, j: int)
    ensures DecimalOf(i) == DecimalOf(j) <==> i == j
  {
    if i != 0 && j != 0 && DecimalOf(i) == DecimalOf(j) {
      DecimalDenotes(i);
      DecimalDenotes(j);
      hide DecimalOf, SameQuantity, Value;
      var f := DecimalOf(i);
      DenotesQuantity(f, i);
      DenotesQuantity(f, j);
      SameReal(Magnitude(i), Magnitude(j));
    }
  }

  lemma {:induction false} HeldAsDecimal(f: Double, i: int)
    requires Magnitude(i) <= TWO_53
    ensures HeldAs(f, i) <==> (if f.Zero? then Zero(false) else f) == DecimalOf(i)
  {
    if i != 0 {
      SafeDigits(f, i);
      hide IsLibraryDouble;
      ZeroHolds(f, i);
    }
  }

  lemma {:induction false} ZeroHolds(f: Double, i: int)
    ensures IsLibraryDouble(f, i) ==> f.Finite?
  {
  }

  lemma {:induction false} CanonItemsAt(items: seq<Json>, n: nat)
    requires n < |items|
    ensures CanonItems(items)[n] == Canon(items[n])
  {
    if n > 0 {
      CanonItemsAt(items[1..], n - 1);
    }
  }

  lemma {:induction false} SameValueCanon(a: Json, b: Json)
    requires SafeIntegers(a) && SafeIntegers(b)
    ensures SameValue(a, b) <==> Canon(a) == Canon(b)
    decreases a
  {
    hide HeldAs, DecimalOf;
    match (a, b)
    case (Integer(i), Integer(j)) => DecimalInjective(i, j);
    case (Integer(i), Float(g)) => HeldAsDecimal(g, i);
    case (Float(f), Integer(j)) => HeldAsDecimal(f, j);
    case (Arr(s), Arr(t)) => SameItemsCanon(s, t);
    case (Obj(m), Obj(n)) =>
      forall k | k in m && k in n ensures SameValue(m[k], n[k]) <==> Canon(m[k]) == Canon(n[k]) {
        SameValueCanon(m[k], n[k]);
      }
      SameFieldsCanon(m, n);
    case _ =>
  }

  lemma {:induction false} SameItemsCanon(s: seq<Json>, t: seq<Json>)
    requires forall x :: x in s || x in t ==> SafeIntegers(x)
    ensures (|s| == |t| && forall n :: 0 <= n < |s| ==> SameValue(s[n], t[n])) <==> CanonItems(s) == CanonItems(t)
    decreases s
  {
    forall n | 0 <= n < |s| && n < |t|
      ensures SameValue(s[n], t[n]) <==> CanonItems(s)[n] == CanonItems(t)[n]
    {
      SameValueCanon(s[n], t[n]);
      CanonItemsAt(s, n);
      CanonItemsAt(t, n);
    }
  }

  lemma {:induction false} SameFieldsCanon(m: map<string, Json>, n: map<string, Json>)
    requires forall k :: k in m && k in n ==> (SameValue(m[k], n[k]) <==> Canon(m[k]) == Canon(n[k]))
    ensures (m.Keys == n.Keys && forall k :: k in m ==> SameValue(m[k], n[k])) <==> Canon(Obj(m)) == Canon(Obj(n))
  {
    hide SameValue;
    var x, y := Canon(Obj(m)).fields, Canon(Obj(n)).fields;
    assert x.Keys == m.Keys && y.Keys == n.Keys;
    if m.Keys == n.Keys {
      assert x == y <==> forall k :: k in m ==> x[k] == y[k];
    }
  }

  // With integers up to 2^53, two printable values have the same canonical text, and the same bytes,
  // exactly when they are the same value.
  lemma {:induction false} SameTextSameValue(a: Json, b: Json)
    requires Printable(a) && Printable(b) && SafeIntegers(a) && SafeIntegers(b)
    ensures Print(a) == Print(b) <==> SameValue(a, b)
    ensures Utf8(Print(a)) == Utf8(Print(b)) <==> SameValue(a, b)
  {
    hide Utf8, Print, SameValue, Canon, Printable;
    SafeIntegersFit(a);
    SafeIntegersFit(b);
    SameTextSameDecimals(a, b);
    SameValueCanon(a, b);
  }
}
