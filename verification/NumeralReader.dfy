// A reader for the JSON numerals of RFC 8259, section 6, and what it finds in the layouts of
// Numerals: the double they were printed from.
module NumeralReader {
  import opened Wrappers
  import opened Numerals

  // ---------- reading numerals ----------

  // The grammar of RFC 8259, section 6, with exponent sign and digits already evaluated.
  datatype Numeral = Numeral(negative: bool, whole: string, fraction: string, exponent: int)

  function TakeDigits(t: string): (r: (string, string))
    ensures AllDigits(r.0) && t == r.0 + r.1
    ensures r.1 == "" || !IsDigit(r.1[0])
  {
    if t == "" || !IsDigit(t[0]) then ("", t)
    else
      var (ds, rest) := TakeDigits(t[1..]);
      ([t[0]] + ds, rest)
  }

  function ReadExponent(t: string): (r: Option<(int, string)>)
    ensures r.Some? ==> |r.value.1| <= |t|
  {
    if t == "" || (t[0] != 'e' && t[0] != 'E') then Some((0, t))
    else
      var signed := |t| > 1 && (t[1] == '+' || t[1] == '-');
      var (ds, rest) := TakeDigits(if signed then t[2..] else t[1..]);
      if ds == "" then None
      else
        var magnitude: int := Value(ds);
        Some((if signed && t[1] == '-' then -magnitude else magnitude, rest))
  }

  function ReadFraction(t: string): (r: Option<(string, string)>)
    ensures r.Some? ==> AllDigits(r.value.0) && |r.value.1| <= |t|
  {
    if t == "" || t[0] != '.' then Some(("", t))
    else
      var (ds, rest) := TakeDigits(t[1..]);
      if ds == "" then None else Some((ds, rest))
  }

  function ReadNumeral(t: string): (r: Option<(Numeral, string)>)
    ensures r.Some? ==>
      |r.value.1| < |t| && AllDigits(r.value.0.whole) && r.value.0.whole != "" && AllDigits(r.value.0.fraction)
  {
    var negative := t != "" && t[0] == '-';
    var (whole, t1) := TakeDigits(if negative then t[1..] else t);
    if whole == "" || (whole[0] == '0' && |whole| > 1) then None
    else
      var f := ReadFraction(t1);
      if f.None? then None
      else
        var e := ReadExponent(f.value.1);
        if e.None? then None
        else Some((Numeral(negative, whole, f.value.0, e.value.0), e.value.1))
  }

  function StripLeading(s: string): (r: string)
    ensures |r| <= |s|
  {
    if s != "" && s[0] == '0' then StripLeading(s[1..]) else s
  }

  function StripTrailing(s: string): string {
    if s != "" && s[|s| - 1] == '0' then StripTrailing(s[..|s| - 1]) else s
  }

  // The double a numeral stands for, in normal form.
  function Normalized(m: Numeral): Double {
    var all := m.whole + m.fraction;
    var stripped := StripLeading(all);
    var digits := StripTrailing(stripped);
    if digits == "" then Zero(false)
    else Finite(m.negative, digits, |m.whole| + m.exponent - (|all| - |stripped|) - 1)
  }

  // ---------- the layout read back ----------

  // The text that follows does not continue a numeral.
  predicate Stops(rest: string) {
    rest == "" || !(IsDigit(rest[0]) || rest[0] in ".eE")
  }

  lemma {:induction false} TakeDigitsOf(ds: string, rest: string)
    requires AllDigits(ds) && (rest == "" || !IsDigit(rest[0]))
    ensures TakeDigits(ds + rest) == (ds, rest)
  {
    if ds == "" {
      assert ds + rest == rest;
    } else {
      assert (ds + rest)[1..] == ds[1..] + rest;
      TakeDigitsOf(ds[1..], rest);
      assert [ds[0]] + ds[1..] == ds;
    }
  }

  lemma {:induction false} StripLeadingZeros(n: nat, s: string)
    requires s != "" && s[0] != '0'
    ensures StripLeading(Zeros(n) + s) == s
  {
    if n == 0 {
      assert Zeros(0) + s == s;
    } else {
      assert (Zeros(n) + s)[1..] == Zeros(n - 1) + s;
      StripLeadingZeros(n - 1, s);
    }
  }

  lemma {:induction false} StripTrailingZeros(s: string, n: nat)
    requires s != "" && s[|s| - 1] != '0'
    ensures StripTrailing(s + Zeros(n)) == s
  {
    if n == 0 {
      assert s + Zeros(0) == s;
    } else {
      var t := s + Zeros(n);
      assert t[..|t| - 1] == s + Zeros(n - 1);
      StripTrailingZeros(s, n - 1);
    }
  }

  lemma {:induction false} ReadSignedAt(t: string, sign: char, ds: string, rest: string)
    requires sign == '+' || sign == '-'
    requires |t| >= 2 && t[0] == 'e' && t[1] == sign && t[2..] == ds + rest
    requires AllDigits(ds) && ds != "" && TakeDigits(ds + rest) == (ds, rest)
    ensures ReadExponent(t) == Some((if sign == '-' then -(Value(ds) as int) else Value(ds) as int, rest))
  {
    hide Value, TakeDigits, AllDigits;
  }

  lemma {:induction false} ReadSigned(e: int, rest: string)
    requires rest == "" || !IsDigit(rest[0])
    ensures ReadExponent("e" + SignedDigits(e) + rest) == Some((e, rest))
  {
    hide Digits, Value, ReadExponent, TakeDigits, AllDigits;
    var ds, sign := Digits(if e >= 0 then e else -e), if e >= 0 then '+' else '-';
    var t := "e" + SignedDigits(e) + rest;
    assert SignedDigits(e) == [sign] + ds;
    assert t == ['e', sign] + (ds + rest);
    TakeDigitsOf(ds, rest);
    ReadSignedAt(t, sign, ds, rest);
  }

  // What the reader finds in a layout: exactly the numeral the four rules describe.
  function LayoutNumeral(negative: bool, digits: string, n: int): Numeral
    requires |digits| >= 1
  {
    var k := |digits|;
    if k <= n <= 21 then Numeral(negative, digits + Zeros(n - k), "", 0)
    else if 0 < n <= 21 then Numeral(negative, digits[..n], digits[n..], 0)
    else if -6 < n <= 0 then Numeral(negative, "0", Zeros(-n) + digits, 0)
    else Numeral(negative, digits[..1], digits[1..], n - 1)
  }

  function Sign(negative: bool): string {
    if negative then "-" else ""
  }

  lemma {:induction false} ReadFractionOf(fraction: string, rest: string)
    requires AllDigits(fraction) && (rest == "" || !(IsDigit(rest[0]) || rest[0] == '.'))
    ensures ReadFraction((if fraction == "" then "" else "." + fraction) + rest) == Some((fraction, rest))
  {
    if fraction == "" {
      assert "" + rest == rest;
    } else {
      var t := "." + fraction + rest;
      assert t[1..] == fraction + rest;
      TakeDigitsOf(fraction, rest);
    }
  }

  lemma {:induction false} ReadExponentOf(e: int, exponent: string, rest: string)
    requires (exponent == "" && e == 0) || exponent == "e" + SignedDigits(e)
    requires Stops(rest)
    ensures ReadExponent(exponent + rest) == Some((e, rest))
    ensures exponent + rest == "" || !(IsDigit((exponent + rest)[0]) || (exponent + rest)[0] == '.')
  {
    if exponent == "" {
      assert exponent + rest == rest;
    } else {
      ReadSigned(e, rest);
    }
  }

  lemma {:induction false} ReadParts(m: Numeral, fraction: string, exponent: string, rest: string)
    requires m.whole != "" && AllDigits(m.whole) && (m.whole[0] == '0' ==> |m.whole| == 1)
    requires AllDigits(m.fraction) && fraction == (if m.fraction == "" then "" else "." + m.fraction)
    requires (exponent == "" && m.exponent == 0) || exponent == "e" + SignedDigits(m.exponent)
    requires Stops(rest)
    ensures ReadNumeral(Sign(m.negative) + (m.whole + (fraction + (exponent + rest)))) == Some((m, rest))
  {
    var t2 := exponent + rest;
    var t1 := fraction + t2;
    var t := Sign(m.negative) + (m.whole + t1);
    ReadExponentOf(m.exponent, exponent, rest);
    ReadFractionOf(m.fraction, t2);
    assert IsDigit(m.whole[0]);
    assert t != "" && (t[0] == '-' <==> m.negative);
    assert (if m.negative then t[1..] else t) == m.whole + t1;
    assert t1 == "" || !IsDigit(t1[0]);
    TakeDigitsOf(m.whole, t1);
    hide *;
    ReadNumeralAt(t, m.negative, m.whole, t1, m.fraction, t2, m.exponent, rest);
  }

  // ReadNumeral, given what its parts read.
  lemma {:induction false} ReadNumeralAt(t: string, negative: bool, whole: string, t1: string, fraction: string,
                                         t2: string, exponent: int, rest: string)
    requires t != "" && (t[0] == '-' <==> negative)
    requires TakeDigits(if negative then t[1..] else t) == (whole, t1)
    requires whole != "" && (whole[0] == '0' ==> |whole| == 1)
    requires ReadFraction(t1) == Some((fraction, t2)) && ReadExponent(t2) == Some((exponent, rest))
    ensures ReadNumeral(t) == Some((Numeral(negative, whole, fraction, exponent), rest))
  {
  }

  lemma {:induction false} LayoutNumeralDigits(negative: bool, digits: string, n: int)
    requires IsNormal(digits)
    ensures var m := LayoutNumeral(negative, digits, n);
      m.whole != "" && AllDigits(m.whole) && (m.whole[0] == '0' ==> |m.whole| == 1) && AllDigits(m.fraction)
  {
  }

  // The layout is the numeral's parts written one after the other.
  lemma {:induction false} LayoutText(negative: bool, digits: string, n: int)
    requires |digits| >= 1
    ensures var m := LayoutNumeral(negative, digits, n);
      Layout(digits, n) == m.whole + (if m.fraction == "" then "" else "." + m.fraction)
                           + (if -6 < n <= 21 then "" else "e" + SignedDigits(n - 1))
  {
    hide SignedDigits, Zeros;
    var m := LayoutNumeral(negative, digits, n);
    if |digits| <= n <= 21 {
      assert m.whole + "" + "" == m.whole;
    } else if 0 < n <= 21 {
      assert m.whole + ("." + m.fraction) + "" == m.whole + "." + m.fraction;
    } else if -6 < n <= 0 {
      assert "0" + ("." + m.fraction) + "" == "0." + m.fraction;
      assert "0." + Zeros(-n) + digits == "0." + m.fraction;
    } else if |digits| == 1 {
      assert digits[..1] == digits && digits + "" == digits;
      assert digits + "" + ("e" + SignedDigits(n - 1)) == digits + "e" + SignedDigits(n - 1);
    } else {
      assert m.whole + ("." + m.fraction) + ("e" + SignedDigits(n - 1))
          == m.whole + "." + m.fraction + "e" + SignedDigits(n - 1);
    }
  }

  lemma {:induction false} LayoutReads(negative: bool, digits: string, n: int, rest: string)
    requires IsNormal(digits) && Stops(rest)
    ensures ReadNumeral(Sign(negative) + Layout(digits, n) + rest) == Some((LayoutNumeral(negative, digits, n), rest))
  {
    var m := LayoutNumeral(negative, digits, n);
    var fraction := if m.fraction == "" then "" else "." + m.fraction;
    var exponent := if -6 < n <= 21 then "" else "e" + SignedDigits(n - 1);
    LayoutNumeralDigits(negative, digits, n);
    LayoutText(negative, digits, n);
    assert m.negative == negative && (-6 < n <= 21 ==> m.exponent == 0) && (!(-6 < n <= 21) ==> m.exponent == n - 1);
    var whole, exponentValue := m.whole, m.exponent;
    assert (exponent == "" && exponentValue == 0) || exponent == "e" + SignedDigits(exponentValue);
    assert Layout(digits, n) == whole + fraction + exponent;
    hide *;
    ReadParts(m, fraction, exponent, rest);
    Associate(Sign(negative), whole, fraction, exponent, rest);
  }

  lemma {:induction false} Associate(a: string, b: string, c: string, d: string, e: string)
    ensures a + (b + c + d) + e == a + (b + (c + (d + e)))
  {
    assert b + c + d + e == b + (c + (d + e));
    assert a + (b + c + d) + e == a + (b + c + d + e);
  }

  lemma {:induction false} LayoutNormalizes(negative: bool, digits: string, n: int)
    requires IsNormal(digits)
    ensures Normalized(LayoutNumeral(negative, digits, n)) == Finite(negative, digits, n - 1)
  {
    var k, m := |digits|, LayoutNumeral(negative, digits, n);
    var all := m.whole + m.fraction;
    StripTrailingZeros(digits, 0);
    assert digits + Zeros(0) == digits;
    if k <= n <= 21 {
      assert all == digits + Zeros(n - k);
      StripTrailingZeros(digits, n - k);
    } else if -6 < n <= 0 {
      assert all == Zeros(1 - n) + digits;
      StripLeadingZeros(1 - n, digits);
    } else {
      assert all == digits;
    }
  }

  lemma {:induction false} ZeroNormalizes()
    ensures Normalized(Numeral(false, "0", "", 0)) == Zero(false)
  {
    assert "0" + "" == "0" && "0"[1..] == "";
  }

  // Printing a double and reading it back gives the same double, so distinct doubles print
  // differently (the two zeros excepted).
  lemma {:induction false} NumberRoundTrip(f: Double, rest: string)
    requires IsPrintable(f) && Stops(rest)
    ensures var r := ReadNumeral(NumberText(f) + rest);
      r.Some? && r.value.1 == rest && Normalized(r.value.0) == if f.Zero? then Zero(false) else f
  {
    hide Layout, LayoutNumeral, ReadNumeral, Normalized, IsNormal;
    if f.Zero? {
      ZeroNormalizes();
      var m := Numeral(false, "0", "", 0);
      ReadParts(m, "", "", rest);
      assert Sign(false) + ("0" + ("" + ("" + rest))) == "0" + rest;
    } else {
      LayoutReads(f.negative, f.digits, f.exponent + 1, rest);
      LayoutNormalizes(f.negative, f.digits, f.exponent + 1);
    }
  }

  lemma {:induction false} NumberTextInjective(f: Double, g: Double)
    requires IsPrintable(f) && IsPrintable(g) && NumberText(f) == NumberText(g)
    ensures f == g || (f.Zero? && g.Zero?)
  {
    NumberRoundTrip(f, "");
    NumberRoundTrip(g, "");
  }

  // ---------- what a numeral denotes ----------

  // m1 x 10^e1 == m2 x 10^e2
  predicate SameQuantity(m1: nat, e1: int, m2: nat, e2: int) {
    if e1 <= e2 then m1 == m2 * Pow10(e2 - e1) else m2 == m1 * Pow10(e1 - e2)
  }

  // The digits of a layout, and the power of ten that scales them.
  lemma {:induction false} LayoutParts(digits: string, n: int)
    requires |digits| >= 1
    ensures var m := LayoutNumeral(false, digits, n);
      && m.whole + m.fraction == (if |digits| <= n <= 21 then digits + Zeros(n - |digits|)
                                  else if -6 < n <= 0 then Zeros(1 - n) + digits
                                  else digits)
      && m.exponent - |m.fraction| == if |digits| <= n <= 21 then 0 else n - |digits|
  {
    var m := LayoutNumeral(false, digits, n);
    if -6 < n <= 0 {
      assert m.whole + m.fraction == Zeros(1 - n) + digits;
    } else if |digits| > n || n > 21 {
      assert m.whole + m.fraction == digits;
    }
  }

  // Each of the four rules denotes exactly digits x 10^(n - |digits|).
  lemma {:induction false} LayoutDenotes(digits: string, n: int)
    requires IsNormal(digits)
    ensures var m := LayoutNumeral(false, digits, n);
      && AllDigits(m.whole + m.fraction)
      && SameQuantity(Value(m.whole + m.fraction), m.exponent - |m.fraction|, Value(digits), n - |digits|)
  {
    var k := |digits|;
    LayoutParts(digits, n);
    assert Pow10(0) == 1;
    hide Value, LayoutNumeral, Zeros;
    if k <= n <= 21 {
      ValueAppend(digits, Zeros(n - k));
      ValueZeros(n - k);
    } else if -6 < n <= 0 {
      ValueAppend(Zeros(1 - n), digits);
      ValueZeros(1 - n);
    }
  }

  // Whatever normal digits and exponent denote an integer below 10^21, the layout is its decimal text.
  lemma {:induction false} IntegerLayout(i: nat, digits: string, n: int)
    requires IsNormal(digits) && 0 < i < TEN_TO_21
    requires SameQuantity(Value(digits), n - |digits|, i, 0)
    ensures Layout(digits, n) == Digits(i)
  {
    hide Pow10, Digits, Value, SameQuantity;
    var k := |digits|;
    IntegerPoint(i, digits, n);
    var s := digits + Zeros(n - k);
    PaddedValue(i, digits, n);
    DigitsOfValue(s);
    ValueBounds(s);
    if n > 21 {
      TenTo21();
      Pow10Monotone(21, n - 1);
    }
  }

  lemma {:induction false} PaddedValue(i: nat, digits: string, n: int)
    requires AllDigits(digits) && n >= |digits| && SameQuantity(Value(digits), n - |digits|, i, 0)
    ensures AllDigits(digits + Zeros(n - |digits|)) && Value(digits + Zeros(n - |digits|)) == i
  {
    hide Value;
    ValueAppend(digits, Zeros(n - |digits|));
    ValueZeros(n - |digits|);
    if n == |digits| {
      assert Pow10(0) == 1;
    }
  }

  // Digits that denote an integer have no fraction.
  lemma {:induction false} IntegerPoint(i: nat, digits: string, n: int)
    requires IsNormal(digits) && SameQuantity(Value(digits), n - |digits|, i, 0)
    ensures n >= |digits|
  {
    LastDigitNotZero(digits);
    if n < |digits| {
      TimesTen(i, Pow10(|digits| - n - 1));
    }
  }

  lemma {:induction false} LastDigitNotZero(digits: string)
    requires IsNormal(digits)
    ensures Value(digits) % 10 != 0
  {
  }
}
