// Decimal text: the digits of integers, the ECMAScript layout of doubles that RFC 8785,
// section 3.2.2.3, prescribes (numberToString of go-sdk/canonicalize.go, format_f64 of
// rust-sdk/src/canonicalize.rs).
//
// The shortest round-tripping digits and exponent of a double come from library code and are
// taken as given.
module Numerals {
  import opened Wrappers

  // A double as the printers see it: digits d0 d1 ... dm stand for d0.d1...dm x 10^exponent.
  datatype Double =
    | NaN
    | Infinity(negative: bool)
    | Zero(negative: bool)
    | Finite(negative: bool, digits: string, exponent: int)

  // ---------- digit strings ----------

  predicate AllDigits(s: string) { forall i :: 0 <= i < |s| ==> IsDigit(s[i]) }

  function DigitValue(c: char): nat
    requires IsDigit(c)
  {
    c as int - '0' as int
  }

  function DigitChar(d: nat): (c: char)
    requires d < 10
    ensures IsDigit(c) && DigitValue(c) == d
  {
    ('0' as int + d) as char
  }

  // No leading and no trailing zero, as shortest formatting guarantees.
  predicate IsNormal(s: string) {
    |s| >= 1 && AllDigits(s) && s[0] != '0' && s[|s| - 1] != '0'
  }

  function Value(s: string): nat
    requires AllDigits(s)
  {
    if s == "" then 0 else Value(s[..|s| - 1]) * 10 + DigitValue(s[|s| - 1])
  }

  function Zeros(n: nat): (s: string)
    ensures |s| == n && AllDigits(s) && forall i :: 0 <= i < n ==> s[i] == '0'
  {
    seq(n, i => '0')
  }

  function Pow10(n: nat): (p: nat)
    ensures p >= 1
  {
    if n == 0 then 1 else 10 * Pow10(n - 1)
  }

  // The layout writes integers below this bound without an exponent.
  const TEN_TO_21: nat := 1_000_000_000_000_000_000_000

  lemma {:induction false} TenTo21()
    ensures Pow10(21) == TEN_TO_21
  {
    assert Pow10(7) == 10_000_000;
    Pow10Sum(7, 7);
    Pow10Sum(14, 7);
  }

  lemma {:induction false} Pow10Sum(a: nat, b: nat)
    ensures Pow10(a + b) == Pow10(a) * Pow10(b)
  {
    if a > 0 {
      Pow10Sum(a - 1, b);
    }
  }

  // Decimal digits of a natural number, as strconv.Itoa and Rust's Display print them.
  function Digits(n: nat): (s: string)
    ensures |s| >= 1 && AllDigits(s) && Value(s) == n
    ensures n > 0 ==> s[0] != '0'
  {
    if n < 10 then [DigitChar(n)] else
      var s := Digits(n / 10) + [DigitChar(n % 10)];
      assert s[..|s| - 1] == Digits(n / 10);
      s
  }

  lemma {:induction false} ValueLast(s: string, d: char)
    requires AllDigits(s) && IsDigit(d)
    ensures AllDigits(s + [d]) && Value(s + [d]) == Value(s) * 10 + DigitValue(d)
  {
    assert (s + [d])[..|s|] == s;
  }

  lemma {:induction false} ValueAppend(a: string, b: string)
    requires AllDigits(a) && AllDigits(b)
    ensures AllDigits(a + b) && Value(a + b) == Value(a) * Pow10(|b|) + Value(b)
  {
    if b == "" {
      assert a + b == a;
    } else {
      var c, d := b[..|b| - 1], b[|b| - 1];
      ValueAppend(a, c);
      ValueLast(a + c, d);
      ValueLast(c, d);
      assert a + b == a + c + [d] && b == c + [d];
      TimesTen(Value(a), Pow10(|c|));
      assert Pow10(|b|) == 10 * Pow10(|c|);
      hide Value, Pow10;
    }
  }

  lemma {:induction false} TimesTen(i: nat, p: nat)
    ensures i * (10 * p) == 10 * (i * p) && i * (10 * p) % 10 == 0
  {
  }

  lemma {:induction false} ValueZeros(n: nat)
    ensures Value(Zeros(n)) == 0
  {
    if n > 0 {
      assert Zeros(n)[..n - 1] == Zeros(n - 1);
      ValueZeros(n - 1);
    }
  }

  lemma {:induction false} ValueBounds(s: string)
    requires AllDigits(s) && s != "" && s[0] != '0'
    ensures Pow10(|s| - 1) <= Value(s) < Pow10(|s|)
  {
    if |s| > 1 {
      ValueBounds(s[..|s| - 1]);
    } else {
      assert s[..0] == "" && Pow10(1) == 10 * Pow10(0);
    }
  }

  lemma {:induction false} Pow10Monotone(a: nat, b: nat)
    requires a <= b
    ensures Pow10(a) <= Pow10(b)
  {
    if a < b {
      Pow10Monotone(a, b - 1);
    }
  }

  // A digit string without leading zero is the decimal text of its value.
  lemma {:induction false} DigitsOfValue(s: string)
    requires AllDigits(s) && s != "" && s[0] != '0'
    ensures Digits(Value(s)) == s
  {
    var front, last := s[..|s| - 1], s[|s| - 1];
    assert s == front + [last];
    if |s| > 1 {
      DigitsOfValue(front);
      ValueBounds(front);
      assert Value(s) / 10 == Value(front) && Value(s) % 10 == DigitValue(last);
    }
  }

  // ---------- the layout ----------

  function SignedDigits(e: int): string {
    if e >= 0 then "+" + Digits(e) else "-" + Digits(-e)
  }

  // digits x 10^(n - |digits|), by the four rules.
  function Layout(digits: string, n: int): string
    requires |digits| >= 1
  {
    var k := |digits|;
    if k <= n <= 21 then digits + Zeros(n - k)
    else if 0 < n <= 21 then digits[..n] + "." + digits[n..]
    else if -6 < n <= 0 then "0." + Zeros(-n) + digits
    else if k == 1 then digits + "e" + SignedDigits(n - 1)
    else digits[..1] + "." + digits[1..] + "e" + SignedDigits(n - 1)
  }

  predicate IsPrintable(f: Double) {
    f.Zero? || (f.Finite? && IsNormal(f.digits))
  }

  function NumberText(f: Double): string
    requires IsPrintable(f)
  {
    match f
    case Zero(_) => "0"
    case Finite(negative, digits, e) => (if negative then "-" else "") + Layout(digits, e + 1)
  }

  // An exponent is written exactly from 10^21 on and below 10^-6.
  lemma {:induction false} ExponentExactly(digits: string, n: int)
    requires |digits| >= 1 && AllDigits(digits)
    ensures 'e' in Layout(digits, n) <==> n > 21 || n <= -6
  {
    var t := Layout(digits, n);
    hide SignedDigits, Zeros;
    if n > 21 || n <= -6 {
      var at := if |digits| == 1 then 1 else |digits| + 1;
      assert t[at] == 'e';
    } else {
      forall i | 0 <= i < |t| ensures t[i] != 'e' {
        if |digits| <= n {
          assert t == digits + Zeros(n - |digits|);
        } else if 0 < n {
          assert t == digits[..n] + "." + digits[n..];
        } else {
          assert t == "0." + Zeros(-n) + digits;
        }
      }
    }
  }

  // Numbers next to each bound of the rules, as ECMAScript writes them.
  lemma {:induction false} LayoutExamples()
    ensures Layout("1", 21) == "100000000000000000000" && Layout("1", 22) == "1e+21" && Layout("12", 22) == "1.2e+21"
    ensures Layout("1", -5) == "0.000001" && Layout("1", -6) == "1e-7" && Layout("12", -6) == "1.2e-7"
    ensures Layout("12345", 3) == "123.45" && Layout("5", 0) == "0.5" && Layout("15", 2) == "15"
    ensures NumberText(Zero(true)) == NumberText(Zero(false)) == "0" && NumberText(Finite(true, "15", 0)) == "-1.5"
  {
    IntegerExamples();
    FractionExamples();
    ExponentExamples();
    assert NumberText(Zero(true)) == "0" && NumberText(Zero(false)) == "0";
    hide Layout;
    assert NumberText(Finite(true, "15", 0)) == "-" + "1.5" == "-1.5";
  }

  lemma {:induction false} IntegerExamples()
    ensures Layout("1", 21) == "100000000000000000000" && Layout("15", 2) == "15"
  {
    assert Zeros(20) == "00000000000000000000" && Zeros(0) == "";
    assert "1" + "00000000000000000000" == "100000000000000000000" && "15" + "" == "15";
  }

  lemma {:induction false} FractionExamples()
    ensures Layout("1", -5) == "0.000001" && Layout("12345", 3) == "123.45" && Layout("5", 0) == "0.5"
    ensures Layout("15", 1) == "1.5"
  {
    assert Zeros(5) == "00000" && Zeros(0) == "";
    assert "0." + "00000" + "1" == "0.000001" && "0." + "" + "5" == "0.5";
    assert "12345"[..3] + "." + "12345"[3..] == "123.45" && "15"[..1] + "." + "15"[1..] == "1.5";
  }

  lemma {:induction false} ExponentExamples()
    ensures Layout("1", 22) == "1e+21" && Layout("12", 22) == "1.2e+21"
    ensures Layout("1", -6) == "1e-7" && Layout("12", -6) == "1.2e-7"
  {
    TwoDigits();
    hide SignedDigits;
    assert "1" + "e" + "+21" == "1e+21" && "1" + "e" + "-7" == "1e-7";
    assert "12"[..1] + "." + "12"[1..] + "e" + "+21" == "1.2e+21";
    assert "12"[..1] + "." + "12"[1..] + "e" + "-7" == "1.2e-7";
  }

  lemma {:induction false} TwoDigits()
    ensures SignedDigits(21) == "+21" && SignedDigits(-7) == "-7"
  {
    assert Digits(2) == "2" && Digits(21) == Digits(2) + "1" == "21" && Digits(7) == "7";
    assert "+" + "21" == "+21" && "-" + "7" == "-7";
  }

  method AppendZeros(s: string, n: nat) returns (r: string)
    ensures r == s + Zeros(n)
  {
    r := s;
    for i := 0 to n
      invariant r == s + Zeros(i)
    {
      r := r + "0";
    }
  }

  // The four range rules of numberToString.
  method LayoutDigits(digits: string, n: int) returns (out: string)
    requires |digits| >= 1
    ensures out == Layout(digits, n)
  {
    hide Digits, Zeros, SignedDigits;
    var k := |digits|;
    if k <= n && n <= 21 {
      out := AppendZeros(digits, n - k);
    } else if 0 < n && n <= 21 {
      out := digits[..n] + "." + digits[n..];
    } else if -6 < n && n <= 0 {
      out := AppendZeros("0.", -n);
      out := out + digits;
    } else {
      var e := n - 1;
      var expStr := ExponentText(e);
      if k == 1 {
        return digits + expStr;
      }
      var mantissa := digits[..1] + "." + digits[1..];
      assert mantissa + ("e" + SignedDigits(e)) == mantissa + "e" + SignedDigits(e);
      return mantissa + expStr;
    }
  }

  method ExponentText(e: int) returns (s: string)
    ensures s == "e" + SignedDigits(e)
  {
    if e >= 0 {
      s := "e+" + Digits(e);
      MarkedExponent("+", Digits(e));
    } else {
      s := "e-" + Digits(-e);
      MarkedExponent("-", Digits(-e));
    }
  }

  lemma {:induction false} MarkedExponent(sign: string, digits: string)
    requires |sign| == 1
    ensures "e" + (sign + digits) == ("e" + sign) + digits
  {
  }

  // numberToString of the Go SDK; Err for NaN and the infinities.
  method NumberToString(f: Double) returns (r: Result<string>)
    requires f.Finite? ==> IsNormal(f.digits)
    ensures r.Ok? <==> IsPrintable(f)
    ensures r.Ok? ==> r.value == NumberText(f)
    decreases f.Finite? && f.negative
  {
    if f.NaN? || f.Infinity? {
      return Err;
    }
    if f.Zero? {
      return Ok("0");
    }
    hide Layout;
    if f.negative {
      var rest := NumberToString(f.(negative := false));
      assert "" + Layout(f.digits, f.exponent + 1) == Layout(f.digits, f.exponent + 1);
      return Ok("-" + rest.value);
    }
    var out := LayoutDigits(f.digits, f.exponent + 1);
    assert "" + out == out;
    return Ok(out);
  }
}
