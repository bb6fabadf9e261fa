// The checksums of src/safety/pii-detector.ts: Luhn for card numbers and the ISO 7064 mod 97-10
// check of an IBAN, with the typing errors that each is there to catch.
module Checksums {
  import opened Wrappers

  type Digit = d: int | 0 <= d < 10

  function DigitOf(c: char): Digit
    requires IsDigit(c)
  {
    c as int - 48
  }

  // ---------- Luhn ----------

  // digits.replace(/\D/g, "")
  function Digits(s: string): seq<Digit> {
    if s == "" then []
    else (if IsDigit(s[0]) then [DigitOf(s[0])] else []) + Digits(s[1..])
  }

  function Term(d: Digit, alt: bool): Digit {
    if !alt then d else if 2 * d > 9 then 2 * d - 9 else 2 * d
  }

  // Every second digit from the right is doubled; `alt` says whether the last one is.
  function Luhn(d: seq<Digit>, alt: bool): nat {
    if d == [] then 0 else Luhn(d[..|d| - 1], !alt) + Term(d[|d| - 1], alt)
  }

  predicate LuhnHolds(text: string) {
    13 <= |Digits(text)| <= 19 && Luhn(Digits(text), false) % 10 == 0
  }

  method LuhnValid(text: string) returns (valid: bool)
    ensures valid == LuhnHolds(text)
    ensures valid <==> 13 <= |Digits(text)| <= 19 && DigitSum(Digits(text), 0) % 10 == 0
  {
    LuhnIsDigitSum(Digits(text), 0);
    assert Digits(text)[0..] == Digits(text);
    var d := Digits(text);
    if |d| < 13 || |d| > 19 {
      return false;
    }
    var sum, alt := 0, false;
    var i := |d| - 1;
    assert d[..|d|] == d;
    while i >= 0
      invariant -1 <= i < |d|
      invariant sum + Luhn(d[..i + 1], alt) == Luhn(d, false)
    {
      var n: int := d[i];
      if alt {
        n := n * 2;
        if n > 9 {
          n := n - 9;
        }
      }
      assert d[..i + 1][..i] == d[..i];
      sum := sum + n;
      alt := !alt;
      i := i - 1;
    }
    return sum % 10 == 0;
  }

  function Flipped(alt: bool, n: nat): bool
    decreases n
  {
    if n == 0 then alt else Flipped(!alt, n - 1)
  }

  lemma {:induction false} FlippedOnce(alt: bool, n: nat)
    ensures Flipped(alt, n + 1) == !Flipped(alt, n)
    decreases n
  {
    if n > 0 {
      FlippedOnce(!alt, n - 1);
    }
  }

  lemma {:induction false} LuhnChange(d: seq<Digit>, alt: bool, k: nat, x: Digit)
    requires k < |d|
    ensures Luhn(d[k := x], alt) - Luhn(d, alt)
         == Term(x, Flipped(alt, |d| - 1 - k)) - Term(d[k], Flipped(alt, |d| - 1 - k))
    decreases |d|
  {
    var last := |d| - 1;
    if k < last {
      LuhnChange(d[..last], !alt, k, x);
      assert d[k := x][..last] == d[..last][k := x];
    } else {
      assert d[k := x][..last] == d[..last];
    }
  }

  // What the digits from position i on add to the sum, by position: counted from the right starting at
  // 0, those at odd positions are doubled and the digits of the double added up.
  function DigitSum(d: seq<Digit>, i: nat): nat
    requires i <= |d|
    decreases |d| - i
  {
    if i == |d| then 0
    else
      var x: nat := d[i];
      (if (|d| - 1 - i) % 2 == 1 then 2 * x / 10 + 2 * x % 10 else x) + DigitSum(d, i + 1)
  }

  lemma {:induction false} FlippedIsOdd(alt: bool, n: nat)
    ensures Flipped(alt, n) <==> alt != (n % 2 == 1)
    decreases n
  {
    if n > 0 {
      FlippedIsOdd(!alt, n - 1);
    }
  }

  lemma {:induction false} LuhnCons(x: Digit, d: seq<Digit>, alt: bool)
    ensures Luhn([x] + d, alt) == Luhn(d, alt) + Term(x, Flipped(alt, |d|))
    decreases |d|
  {
    if d == [] {
      assert [x] + d == [x] && [x][..0] == [];
    } else {
      var front := d[..|d| - 1];
      LuhnCons(x, front, !alt);
      assert ([x] + d)[..|d|] == [x] + front;
    }
  }

  lemma {:induction false} LuhnIsDigitSum(d: seq<Digit>, i: nat)
    requires i <= |d|
    ensures Luhn(d[i..], false) == DigitSum(d, i)
    decreases |d| - i
  {
    if i < |d| {
      LuhnIsDigitSum(d, i + 1);
      assert d[i..] == [d[i]] + d[i + 1..];
      TermIs(d[i], (|d| - 1 - i) % 2 == 1);
      hide Luhn, Flipped, Term;
      LuhnCons(d[i], d[i + 1..], false);
      FlippedIsOdd(false, |d| - 1 - i);
    } else {
      assert d[i..] == [];
    }
  }

  lemma {:induction false} TermIs(x: nat, doubled: bool)
    requires x < 10
    ensures Term(x, doubled) == if doubled then 2 * x / 10 + 2 * x % 10 else x
  {
  }

  // What a swap adds to the sum when the right one of the two digits x, y is doubled or not.
  function SwapGain(x: Digit, y: Digit, alt: bool): int {
    Term(y, !alt) - Term(x, !alt) + Term(x, alt) - Term(y, alt)
  }

  lemma {:induction false} LuhnSwapChange(d: seq<Digit>, alt: bool, k: nat)
    requires k + 1 < |d|
    ensures Luhn(d[k := d[k + 1]][k + 1 := d[k]], alt) - Luhn(d, alt)
         == SwapGain(d[k], d[k + 1], Flipped(alt, |d| - 2 - k))
  {
    FlippedOnce(alt, |d| - 2 - k);
    LuhnChange(d, alt, k, d[k + 1]);
    LuhnChange(d[k := d[k + 1]], alt, k + 1, d[k]);
  }

  lemma {:induction false} DigitsConcat(s: string, t: string)
    ensures Digits(s + t) == Digits(s) + Digits(t)
  {
    if s == "" {
      assert s + t == t;
    } else {
      DigitsConcat(s[1..], t);
      assert (s + t)[1..] == s[1..] + t;
      var head: seq<Digit> := if IsDigit(s[0]) then [DigitOf(s[0])] else [];
      assert Digits(s) == head + Digits(s[1..]) && Digits(s + t) == head + Digits(s[1..] + t);
      hide *;
    }
  }

  // Where the digit at text position i stands among the digits.
  lemma {:induction false} DigitAt(s: string, i: nat)
    requires i < |s| && IsDigit(s[i])
    ensures Digits(s) == Digits(s[..i]) + [DigitOf(s[i])] + Digits(s[i + 1..])
  {
    assert s == s[..i] + ([s[i]] + s[i + 1..]);
    DigitsConcat(s[..i], [s[i]] + s[i + 1..]);
    DigitsConcat([s[i]], s[i + 1..]);
    assert Digits([s[i]]) == [DigitOf(s[i])];
  }

  lemma {:induction false} TextChange(s: string, i: nat, c: char)
    requires i < |s| && IsDigit(s[i]) && IsDigit(c)
    ensures var k := |Digits(s[..i])|;
            k < |Digits(s)| && Digits(s)[k] == DigitOf(s[i]) && Digits(s[i := c]) == Digits(s)[k := DigitOf(c)]
  {
    DigitAt(s, i);
    DigitAt(s[i := c], i);
    assert s[i := c][..i] == s[..i] && s[i := c][i + 1..] == s[i + 1..];
  }

  // A valid card number with one digit replaced by another is never valid.
  lemma {:induction false} LuhnCatchesChange(text: string, i: nat, c: char)
    requires LuhnHolds(text) && i < |text| && IsDigit(text[i]) && IsDigit(c) && c != text[i]
    ensures !LuhnHolds(text[i := c])
  {
    hide Luhn, Digits, Flipped, Term;
    TextChange(text, i, c);
    var d, k, x := Digits(text), |Digits(text[..i])|, DigitOf(c);
    LuhnChange(d, false, k, x);
    TermDiffers(x, d[k], Flipped(false, |d| - 1 - k));
    SumStays(Luhn(d, false), Luhn(d[k := x], false));
  }

  lemma {:induction false} TermDiffers(x: Digit, y: Digit, alt: bool)
    requires x != y
    ensures (Term(x, alt) - Term(y, alt)) % 10 != 0
  {
    var gain := Term(x, alt) - Term(y, alt);
    assert gain != 0 && -10 < gain < 10;
  }

  lemma {:induction false} SumStays(sum: nat, sum': nat)
    requires sum % 10 == 0
    ensures sum' % 10 == 0 <==> (sum' - sum) % 10 == 0
  {
  }

  predicate NoDigitBetween(s: string, i: nat, j: nat) {
    i < j <= |s| && forall k :: i < k < j ==> !IsDigit(s[k])
  }

  lemma {:induction false} NoDigits(s: string)
    requires forall k :: 0 <= k < |s| ==> !IsDigit(s[k])
    ensures Digits(s) == []
  {
    if s != "" {
      NoDigits(s[1..]);
    }
  }

  lemma {:induction false} NextDigit(s: string, i: nat, j: nat)
    requires NoDigitBetween(s, i, j) && IsDigit(s[i])
    ensures |Digits(s[..j])| == |Digits(s[..i])| + 1
  {
    DigitAt(s[..j], i);
    assert s[..j][..i] == s[..i];
    NoDigits(s[..j][i + 1..]);
  }

  // Swapping two neighbouring digits, separators between them or not, stays unnoticed exactly
  // when they are equal or are 0 and 9.
  lemma {:induction false} LuhnSwap(text: string, i: nat, j: nat)
    requires LuhnHolds(text) && NoDigitBetween(text, i, j) && j < |text| && IsDigit(text[i]) && IsDigit(text[j])
    ensures LuhnHolds(text[i := text[j]][j := text[i]])
       <==> text[i] == text[j] || (text[i] == '0' && text[j] == '9') || (text[i] == '9' && text[j] == '0')
  {
    hide Luhn, Digits, Flipped, SwapGain;
    TextSwap(text, i, j);
    var d, k := Digits(text), |Digits(text[..i])|;
    LuhnSwapChange(d, false, k);
    SwapGainIsZero(d[k], d[k + 1], Flipped(false, |d| - 2 - k));
    SumStays(Luhn(d, false), Luhn(d[k := d[k + 1]][k + 1 := d[k]], false));
  }

  lemma {:induction false} TextSwap(text: string, i: nat, j: nat)
    requires NoDigitBetween(text, i, j) && j < |text| && IsDigit(text[i]) && IsDigit(text[j])
    ensures var d, k := Digits(text), |Digits(text[..i])|;
            && k + 1 < |d| && d[k] == DigitOf(text[i]) && d[k + 1] == DigitOf(text[j])
            && Digits(text[i := text[j]][j := text[i]]) == d[k := d[k + 1]][k + 1 := d[k]]
  {
    hide Digits;
    var once := text[i := text[j]];
    TextChange(text, i, text[j]);
    TextChange(text, j, text[i]);
    TextChange(once, j, text[i]);
    NextDigit(text, i, j);
    NextDigit(once, i, j);
    assert once[..i] == text[..i];
  }

  lemma {:induction false} SwapGainIsZero(x: Digit, y: Digit, alt: bool)
    ensures SwapGain(x, y, alt) % 10 == 0 <==> x == y || (x == 0 && y == 9) || (x == 9 && y == 0)
  {
    assert -10 < SwapGain(x, y, alt) < 10;
  }

  // ---------- IBAN ----------

  predicate IsLetter(c: char) {
    'A' <= c <= 'Z'
  }

  predicate Alphanumeric(s: string) {
    forall i :: 0 <= i < |s| ==> IsDigit(s[i]) || IsLetter(s[i])
  }

  function Code(c: char): nat
    requires IsDigit(c) || IsLetter(c)
  {
    if IsDigit(c) then c as int - 48 else c as int - 55
  }

  function Scale(c: char): nat {
    if IsDigit(c) then 10 else 100
  }

  // The number that the text spells, a letter counting as its two-digit code.
  function Spelled(s: string): nat
    requires Alphanumeric(s)
  {
    if s == "" then 0 else Spelled(s[..|s| - 1]) * Scale(s[|s| - 1]) + Code(s[|s| - 1])
  }

  lemma {:induction false} SpelledSnoc(p: string, c: char)
    requires Alphanumeric(p) && (IsDigit(c) || IsLetter(c))
    ensures Alphanumeric(p + [c]) && Spelled(p + [c]) == Spelled(p) * Scale(c) + Code(c)
  {
    assert (p + [c])[..|p|] == p;
  }

  lemma {:induction false} NothingSpelled()
    ensures Alphanumeric([]) && Spelled([]) == 0 == Value([])
  {
  }

  function Rearranged(iban: string): string
    requires |iban| >= 4
  {
    iban[4..] + iban[..4]
  }

  predicate IbanHolds(iban: string) {
    15 <= |iban| <= 34 && Alphanumeric(Rearranged(iban)) && Spelled(Rearranged(iban)) % 97 == 1
  }

  function Value(num: seq<Digit>): nat {
    if num == [] then 0 else Value(num[..|num| - 1]) * 10 + num[|num| - 1]
  }

  lemma {:induction false} ValueSnoc(num: seq<Digit>, d: Digit)
    ensures Value(num + [d]) == Value(num) * 10 + d
  {
    assert (num + [d])[..|num|] == num;
  }

  lemma {:induction false} RemainderIs(x: int, q: int, r: int)
    requires x == 97 * q + r && 0 <= r < 97
    ensures x % 97 == r
  {
  }

  lemma {:induction false} Remainder(v: nat, d: nat)
    ensures ((v % 97) * 10 + d) % 97 == (v * 10 + d) % 97
  {
    var a, r := v / 97, v % 97;
    assert v == 97 * a + r;
    var x := r * 10 + d;
    assert x == 97 * (x / 97) + x % 97;
    RemainderIs(v * 10 + d, a * 10 + x / 97, x % 97);
  }

  // The digits that a character contributes to the number.
  function Written(c: char): seq<Digit>
    requires IsDigit(c) || IsLetter(c)
  {
    if IsDigit(c) then [DigitOf(c)] else [Code(c) / 10, Code(c) % 10]
  }

  lemma {:induction false} WrittenValue(num: seq<Digit>, c: char)
    requires IsDigit(c) || IsLetter(c)
    ensures Value(num + Written(c)) == Value(num) * Scale(c) + Code(c)
  {
    if IsDigit(c) {
      ValueSnoc(num, DigitOf(c));
    } else {
      ValueSnoc(num, Code(c) / 10);
      ValueSnoc(num + [Code(c) / 10], Code(c) % 10);
      assert num + Written(c) == num + [Code(c) / 10] + [Code(c) % 10];
    }
  }

  lemma {:induction false} RearrangedKeeps(iban: string)
    requires |iban| >= 4
    ensures Alphanumeric(Rearranged(iban)) <==> Alphanumeric(iban)
  {
    var t := Rearranged(iban);
    assert forall k :: 0 <= k < |iban| ==> iban[k] == t[if k >= 4 then k - 4 else |iban| - 4 + k];
    assert forall k :: 0 <= k < |t| ==> t[k] == iban[if k < |iban| - 4 then k + 4 else k - (|iban| - 4)];
  }

  // The remainder taken digit by digit is that of the whole number.
  method Mod97(num: seq<Digit>) returns (r: nat)
    ensures r == Value(num) % 97
  {
    r := 0;
    for i := 0 to |num|
      invariant r == Value(num[..i]) % 97
    {
      assert num[..i + 1] == num[..i] + [num[i]];
      ValueSnoc(num[..i], num[i]);
      Remainder(Value(num[..i]), num[i]);
      r := (r * 10 + num[i]) % 97;
    }
    assert num[..|num|] == num;
  }

  // The codes of the letters.
  lemma {:induction false} LetterCodes()
    ensures Code('0') == 0 && Code('9') == 9 && Code('A') == 10 && Code('Z') == 35
    ensures Alias('1', 'B') && Alias('2', 'M') && Alias('3', 'X')
  {
  }

  // The check digits of ISO 13616: with 00 in their place, 98 less the remainder makes the IBAN valid,
  // and so does nothing that differs from it by other than a multiple of 97.
  lemma {:induction false} CheckDigits(country: string, x: char, y: char, rest: string)
    requires |country| == 2 && 11 <= |rest| <= 30 && IsDigit(x) && IsDigit(y) && Alphanumeric(rest + country)
    ensures Alphanumeric(rest + country + ['0'] + ['0'])
    ensures IbanHolds(country + [x, y] + rest) <==>
              (10 * DigitOf(x) + DigitOf(y) - (98 - Spelled(rest + country + ['0'] + ['0']) % 97)) % 97 == 0
  {
    var iban, t := country + [x, y] + rest, rest + country;
    assert Rearranged(iban) == t + [x] + [y];
    hide Spelled;
    SpelledSnoc(t, x);
    SpelledSnoc(t + [x], y);
    SpelledSnoc(t, '0');
    SpelledSnoc(t + ['0'], '0');
    CheckRemainder(Spelled(t + ['0'] + ['0']), 10 * DigitOf(x) + DigitOf(y));
  }

  lemma {:induction false} CheckRemainder(v: nat, d: nat)
    ensures (v + d) % 97 == 1 <==> (d - (98 - v % 97)) % 97 == 0
  {
    var q, r := v / 97, v % 97;
    assert v == 97 * q + r;
    if (v + d) % 97 == 1 {
      var k := (v + d) / 97;
      RemainderIs(d - (98 - r), k - q - 1, 0);
    }
    if (d - (98 - r)) % 97 == 0 {
      var k := (d - (98 - r)) / 97;
      RemainderIs(v + d, q + k + 1, 1);
    }
  }

  // What the check takes from its runtime: which characters \s matches, and toUpperCase.
  datatype TextLibrary = TextLibrary(isSpace: char -> bool, upper: string -> string)

  function Stripped(text: string, isSpace: char -> bool): string {
    if text == "" then ""
    else (if isSpace(text[0]) then "" else [text[0]]) + Stripped(text[1..], isSpace)
  }

  // The digits are those characters that are digits, in the order of the text.
  lemma {:induction false} DigitsMean(s: string, c: char, t: string)
    ensures Digits("") == []
    ensures Digits(s + [c] + t) == Digits(s) + (if '0' <= c <= '9' then [c as int - '0' as int] else []) + Digits(t)
  {
    OneCharacter(c);
    hide Digits;
    DigitsConcat(s + [c], t);
    DigitsConcat(s, [c]);
  }

  lemma {:induction false} OneCharacter(c: char)
    ensures Digits("") == [] && Digits([c]) == if '0' <= c <= '9' then [c as int - '0' as int] else []
  {
    assert [c][1..] == "";
  }

  // What is stripped is the white space, and nothing else.
  lemma {:induction false} StrippedMeans(text: string, isSpace: char -> bool, c: char)
    ensures multiset(Stripped(text, isSpace))[c] == if isSpace(c) then 0 else multiset(text)[c]
  {
    if text != "" {
      var head, tail := text[0], Stripped(text[1..], isSpace);
      StrippedMeans(text[1..], isSpace, c);
      assert text == [head] + text[1..];
      assert Stripped(text, isSpace) == (if isSpace(head) then "" else [head]) + tail;
      hide Stripped;
      assert "" + tail == tail;
    }
  }

  lemma {:induction false} NothingStripped(text: string, isSpace: char -> bool)
    requires forall k :: 0 <= k < |text| ==> !isSpace(text[k])
    ensures Stripped(text, isSpace) == text
  {
    if text != "" {
      NothingStripped(text[1..], isSpace);
    }
  }

  // text.replace(/\s+/g, "").toUpperCase()
  function Cleaned(lib: TextLibrary, text: string): string {
    lib.upper(Stripped(text, lib.isSpace))
  }

  // The remainder taken digit by digit is that of the whole number.
  method IbanValid(lib: TextLibrary, text: string) returns (valid: bool)
    ensures valid == IbanHolds(Cleaned(lib, text))
    ensures valid ==> 15 <= |Cleaned(lib, text)| <= 34 && Alphanumeric(Cleaned(lib, text))
  {
    var iban := Cleaned(lib, text);
    hide Spelled, Value, Cleaned, Scale;
    if |iban| < 15 || |iban| > 34 {
      return false;
    }
    var rearranged := iban[4..] + iban[..4];
    var num: seq<Digit> := [];
    NothingSpelled();
    for i := 0 to |rearranged|
      invariant Alphanumeric(rearranged[..i]) && Value(num) == Spelled(rearranged[..i])
    {
      var c := rearranged[i];
      assert rearranged[..i + 1] == rearranged[..i] + [c];
      if IsDigit(c) {
        SpelledSnoc(rearranged[..i], c);
        WrittenValue(num, c);
        num := num + [DigitOf(c)];
      } else if IsLetter(c) {
        SpelledSnoc(rearranged[..i], c);
        WrittenValue(num, c);
        num := num + [Code(c) / 10, Code(c) % 10];
      } else {
        assert !Alphanumeric(rearranged);
        RearrangedKeeps(iban);
        return false;
      }
    }
    assert rearranged[..|rearranged|] == rearranged == Rearranged(iban);
    RearrangedKeeps(iban);
    var r := Mod97(num);
    return r == 1;
  }

  // 10 is invertible modulo 97.
  lemma {:induction false} TenInvertible(m: int)
    ensures (10 * m) % 97 == 0 <==> m % 97 == 0
  {
    if (10 * m) % 97 == 0 {
      var k := 10 * m / 97;
      RemainderIs(m, 68 * k - 7 * m, 0);
    } else {
      assert m == 97 * (m / 97) + m % 97;
    }
  }

  lemma {:induction false} ScaleInvertible(v: nat, v': nat, c: char)
    requires IsDigit(c) || IsLetter(c)
    ensures ((v * Scale(c) + Code(c)) - (v' * Scale(c) + Code(c))) % 97 == 0 <==> (v - v') % 97 == 0
  {
    var m := v - v';
    assert (v * Scale(c) + Code(c)) - (v' * Scale(c) + Code(c)) == m * Scale(c);
    hide Code;
    TenInvertible(m);
    TenInvertible(10 * m);
  }

  lemma {:induction false} Snoc(p: string, front: string, c: char)
    ensures p + (front + [c]) == p + front + [c]
  {
  }

  // Text that follows neither hides nor creates a difference modulo 97.
  lemma {:induction false} SuffixKeeps(p: string, p': string, q: string)
    requires Alphanumeric(p) && Alphanumeric(p') && Alphanumeric(q)
    ensures Alphanumeric(p + q) && Alphanumeric(p' + q)
    ensures (Spelled(p + q) - Spelled(p' + q)) % 97 == 0 <==> (Spelled(p) - Spelled(p')) % 97 == 0
  {
    if q == "" {
      assert p + q == p && p' + q == p';
    } else {
      hide Spelled, Scale, Code;
      var front, c := q[..|q| - 1], q[|q| - 1];
      SuffixKeeps(p, p', front);
      Snoc(p, front, c);
      Snoc(p', front, c);
      assert q == front + [c];
      SpelledSnoc(p + front, c);
      SpelledSnoc(p' + front, c);
      ScaleInvertible(Spelled(p + front), Spelled(p' + front), c);
    }
  }

  predicate SameKind(a: char, b: char) {
    (IsDigit(a) && IsDigit(b)) || (IsLetter(a) && IsLetter(b))
  }

  lemma {:induction false} SpelledChange(t: string, k: nat, c: char)
    requires Alphanumeric(t) && k < |t| && SameKind(t[k], c) && c != t[k]
    ensures Alphanumeric(t[k := c]) && (Spelled(t) - Spelled(t[k := c])) % 97 != 0
  {
    hide Spelled, Code, Scale;
    var p, q := t[..k], t[k + 1..];
    assert t == p + [t[k]] + q;
    assert t[k := c] == p + [c] + q;
    SpelledSnoc(p, t[k]);
    SpelledSnoc(p, c);
    SameScale(Spelled(p), t[k], c);
    SuffixKeeps(p + [t[k]], p + [c], q);
  }

  lemma {:induction false} SameScale(v: nat, a: char, b: char)
    requires SameKind(a, b) && a != b
    ensures (v * Scale(a) + Code(a) - (v * Scale(b) + Code(b))) % 97 != 0
  {
    var difference := Code(a) - Code(b);
    assert Scale(a) == Scale(b) && difference != 0 && -97 < difference < 97;
    assert v * Scale(a) + Code(a) - (v * Scale(b) + Code(b)) == difference;
  }

  lemma {:induction false} OneModulo97(x: nat, y: nat)
    requires x % 97 == 1
    ensures y % 97 == 1 <==> (x - y) % 97 == 0
  {
    var a := x / 97;
    assert x == 97 * a + 1;
    if y % 97 == 1 {
      assert y == 97 * (y / 97) + 1;
      RemainderIs(x - y, a - y / 97, 0);
    }
    if (x - y) % 97 == 0 {
      var q := (x - y) / 97;
      assert x - y == 97 * q;
      RemainderIs(y, a - q, 1);
    }
  }

  // A valid IBAN with one digit replaced by another digit, or one letter by another letter, is
  // never valid.
  lemma {:induction false} IbanCatchesChange(iban: string, k: nat, c: char)
    requires IbanHolds(iban) && k < |iban| && SameKind(iban[k], c) && c != iban[k]
    ensures !IbanHolds(iban[k := c])
  {
    var t := Rearranged(iban);
    var at := if k >= 4 then k - 4 else |iban| - 4 + k;
    assert t[at] == iban[k];
    assert Rearranged(iban[k := c]) == t[at := c];
    hide Spelled, Rearranged;
    SpelledChange(t, at, c);
    OneModulo97(Spelled(t), Spelled(t[at := c]));
  }

  // A digit and a letter that spell the same number in either order: 1B, 2M and 3X.
  predicate Alias(a: char, b: char) {
    IsDigit(a) && IsLetter(b) && Code(b) == 11 * Code(a)
  }

  lemma {:induction false} NineInvertible(m: int)
    ensures (9 * m) % 97 == 0 ==> m % 97 == 0
  {
    if (9 * m) % 97 == 0 {
      var k := 9 * m / 97;
      assert m == 97 * (54 * k - 5 * m);
    }
  }

  lemma {:induction false} SmallMultiple(m: int)
    requires m % 97 == 0 && -97 < m < 97
    ensures m == 0
  {
  }

  // The change of the spelled number, without what precedes the pair.
  function PairGain(a: char, b: char): int
    requires (IsDigit(a) || IsLetter(a)) && (IsDigit(b) || IsLetter(b))
  {
    Code(a) * (Scale(b) - 1) - Code(b) * (Scale(a) - 1)
  }

  lemma {:induction false} PairSwap(v: nat, a: char, b: char)
    requires (IsDigit(a) || IsLetter(a)) && (IsDigit(b) || IsLetter(b))
    ensures (v * Scale(a) + Code(a)) * Scale(b) + Code(b) - ((v * Scale(b) + Code(b)) * Scale(a) + Code(a))
         == PairGain(a, b)
  {
  }

  lemma {:induction false} PairGainIsZero(a: char, b: char)
    requires (IsDigit(a) || IsLetter(a)) && (IsDigit(b) || IsLetter(b))
    ensures PairGain(a, b) % 97 == 0 <==> a == b || Alias(a, b) || Alias(b, a)
  {
    // A ninth of the change.
    var m := Code(a) * (if IsDigit(b) then 1 else 11) - Code(b) * (if IsDigit(a) then 1 else 11);
    assert PairGain(a, b) == 9 * m;
    if PairGain(a, b) % 97 == 0 {
      NineInvertible(m);
      if IsLetter(a) && IsLetter(b) {
        // 11 is invertible too.
        var m', k := Code(a) - Code(b), m / 97;
        assert m == 11 * m' == 97 * k;
        assert m' == 97 * (53 * k - 6 * m');
        SmallMultiple(m');
      } else {
        SmallMultiple(m);
      }
    }
  }

  lemma {:induction false} PairChange(p: string, a: char, b: char)
    requires Alphanumeric(p) && (IsDigit(a) || IsLetter(a)) && (IsDigit(b) || IsLetter(b))
    ensures Alphanumeric(p + [a] + [b]) && Alphanumeric(p + [b] + [a])
    ensures Spelled(p + [a] + [b]) - Spelled(p + [b] + [a]) == PairGain(a, b)
  {
    hide Spelled, PairGain, Scale, Code;
    SpelledSnoc(p, a);
    SpelledSnoc(p + [a], b);
    SpelledSnoc(p, b);
    SpelledSnoc(p + [b], a);
    PairSwap(Spelled(p), a, b);
  }

  lemma {:induction false} PairUnnoticed(p: string, a: char, b: char, q: string)
    requires Alphanumeric(p) && Alphanumeric(q) && (IsDigit(a) || IsLetter(a)) && (IsDigit(b) || IsLetter(b))
    ensures Alphanumeric(p + [a] + [b] + q) && Alphanumeric(p + [b] + [a] + q)
    ensures Spelled(p + [a] + [b] + q) % 97 == 1 ==>
              (Spelled(p + [b] + [a] + q) % 97 == 1 <==> a == b || Alias(a, b) || Alias(b, a))
  {
    hide Spelled, PairGain, Alias, Alphanumeric, IsDigit, IsLetter;
    PairChange(p, a, b);
    PairGainIsZero(a, b);
    SuffixKeeps(p + [a] + [b], p + [b] + [a], q);
    if Spelled(p + [a] + [b] + q) % 97 == 1 {
      OneModulo97(Spelled(p + [a] + [b] + q), Spelled(p + [b] + [a] + q));
    }
  }

  // In the rearranged text, swapping two neighbours stays unnoticed exactly when they are equal or
  // form an alias.
  lemma {:induction false} InnerSwap(t: string, k: nat)
    requires Alphanumeric(t) && Spelled(t) % 97 == 1 && k + 1 < |t|
    ensures Alphanumeric(t[k := t[k + 1]][k + 1 := t[k]])
    ensures Spelled(t[k := t[k + 1]][k + 1 := t[k]]) % 97 == 1
       <==> t[k] == t[k + 1] || Alias(t[k], t[k + 1]) || Alias(t[k + 1], t[k])
  {
    hide Spelled, Alias;
    var p, a, b, q := t[..k], t[k], t[k + 1], t[k + 2..];
    assert t == p + [a] + [b] + q;
    assert t[k := b][k + 1 := a] == p + [b] + [a] + q;
    PairUnnoticed(p, a, b, q);
  }

  // ---------- the fourth and fifth character, which rearranging puts at the two ends ----------

  // What the text multiplies the code of a character before it by.
  function Weight(m: string): nat {
    if m == "" then 1 else Weight(m[..|m| - 1]) * Scale(m[|m| - 1])
  }

  // The first character contributes its code times the weight of what follows.
  predicate FirstCounts(x: char, m: string)
    requires (IsDigit(x) || IsLetter(x)) && Alphanumeric(m) && Alphanumeric([x] + m)
  {
    Spelled([x] + m) == Code(x) * Weight(m) + Spelled(m)
  }

  lemma {:induction false} SpelledBetween(x: char, m: string)
    requires (IsDigit(x) || IsLetter(x)) && Alphanumeric(m)
    ensures Alphanumeric([x] + m) && FirstCounts(x, m)
  {
    if m == "" {
      assert [x] + m == [] + [x];
      SpelledSnoc([], x);
    } else {
      hide Weight, Spelled, FirstCounts;
      var front, c := m[..|m| - 1], m[|m| - 1];
      SpelledBetween(x, front);
      BetweenSnoc(x, front, c);
      assert m == front + [c];
    }
  }

  lemma {:induction false} WeightSnoc(m: string, c: char)
    ensures Weight(m + [c]) == Weight(m) * Scale(c)
  {
    assert (m + [c])[..|m|] == m;
  }

  lemma {:induction false} BetweenSnoc(x: char, m: string, c: char)
    requires (IsDigit(x) || IsLetter(x)) && (IsDigit(c) || IsLetter(c)) && Alphanumeric(m)
    requires Alphanumeric([x] + m) && FirstCounts(x, m)
    ensures Alphanumeric([x] + (m + [c])) && Alphanumeric(m + [c]) && FirstCounts(x, m + [c])
  {
    hide Code, Scale, Weight, Spelled;
    assert [x] + (m + [c]) == [x] + m + [c];
    SpelledSnoc([x] + m, c);
    SpelledSnoc(m, c);
    WeightSnoc(m, c);
    Expanded(Code(x), Weight(m), Spelled(m), Scale(c), Spelled([x] + m));
  }

  lemma {:induction false} Expanded(x: nat, w: nat, v: nat, scale: nat, before: nat)
    requires before == x * w + v
    ensures before * scale == x * (w * scale) + v * scale
  {
  }

  // The change of the spelled number when the characters at its ends are swapped.
  function EndsGain(a: char, b: char, m: string): int
    requires (IsDigit(a) || IsLetter(a)) && (IsDigit(b) || IsLetter(b)) && Alphanumeric(m)
  {
    Weight(m) * (Code(b) * Scale(a) - Code(a) * Scale(b)) + Spelled(m) * (Scale(a) - Scale(b)) + Code(a) - Code(b)
  }

  lemma {:induction false} EndsChange(a: char, b: char, m: string)
    requires (IsDigit(a) || IsLetter(a)) && (IsDigit(b) || IsLetter(b)) && Alphanumeric(m)
    ensures Alphanumeric([b] + m + [a]) && Alphanumeric([a] + m + [b])
    ensures Spelled([b] + m + [a]) - Spelled([a] + m + [b]) == EndsGain(a, b, m)
  {
    hide Spelled, Weight, Code, Scale;
    SpelledBetween(b, m);
    SpelledBetween(a, m);
    SpelledSnoc([b] + m, a);
    SpelledSnoc([a] + m, b);
    Collected(Code(a), Code(b), Scale(a), Scale(b), Weight(m), Spelled(m));
  }

  lemma {:induction false} Collected(a: int, b: int, sa: int, sb: int, w: int, v: int)
    ensures (b * w + v) * sa + a - ((a * w + v) * sb + b) == w * (b * sa - a * sb) + v * (sa - sb) + a - b
  {
  }

  function Less(x: nat, m: nat): nat {
    if x < m then x else x - m
  }

  // r x 10 modulo 97, by subtraction
  function TimesTen(r: nat): (s: nat)
    ensures r < 97 ==> s < 97
  {
    Less(Less(Less(Less(10 * r, 776), 388), 194), 97)
  }

  lemma {:induction false} TimesTenIs(r: nat)
    requires r < 97
    ensures exists q: nat :: 10 * r == 97 * q + TimesTen(r)
  {
    var q := (if 10 * r < 776 then 0 else 8) + (if Less(10 * r, 776) < 388 then 0 else 4)
             + (if Less(Less(10 * r, 776), 388) < 194 then 0 else 2)
             + (if Less(Less(Less(10 * r, 776), 388), 194) < 97 then 0 else 1);
    assert 10 * r == 97 * q + TimesTen(r);
  }

  // 10^e modulo 97
  function TenPower(e: nat): (r: nat)
    ensures r < 97
  {
    if e == 0 then 1 else TimesTen(TenPower(e - 1))
  }

  // The next n powers after r avoid 1 and end in `last`.
  predicate AvoidsOne(r: nat, n: nat, last: nat)
    decreases n
  {
    if n == 0 then r == last else TimesTen(r) != 1 && AvoidsOne(TimesTen(r), n - 1, last)
  }

  lemma {:induction false} Avoided(e: nat, n: nat, last: nat)
    requires AvoidsOne(TenPower(e), n, last)
    ensures TenPower(e + n) == last && forall k :: e < k <= e + n ==> TenPower(k) != 1
    decreases n
  {
    hide TimesTen;
    if n > 0 {
      assert TenPower(e + 1) == TimesTen(TenPower(e));
      Avoided(e + 1, n - 1, last);
    }
  }

  lemma {:induction false} Block1()
    ensures AvoidsOne(1, 8, 81) && AvoidsOne(81, 8, 62)
  {
  }

  lemma {:induction false} Block2()
    ensures AvoidsOne(62, 8, 75) && AvoidsOne(75, 8, 61)
  {
  }

  lemma {:induction false} Block3()
    ensures AvoidsOne(61, 8, 91) && AvoidsOne(91, 8, 96)
  {
  }

  lemma {:induction false} Block4()
    ensures AvoidsOne(96, 8, 16) && AvoidsOne(16, 8, 35)
  {
  }

  lemma {:induction false} Block5()
    ensures AvoidsOne(35, 8, 22) && AvoidsOne(22, 8, 36)
  {
  }

  lemma {:induction false} Block6()
    ensures AvoidsOne(36, 8, 6) && AvoidsOne(6, 7, 68)
  {
  }

  lemma {:induction false} TenPowerZero()
    ensures TenPower(0) == 1
  {
  }

  // 10 generates the units modulo 97, so 10^e returns to 1 only at multiples of 96.
  lemma {:induction false} TenPowerNotOne(e: nat)
    requires 0 < e < 96
    ensures TenPower(e) != 1
  {
    hide *;
    TenPowerZero();
    Block1();
    Block2();
    Block3();
    Block4();
    Block5();
    Block6();
    Avoided(0, 8, 81);
    Avoided(8, 8, 62);
    Avoided(16, 8, 75);
    Avoided(24, 8, 61);
    Avoided(32, 8, 91);
    Avoided(40, 8, 96);
    Avoided(48, 8, 16);
    Avoided(56, 8, 35);
    Avoided(64, 8, 22);
    Avoided(72, 8, 36);
    Avoided(80, 8, 6);
    Avoided(88, 7, 68);
  }

  // How many decimal digits the text spells.
  function Width(m: string): (n: nat)
    ensures |m| <= n <= 2 * |m|
  {
    if m == "" then 0 else Width(m[..|m| - 1]) + if IsDigit(m[|m| - 1]) then 1 else 2
  }

  lemma {:induction false} WeightIs(m: string)
    ensures Weight(m) % 97 == TenPower(Width(m))
  {
    if m == "" {
      TenPowerZero();
    } else {
      var front, c := m[..|m| - 1], m[|m| - 1];
      var w, e := Weight(front), Width(front);
      assert Weight(m) == if IsDigit(c) then w * 10 else w * 10 * 10;
      assert Width(m) == if IsDigit(c) then e + 1 else e + 1 + 1;
      hide *;
      WeightIs(front);
      TenPowerNext(w, e);
      TenPowerNext(w * 10, e + 1);
    }
  }

  lemma {:induction false} TenPowerNext(w: nat, e: nat)
    requires w % 97 == TenPower(e)
    ensures w * 10 % 97 == TenPower(e + 1)
  {
    var r, a := TenPower(e), w / 97;
    assert TenPower(e + 1) == TimesTen(r);
    hide TimesTen, TenPower;
    assert w == 97 * a + r;
    TimesTenIs(r);
    var q: nat :| 10 * r == 97 * q + TimesTen(r);
    RemainderIs(w * 10, 10 * a + q, TimesTen(r));
  }

  lemma {:induction false} SmallNoFactor(x: nat, k: nat)
    requires 2 <= x <= 9
    ensures x * k != 97
  {
    assert x == 2 || x == 3 || x == 4 || x == 5 || x == 6 || x == 7 || x == 8 || x == 9;
  }

  lemma {:induction false} NoFactor(x: nat, k: nat)
    requires 1 < x < 97
    ensures x * k != 97
  {
    if x <= 9 {
      SmallNoFactor(x, k);
    } else if 2 <= k <= 9 {
      SmallNoFactor(k, x);
    } else if k >= 10 {
      assert x * k >= 10 * k;
    }
  }

  // 97 is prime.
  lemma {:induction false} PrimeDivides(x: nat, y: int, q: int)
    requires 0 < x < 97 && x * y == 97 * q
    ensures y % 97 == 0
    decreases x
  {
    if x == 1 {
      RemainderIs(y, q, 0);
    } else {
      var k, r := 97 / x, 97 % x;
      assert x * k + r == 97;
      NoFactor(x, k);
      assert r * y == 97 * y - k * (x * y) == 97 * (y - k * q);
      PrimeDivides(r, y, y - k * q);
    }
  }

  // Characters of one kind: the change is (b - a) x (10^e - 1), where e is at most 66.
  lemma {:induction false} SameKindEnds(a: char, b: char, m: string)
    requires SameKind(a, b) && Alphanumeric(m) && |m| <= 32
    ensures EndsGain(a, b, m) % 97 == 0 <==> a == b
  {
    hide *;
    var x, w := SameKindGain(a, b, m);
    FactorIsZero(x, w - 1);
  }

  lemma {:induction false} SameKindGain(a: char, b: char, m: string) returns (x: int, w: int)
    requires SameKind(a, b) && Alphanumeric(m) && |m| <= 32
    ensures EndsGain(a, b, m) == x * (w - 1) && -97 < x < 97 && (x == 0 <==> a == b) && (w - 1) % 97 != 0
  {
    x, w := Code(b) - Code(a), Weight(m) * Scale(a);
    GainFactors(Code(a), Code(b), Scale(a), Weight(m), Spelled(m));
    hide Weight, Spelled;
    PoweredWeight(m, Scale(a));
  }

  lemma {:induction false} GainFactors(a: int, b: int, scale: int, w: int, v: int)
    ensures w * (b * scale - a * scale) + v * (scale - scale) + a - b == (b - a) * (w * scale - 1)
  {
  }

  lemma {:induction false} FactorIsZero(x: int, y: int)
    requires -97 < x < 97 && y % 97 != 0
    ensures x * y % 97 == 0 <==> x == 0
  {
    if x != 0 && x * y % 97 == 0 {
      var q := x * y / 97;
      assert x * y == 97 * q;
      if x > 0 {
        PrimeDivides(x, y, q);
      } else {
        assert (-x) * y == 97 * (-q);
        PrimeDivides(-x, y, -q);
      }
    }
  }

  lemma {:induction false} PoweredWeight(m: string, scale: nat)
    requires |m| <= 32 && (scale == 10 || scale == 100)
    ensures (Weight(m) * scale - 1) % 97 != 0
  {
    hide Weight, TenPower;
    var e := Width(m);
    WeightIs(m);
    TenPowerNext(Weight(m), e);
    TenPowerNext(Weight(m) * 10, e + 1);
    TenPowerNotOne(e + 1);
    TenPowerNotOne(e + 2);
    NotOne(Weight(m) * scale);
  }

  lemma {:induction false} NotOne(w: nat)
    requires w % 97 != 1
    ensures (w - 1) % 97 != 0
  {
    if (w - 1) % 97 == 0 {
      RemainderIs(w, (w - 1) / 97, 1);
    }
  }

  // When swapping the characters a and b at the ends of the rearranged text stays unnoticed.
  predicate EndsAlias(a: char, b: char, m: string)
    requires (IsDigit(a) || IsLetter(a)) && (IsDigit(b) || IsLetter(b)) && Alphanumeric(m)
  {
    if SameKind(a, b) then a == b else EndsGain(a, b, m) % 97 == 0
  }

  lemma {:induction false} EndsSwap(a: char, b: char, m: string)
    requires (IsDigit(a) || IsLetter(a)) && (IsDigit(b) || IsLetter(b)) && Alphanumeric(m) && |m| <= 32
    requires Alphanumeric([b] + m + [a]) && Alphanumeric([a] + m + [b]) && Spelled([b] + m + [a]) % 97 == 1
    ensures Spelled([a] + m + [b]) % 97 == 1 <==> EndsAlias(a, b, m)
  {
    hide Spelled, EndsGain;
    EndsChange(a, b, m);
    if SameKind(a, b) {
      SameKindEnds(a, b, m);
    }
    OneModulo97(Spelled([b] + m + [a]), Spelled([a] + m + [b]));
  }

  function Swapped(s: string, k: nat): string
    requires k + 1 < |s|
  {
    s[k := s[k + 1]][k + 1 := s[k]]
  }

  // Swapping two neighbours of a valid IBAN stays unnoticed exactly when they are equal or form an
  // alias. The fourth and fifth character, which rearranging moves to the two ends, are caught
  // whenever they are different digits or different letters, and a digit and a letter there exactly
  // by the remainder that they leave with the rest. Two different digits are thus always caught.
  lemma {:induction false} IbanSwap(iban: string, k: nat)
    requires IbanHolds(iban) && k + 1 < |iban|
    ensures Alphanumeric(iban)
    ensures IbanHolds(Swapped(iban, k)) <==>
              if k == 3 then EndsAlias(iban[3], iban[4], iban[5..] + iban[..3])
              else iban[k] == iban[k + 1] || Alias(iban[k], iban[k + 1]) || Alias(iban[k + 1], iban[k])
  {
    hide Spelled, Alias, EndsAlias;
    RearrangedKeeps(iban);
    if k == 3 {
      var a, b, m := iban[3], iban[4], iban[5..] + iban[..3];
      assert Rearranged(iban) == [b] + m + [a];
      assert Rearranged(Swapped(iban, 3)) == [a] + m + [b];
      assert Alphanumeric(m);
      EndsChange(a, b, m);
      EndsSwap(a, b, m);
    } else {
      var t, at := Rearranged(iban), if k > 3 then k - 4 else |iban| - 4 + k;
      assert t[at] == iban[k] && t[at + 1] == iban[k + 1];
      assert Rearranged(Swapped(iban, k)) == Swapped(t, at);
      InnerSwap(t, at);
    }
  }
}
