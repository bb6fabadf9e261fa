// The parser inverts the printer, so canonical text determines the value.
module JsonRoundTrip {
  import opened Wrappers
  import opened Sorting
  import opened Unicode
  import opened Numerals
  import opened NumeralReader
  import opened JsonText

  // ---------- canonical values ----------

  function Magnitude(i: int): nat {
    if i < 0 then -i else i
  }

  // The decimal with exactly the digits of an integer. What a library prints for the double of that
  // value has these digits up to 2^53, as DoubleDigits shows, but not in general.
  function DecimalOf(i: int): Double {
    var text := Digits(Magnitude(i));
    if i == 0 then Zero(false) else Finite(i < 0, StripTrailing(text), |text| - 1)
  }

  // The decimals that the text writes: an integer in all its digits, and -0 as 0.
  ghost function Canon(v: Json): Json
    decreases v, 1
  {
    match v
    case Integer(i) => Float(DecimalOf(i))
    case Float(f) => if f.Zero? then Float(Zero(false)) else v
    case Arr(items) => Arr(CanonItems(items))
    case Obj(fields) => Obj(map k | k in fields :: Canon(fields[k]))
    case _ => v
  }

  ghost function CanonItems(items: seq<Json>): (r: seq<Json>)
    ensures |r| == |items|
    decreases items, 0
  {
    if items == [] then [] else [Canon(items[0])] + CanonItems(items[1..])
  }

  // The members with the given keys.
  ghost function CanonFields(v: Json, keys: seq<string>): map<string, Json>
    requires v.Obj? && forall k :: k in keys ==> k in v.fields
  {
    map k | k in keys :: Canon(v.fields[k])
  }

  // ---------- strings ----------

  lemma {:induction false} EscapeReads(c: char, rest: string)
    ensures var t := Escape(c) + rest;
      && t != "" && t[0] != '"' && t[0] as int >= 0x20
      && (if t[0] == '\\' then ReadEscape(t) else Some((t[0], t[1..]))) == Some((c, rest))
  {
    var t := Escape(c) + rest;
    assert t[|Escape(c)|..] == rest;
    if c == '"' || c == '\\' || c == '\U{0008}' || c == '\U{000C}' || c == '\n' || c == '\r' || c == '\t' {
    } else if c as int < 0x20 {
      HexReads(c as int / 16);
      HexReads(c as int % 16);
      assert HexValue('0') == Some(0);
      assert t[2] == '0' && t[3] == '0';
      assert t[4] == HEX_DIGITS[c as int / 16] && t[5] == HEX_DIGITS[c as int % 16];
    }
  }

  lemma {:induction false} HexReads(d: nat)
    requires d < 16
    ensures HexValue(HEX_DIGITS[d]) == Some(d)
  {
  }

  lemma {:induction false} QuoteReads(s: string, rest: string)
    ensures ParseChars(EscapeAll(s) + ['"'] + rest) == Some((s, rest))
  {
    var t := EscapeAll(s) + ['"'] + rest;
    if s == "" {
      assert t == ['"'] + rest;
    } else {
      hide Escape, ReadEscape;
      var tail := EscapeAll(s[1..]) + ['"'] + rest;
      assert t == Escape(s[0]) + tail;
      EscapeReads(s[0], tail);
      QuoteReads(s[1..], rest);
      assert [s[0]] + s[1..] == s;
    }
  }

  // ---------- integers ----------

  lemma {:induction false} IntegerReads(i: int, rest: string)
    requires Stops(rest)
    ensures var r := ReadNumeral(IntegerText(i) + rest);
      r.Some? && r.value.1 == rest && Normalized(r.value.0) == DecimalOf(i)
  {
    var ds := Digits(Magnitude(i));
    assert ds[0] == '0' ==> |ds| == 1 by {
      assert Digits(0) == "0";
    }
    assert Sign(i < 0) + (ds + ("" + ("" + rest))) == IntegerText(i) + rest;
    hide Digits, ReadNumeral, Normalized, DecimalOf;
    ReadParts(Numeral(i < 0, ds, "", 0), "", "", rest);
    IntegerNormal(i);
  }

  lemma {:induction false} IntegerNormal(i: int)
    ensures Normalized(Numeral(i < 0, Digits(Magnitude(i)), "", 0)) == DecimalOf(i)
  {
    var ds := Digits(Magnitude(i));
    assert ds + "" == ds;
    if i == 0 {
      assert ds == "0" && "0"[1..] == "";
    } else {
      hide Digits, StripTrailing;
      StripKeepsHead(ds);
    }
  }

  lemma {:induction false} StripKeepsHead(s: string)
    requires s != "" && s[0] != '0'
    ensures var r := StripTrailing(s);
      && 0 < |r| <= |s| && r[0] == s[0] && r[|r| - 1] != '0' && s == r + Zeros(|s| - |r|)
    ensures AllDigits(s) ==> AllDigits(StripTrailing(s))
  {
    if s[|s| - 1] == '0' {
      StripKeepsHead(s[..|s| - 1]);
      var r := StripTrailing(s);
      assert s == s[..|s| - 1] + ['0'];
      assert Zeros(|s| - |r|) == Zeros(|s| - 1 - |r|) + ['0'];
    } else {
      assert s + Zeros(0) == s;
    }
  }

  // ---------- the round trip ----------

  // The first character of every printed value, which tells the parser what to read.
  predicate StartsNumber(t: string) {
    t != "" && (IsDigit(t[0]) || t[0] == '-')
  }

  lemma {:induction false} ParseNumber(t: string, f: Double, rest: string)
    requires StartsNumber(t)
    requires var r := ReadNumeral(t); r.Some? && r.value.1 == rest && Normalized(r.value.0) == f
    ensures ParseValue(t) == Some((Float(f), rest))
  {
    hide ReadNumeral, Normalized, ParseChars, ParseItems, ParseFields;
  }

  lemma {:induction false} NumberStarts(f: Double)
    requires IsPrintable(f)
    ensures StartsNumber(NumberText(f))
  {
  }

  lemma {:induction false} ParseScalar(v: Json, rest: string)
    requires Printable(v) && Stops(rest)
    requires !v.Arr? && !v.Obj?
    ensures ParseValue(Print(v) + rest) == Some((Canon(v), rest))
  {
    hide ReadNumeral, Normalized, NumberText, IntegerText, DecimalOf, EscapeAll, ParseChars;
    var t := Print(v) + rest;
    match v
    case Null => assert t[4..] == rest;
    case Bool(b) => assert if b then t[4..] == rest else t[5..] == rest;
    case Integer(i) =>
      IntegerReads(i, rest);
      IntegerStarts(i);
      ParseNumber(t, DecimalOf(i), rest);
    case Float(f) =>
      NumberRoundTrip(f, rest);
      NumberStarts(f);
      ParseNumber(t, if f.Zero? then Zero(false) else f, rest);
    case Str(s) =>
      QuoteReads(s, rest);
      assert t[1..] == EscapeAll(s) + ['"'] + rest;
  }

  lemma {:induction false} IntegerStarts(i: int)
    ensures StartsNumber(IntegerText(i))
  {
  }

  lemma {:induction false} ArrAt(t: string, items: seq<Json>, rest: string)
    requires |t| > 1 && t[0] == '['
    requires if t[1] == ']' then items == [] && t[2..] == rest else ParseItems(t[1..]) == Some((items, rest))
    ensures ParseValue(t) == Some((Arr(items), rest))
  {
  }

  lemma {:induction false} ObjAt(t: string, fields: map<string, Json>, rest: string)
    requires |t| > 1 && t[0] == '{'
    requires if t[1] == '}' then fields == map[] && t[2..] == rest else ParseFields(t[1..]) == Some((fields, rest))
    ensures ParseValue(t) == Some((Obj(fields), rest))
  {
  }

  lemma {:induction false} RoundTrip(v: Json, rest: string)
    requires Printable(v) && Stops(rest)
    ensures ParseValue(Print(v) + rest) == Some((Canon(v), rest))
    decreases v, 1
  {
    if v.Arr? {
      ArrRoundTrip(v, rest);
    } else if v.Obj? {
      ObjRoundTrip(v, rest);
    } else {
      ParseScalar(v, rest);
    }
  }

  lemma {:induction false} ArrRoundTrip(v: Json, rest: string)
    requires v.Arr? && Printable(v) && Stops(rest)
    ensures ParseValue(Print(v) + rest) == Some((Canon(v), rest))
    decreases v, 0, 1
  {
    hide ParseValue, ParseItems;
    var t := Print(v) + rest;
    if v.items == [] {
      assert PrintItems(v.items) == "" && CanonItems(v.items) == [];
      assert Print(v) == ['[', ']'];
      assert t[2..] == rest;
    } else {
      ItemsRoundTrip(v.items, rest);
      assert t[1..] == PrintItems(v.items) + ([']'] + rest);
      ItemsStart(v.items);
      assert t[1] == PrintItems(v.items)[0];
    }
    ArrAt(t, CanonItems(v.items), rest);
  }

  lemma {:induction false} ObjText(v: Json, keys: seq<string>, rest: string)
    requires v.Obj? && Printable(v) && keys == KeysInOrder(v.fields.Keys)
    ensures var t := Print(v) + rest;
      && |t| > 1 && t[0] == '{'
      && if keys == [] then t[1] == '}' && t[2..] == rest && Canon(v) == Obj(map[])
         else t[1] == '"' && t[1..] == PrintFields(v, keys) + (['}'] + rest) && Canon(v) == Obj(CanonFields(v, keys))
  {
    hide PrintFields, KeysInOrder;
    var t, body := Print(v) + rest, PrintFields(v, keys);
    assert t[1..] == body + (['}'] + rest);
    if keys == [] {
      NoFields(v);
      assert PrintFields(v, keys) == "" by { NoFieldsText(v); }
      assert t[2..] == rest;
    } else {
      FieldsStart(v, keys);
      assert t[1] == body[0];
      assert Canon(v).fields == CanonFields(v, keys);
    }
  }

  lemma {:induction false} NoFieldsText(v: Json)
    requires v.Obj? && Printable(v)
    ensures PrintFields(v, []) == ""
  {
  }

  lemma {:induction false} ObjRoundTrip(v: Json, rest: string)
    requires v.Obj? && Printable(v) && Stops(rest)
    ensures ParseValue(Print(v) + rest) == Some((Canon(v), rest))
    decreases v, 0, |v.fields| + 1
  {
    var t, keys := Print(v) + rest, KeysInOrder(v.fields.Keys);
    ObjText(v, keys, rest);
    hide *;
    if keys == [] {
      ObjAt(t, map[], rest);
    } else {
      assert |keys| == |multiset(keys)| == |v.fields.Keys|;
      FieldsRoundTrip(v, keys, rest);
      ObjAt(t, CanonFields(v, keys), rest);
    }
  }

  lemma {:induction false} NoFields(v: Json)
    requires v.Obj? && KeysInOrder(v.fields.Keys) == []
    ensures v.fields == map[] && Canon(v) == Obj(map[])
  {
    assert forall k :: k in v.fields.Keys <==> k in KeysInOrder(v.fields.Keys);
  }

  lemma {:induction false} PrintStart(v: Json)
    requires Printable(v)
    ensures Print(v) != "" && Print(v)[0] != ']'
  {
    if v.Float? {
      NumberStarts(v.f);
    }
  }

  lemma {:induction false} ItemsStart(items: seq<Json>)
    requires items != [] && forall x :: x in items ==> Printable(x)
    ensures PrintItems(items) != "" && PrintItems(items)[0] != ']'
  {
    PrintStart(items[0]);
  }

  lemma {:induction false} FieldsStart(v: Json, keys: seq<string>)
    requires v.Obj? && Printable(v) && keys != [] && forall k :: k in keys ==> k in v.fields
    ensures PrintFields(v, keys) != "" && PrintFields(v, keys)[0] == '"'
  {
  }

  lemma {:induction false} ItemsText(items: seq<Json>, rest: string)
    requires items != [] && forall x :: x in items ==> Printable(x)
    ensures forall x :: x in items[1..] ==> Printable(x)
    ensures |items| == 1 ==>
      PrintItems(items) + ([']'] + rest) == Print(items[0]) + ([']'] + rest) && CanonItems(items) == [Canon(items[0])]
    ensures |items| > 1 ==>
      && PrintItems(items) + ([']'] + rest) == Print(items[0]) + ([','] + (PrintItems(items[1..]) + ([']'] + rest)))
      && CanonItems(items) == [Canon(items[0])] + CanonItems(items[1..])
  {
    hide Print, Canon, Printable;
    if |items| > 1 {
      var a, b, c := Print(items[0]), PrintItems(items[1..]), [']'] + rest;
      assert a + [','] + b + c == a + ([','] + (b + c));
    }
  }

  lemma {:induction false} ItemsRoundTrip(items: seq<Json>, rest: string)
    requires items != [] && forall x :: x in items ==> Printable(x)
    ensures ParseItems(PrintItems(items) + ([']'] + rest)) == Some((CanonItems(items), rest))
    decreases items, 0
  {
    ItemsText(items, rest);
    hide *;
    var t, v := PrintItems(items) + ([']'] + rest), items[0];
    StopsAt(']', rest);
    if |items| == 1 {
      RoundTrip(v, [']'] + rest);
      LastItem(t, Canon(v), rest);
    } else {
      var tail := PrintItems(items[1..]) + ([']'] + rest);
      StopsAt(',', tail);
      RoundTrip(v, [','] + tail);
      ItemsRoundTrip(items[1..], rest);
      NextItem(t, Canon(v), tail, CanonItems(items[1..]), rest);
    }
  }

  lemma {:induction false} StopsAt(c: char, rest: string)
    requires c == ',' || c == ']' || c == '}'
    ensures Stops([c] + rest)
  {
  }

  lemma {:induction false} LastItem(t: string, v: Json, rest: string)
    requires ParseValue(t) == Some((v, [']'] + rest))
    ensures ParseItems(t) == Some(([v], rest))
  {
    assert ([']'] + rest)[1..] == rest;
  }

  lemma {:induction false} NextItem(t: string, v: Json, tail: string, items: seq<Json>, rest: string)
    requires ParseValue(t) == Some((v, [','] + tail)) && ParseItems(tail) == Some((items, rest))
    ensures ParseItems(t) == Some(([v] + items, rest))
  {
    assert ([','] + tail)[1..] == tail;
  }

  lemma {:induction false} MemberRoundTrip(v: Json, k: string, rest: string)
    requires v.Obj? && Printable(v) && k in v.fields && Stops(rest)
    ensures ParseMember(PrintField(v, k) + rest) == Some((k, Canon(v.fields[k]), rest))
    decreases v, 0, 0
  {
    var t := PrintField(v, k) + rest;
    var tail := [':'] + (Print(v.fields[k]) + rest);
    MemberText(v, k, rest, t, tail);
    hide *;
    QuoteReads(k, tail);
    RoundTrip(v.fields[k], rest);
    MemberAt(t, k, tail, Canon(v.fields[k]), rest);
  }

  lemma {:induction false} MemberText(v: Json, k: string, rest: string, t: string, tail: string)
    requires v.Obj? && Printable(v) && k in v.fields
    requires t == PrintField(v, k) + rest && tail == [':'] + (Print(v.fields[k]) + rest)
    ensures t != "" && t[0] == '"' && t[1..] == EscapeAll(k) + ['"'] + tail
    ensures tail != "" && tail[0] == ':' && tail[1..] == Print(v.fields[k]) + rest
    ensures Printable(v.fields[k])
  {
    hide Print, EscapeAll;
    var e, p := EscapeAll(k), Print(v.fields[k]);
    assert t == (['"'] + e + ['"'] + [':'] + p) + rest;
  }

  lemma {:induction false} MemberAt(t: string, k: string, tail: string, v: Json, rest: string)
    requires t != "" && t[0] == '"' && ParseChars(t[1..]) == Some((k, tail))
    requires tail != "" && tail[0] == ':' && ParseValue(tail[1..]) == Some((v, rest))
    ensures ParseMember(t) == Some((k, v, rest))
  {
  }

  lemma {:induction false} FieldsRoundTrip(v: Json, keys: seq<string>, rest: string)
    requires v.Obj? && Printable(v) && keys != [] && NoRepeats(keys) && forall k :: k in keys ==> k in v.fields
    ensures ParseFields(PrintFields(v, keys) + (['}'] + rest)) == Some((CanonFields(v, keys), rest))
    decreases v, 0, |keys|
  {
    hide ParseMember, ParseFields, Canon, PrintField;
    var t, k := PrintFields(v, keys) + (['}'] + rest), keys[0];
    if |keys| == 1 {
      MemberRoundTrip(v, k, ['}'] + rest);
      LastField(t, k, Canon(v.fields[k]), rest);
      assert CanonFields(v, keys) == map[k := Canon(v.fields[k])];
    } else {
      var tail := PrintFields(v, keys[1..]) + (['}'] + rest);
      assert t == PrintField(v, k) + ([','] + tail);
      MemberRoundTrip(v, k, [','] + tail);
      FieldsRoundTrip(v, keys[1..], rest);
      assert k !in keys[1..];
      NextField(t, k, Canon(v.fields[k]), tail, CanonFields(v, keys[1..]), rest);
      assert keys == [k] + keys[1..];
      assert CanonFields(v, keys) == CanonFields(v, keys[1..])[k := Canon(v.fields[k])];
    }
  }

  lemma {:induction false} LastField(t: string, k: string, v: Json, rest: string)
    requires ParseMember(t) == Some((k, v, ['}'] + rest))
    ensures ParseFields(t) == Some((map[k := v], rest))
  {
    assert (['}'] + rest)[1..] == rest;
  }

  lemma {:induction false} NextField(t: string, k: string, v: Json, tail: string,
                                     fields: map<string, Json>, rest: string)
    requires ParseMember(t) == Some((k, v, [','] + tail)) && ParseFields(tail) == Some((fields, rest))
    requires k !in fields
    ensures ParseFields(t) == Some((fields[k := v], rest))
  {
    assert ([','] + tail)[1..] == tail;
  }

  // ---------- text and value determine each other ----------

  // Every integer is below 10^21 in magnitude, as all integers that the SDKs hold are.
  ghost predicate IntegersFit(v: Json)
    decreases v
  {
    match v
    case Integer(i) => Magnitude(i) < TEN_TO_21
    case Arr(items) => forall x :: x in items ==> IntegersFit(x)
    case Obj(fields) => forall k :: k in fields ==> IntegersFit(fields[k])
    case _ => true
  }

  // The exact-integer path writes what the layout writes for the same decimal.
  lemma {:induction false} IntegerPathWrites(i: int)
    requires Magnitude(i) < TEN_TO_21
    ensures IsPrintable(DecimalOf(i)) && NumberText(DecimalOf(i)) == IntegerText(i)
  {
    if i == 0 {
      assert Digits(0) == "0";
    } else {
      var n := Magnitude(i);
      hide Layout, StripTrailing, Digits, Pow10, Value, IsNormal;
      PaddedLayout(Digits(n), n);
      assert "" + Digits(n) == Digits(n);
    }
  }

  lemma {:induction false} PaddedLayout(text: string, n: nat)
    requires AllDigits(text) && text != "" && text[0] != '0' && Value(text) == n && Digits(n) == text
    requires 0 < n < TEN_TO_21
    ensures var s := StripTrailing(text);
      IsNormal(s) && Layout(s, |text|) == text
  {
    hide Layout, StripTrailing, Digits, Pow10, Value;
    var s := StripTrailing(text);
    StripKeepsHead(text);
    StrippedQuantity(s, |text| - |s|, n);
    IntegerLayout(n, s, |text|);
  }

  lemma {:induction false} StrippedQuantity(s: string, zeros: nat, n: nat)
    requires AllDigits(s) && AllDigits(s + Zeros(zeros)) && Value(s + Zeros(zeros)) == n
    ensures SameQuantity(Value(s), zeros, n, 0)
  {
    hide Value;
    ValueAppend(s, Zeros(zeros));
    ValueZeros(zeros);
    if zeros == 0 {
      assert Pow10(0) == 1;
    }
  }

  lemma {:induction false} CanonPrints(v: Json)
    requires Printable(v) && IntegersFit(v)
    ensures Printable(Canon(v)) && Print(Canon(v)) == Print(v)
    decreases v, 1
  {
    match v
    case Integer(i) => IntegerPathWrites(i);
    case Arr(items) => CanonItemsPrint(items);
    case Obj(fields) =>
      forall k | k in fields ensures Printable(Canon(fields[k])) {
        CanonPrints(fields[k]);
      }
      assert Canon(v).fields.Keys == fields.Keys;
      CanonFieldsPrint(v, KeysInOrder(fields.Keys));
    case _ =>
  }

  lemma {:induction false} CanonItemsPrint(items: seq<Json>)
    requires forall x :: x in items ==> Printable(x) && IntegersFit(x)
    ensures forall x :: x in CanonItems(items) ==> Printable(x)
    ensures PrintItems(CanonItems(items)) == PrintItems(items)
    decreases items, 0
  {
    if items != [] {
      CanonPrints(items[0]);
      CanonItemsPrint(items[1..]);
      assert CanonItems(items)[1..] == CanonItems(items[1..]);
    }
  }

  lemma {:induction false} CanonFieldsPrint(v: Json, keys: seq<string>)
    requires v.Obj? && Printable(v) && IntegersFit(v) && Printable(Canon(v)) && forall k :: k in keys ==> k in v.fields
    ensures PrintFields(Canon(v), keys) == PrintFields(v, keys)
    decreases v, 0, |keys|
  {
    if keys != [] {
      CanonPrints(v.fields[keys[0]]);
      CanonFieldsPrint(v, keys[1..]);
    }
  }

  // Two printable values have the same canonical text exactly when they write the same decimals.
  lemma {:induction false} SameTextSameDecimals(a: Json, b: Json)
    requires Printable(a) && Printable(b) && IntegersFit(a) && IntegersFit(b)
    ensures Print(a) == Print(b) <==> Canon(a) == Canon(b)
    ensures Utf8(Print(a)) == Utf8(Print(b)) <==> Canon(a) == Canon(b)
  {
    RoundTrip(a, "");
    RoundTrip(b, "");
    assert Print(a) + "" == Print(a) && Print(b) + "" == Print(b);
    CanonPrints(a);
    CanonPrints(b);
    if Utf8(Print(a)) == Utf8(Print(b)) {
      Utf8Injective(Print(a), Print(b));
    }
  }
}
