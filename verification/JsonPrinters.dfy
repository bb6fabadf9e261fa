// The printers themselves: writeCanonical and writeJSONString of go-sdk/canonicalize.go, which
// write bytes into a shared buffer, and write_value, write_string and format_f64 of
// rust-sdk/src/canonicalize.rs, which push characters onto a string. Each has its own escape table
// and its own number layout.
module JsonPrinters {
  import opened Wrappers
  import opened Sorting
  import opened Unicode
  import opened Numerals
  import opened JsonText
  import opened JsonRoundTrip
  import opened DoubleDigits

  // Library formatting yields normal digits for every finite double.
  ghost predicate WellFormed(v: Json)
    decreases v
  {
    match v
    case Float(f) => f.Finite? ==> IsNormal(f.digits)
    case Arr(items) => forall x :: x in items ==> WellFormed(x)
    case Obj(fields) => forall k :: k in fields ==> WellFormed(fields[k])
    case _ => true
  }

  // The part of a list still to be written once i elements are out.
  ghost function ItemsFrom(items: seq<Json>, i: nat): string
    requires i <= |items| && forall x :: x in items ==> Printable(x)
  {
    if i == 0 then PrintItems(items)
    else if i == |items| then ""
    else [','] + PrintItems(items[i..])
  }

  ghost function FieldsFrom(v: Json, keys: seq<string>, i: nat): string
    requires i <= |keys| && v.Obj? && Printable(v) && forall k :: k in keys ==> k in v.fields
  {
    if i == 0 then PrintFields(v, keys)
    else if i == |keys| then ""
    else [','] + PrintFields(v, keys[i..])
  }

  ghost function Comma(i: nat): string {
    if i > 0 then [','] else ""
  }

  lemma {:induction false} ItemsNext(items: seq<Json>, i: nat)
    requires i < |items| && forall x :: x in items ==> Printable(x)
    ensures ItemsFrom(items, i) == Comma(i) + Print(items[i]) + ItemsFrom(items, i + 1)
  {
    hide Print, Printable;
    assert items[i..][1..] == items[i + 1..];
    assert items[0..] == items;
    var text := Print(items[i]);
    if i + 1 == |items| {
      assert PrintItems(items[i..]) == text;
      assert Comma(i) + text + "" == Comma(i) + text;
    } else {
      var more := PrintItems(items[i + 1..]);
      assert PrintItems(items[i..]) == text + [','] + more;
      assert Comma(i) + (text + [','] + more) == Comma(i) + text + ([','] + more);
    }
  }

  lemma {:induction false} FieldsNext(v: Json, keys: seq<string>, i: nat)
    requires i < |keys| && v.Obj? && Printable(v) && forall k :: k in keys ==> k in v.fields
    ensures FieldsFrom(v, keys, i)
         == Comma(i) + Quote(keys[i]) + [':'] + Print(v.fields[keys[i]]) + FieldsFrom(v, keys, i + 1)
  {
    var field, more := PrintField(v, keys[i]), FieldsFrom(v, keys, i + 1);
    assert field == Quote(keys[i]) + [':'] + Print(v.fields[keys[i]]);
    FieldsUnfold(v, keys, i);
    hide *;
    assert Comma(i) + field + more
        == Comma(i) + Quote(keys[i]) + [':'] + Print(v.fields[keys[i]]) + more;
  }

  lemma {:induction false} FieldsUnfold(v: Json, keys: seq<string>, i: nat)
    requires i < |keys| && v.Obj? && Printable(v) && forall k :: k in keys ==> k in v.fields
    ensures FieldsFrom(v, keys, i) == Comma(i) + PrintField(v, keys[i]) + FieldsFrom(v, keys, i + 1)
  {
    hide PrintField, Printable;
    assert keys[i..][1..] == keys[i + 1..];
    assert keys[0..] == keys;
    if i + 1 == |keys| {
      assert PrintField(v, keys[i]) + "" == PrintField(v, keys[i]);
    } else {
      assert PrintFields(v, keys[i..]) == PrintField(v, keys[i]) + [','] + PrintFields(v, keys[i + 1..]);
    }
  }

  // Map iteration: the keys in an arbitrary order.
  method MapKeys(fields: map<string, Json>) returns (keys: seq<string>)
    ensures multiset(keys) == multiset(fields.Keys)
  {
    keys := [];
    var pending := fields.Keys;
    while pending != {}
      invariant multiset(keys) + multiset(pending) == multiset(fields.Keys)
      decreases |pending|
    {
      var k :| k in pending;
      keys, pending := keys + [k], pending - {k};
    }
  }

  method SortedKeys(fields: map<string, Json>) returns (keys: seq<string>)
    ensures keys == KeysInOrder(fields.Keys)
  {
    keys := MapKeys(fields);
    KeyOrderUnique(fields.Keys, keys);
    keys := Sort((a, b) => KeyLe(a, b), keys);
  }

  // ---------- Rust: characters ----------

  class Text {
    var chars: string

    constructor ()
      ensures chars == ""
    {
      chars := "";
    }

    method PushStr(s: string)
      modifies this
      ensures chars == old(chars) + s
    {
      chars := chars + s;
    }
  }

  // `done` has been written and `next` follows, out of `goal` in all.
  lemma {:induction false} Advance(goal: string, done: string, next: string, left: string, left': string)
    requires goal == done + left && left == next + left'
    ensures goal == (done + next) + left'
  {
  }

  lemma {:induction false} EscapeNext(s: string, i: nat)
    requires i < |s|
    ensures EscapeAll(s[i..]) == Escape(s[i]) + EscapeAll(s[i + 1..])
  {
    assert s[i..][1..] == s[i + 1..];
  }

  // The `{:04x}` of Rust's formatting.
  function LowerHex4(n: nat): string
    requires n < 0x10000
  {
    [HEX_DIGITS[n / 0x1000], HEX_DIGITS[n / 0x100 % 0x10], HEX_DIGITS[n / 0x10 % 0x10], HEX_DIGITS[n % 0x10]]
  }

  // The match of write_string.
  method PushEscaped(out: Text, c: char)
    modifies out
    ensures out.chars == old(out.chars) + Escape(c)
  {
    if c == '"' {
      out.PushStr("\\\"");
    } else if c == '\\' {
      out.PushStr("\\\\");
    } else if c == '\U{0008}' {
      out.PushStr("\\b");
    } else if c == '\U{000C}' {
      out.PushStr("\\f");
    } else if c == '\n' {
      out.PushStr("\\n");
    } else if c == '\r' {
      out.PushStr("\\r");
    } else if c == '\t' {
      out.PushStr("\\t");
    } else if c as int < 0x20 {
      out.PushStr("\\u" + LowerHex4(c as int));
    } else {
      out.PushStr([c]);
    }
  }

  method WriteString(out: Text, s: string)
    modifies out
    ensures out.chars == old(out.chars) + Quote(s)
  {
    hide Escape, EscapeAll;
    ghost var done: string := [];
    out.PushStr(['"']);
    assert s[0..] == s;
    for i := 0 to |s|
      invariant out.chars == old(out.chars) + (['"'] + done)
      invariant EscapeAll(s) == done + EscapeAll(s[i..])
    {
      EscapeNext(s, i);
      Advance(EscapeAll(s), done, Escape(s[i]), EscapeAll(s[i..]), EscapeAll(s[i + 1..]));
      PushEscaped(out, s[i]);
      done := done + Escape(s[i]);
    }
    EscapeEnd(s);
    out.PushStr(['"']);
  }

  lemma {:induction false} EscapeEnd(s: string)
    ensures EscapeAll(s[|s|..]) == ""
  {
  }

  // format_f64; Err stands for the panic on a non-finite number.
  method FormatF64(f: Double) returns (r: Result<string>)
    requires f.Finite? ==> IsNormal(f.digits)
    ensures r.Ok? <==> IsPrintable(f)
    ensures r.Ok? ==> r.value == NumberText(f)
    decreases f.Finite? && f.negative
  {
    if f.NaN? || f.Infinity? {
      return Err;
    }
    if f.Zero? {
      return Ok("0");
    }
    if f.negative {
      hide Layout;
      var rest := FormatF64(f.(negative := false));
      assert "" + Layout(f.digits, f.exponent + 1) == Layout(f.digits, f.exponent + 1);
      return Ok("-" + rest.value);
    }
    var result := FormatDigits(f.digits, f.exponent + 1);
    assert "" + result == result;
    return Ok(result);
  }

  // The four rules of format_f64, pushed piece by piece.
  method FormatDigits(s: string, n: int) returns (result: string)
    requires |s| >= 1
    ensures result == Layout(s, n)
  {
    hide Digits, SignedDigits;
    var k := |s|;
    result := "";
    if k <= n && n <= 21 {
      result := result + s;
      for i := 0 to n - k
        invariant result == s + Zeros(i)
      {
        result := result + "0";
      }
    } else if 0 < n && n <= 21 {
      result := result + s[..n];
      result := result + ".";
      result := result + s[n..];
    } else if -6 < n && n <= 0 {
      result := result + "0.";
      for i := 0 to -n
        invariant result == "0." + Zeros(i)
      {
        result := result + "0";
      }
      result := result + s;
    } else {
      var expOut := ExponentOut(n - 1);
      if k == 1 {
        result := s + expOut;
        ThreeParts(s, "e", SignedDigits(n - 1));
      } else {
        result := [s[0]] + "." + s[1..] + expOut;
        assert [s[0]] == s[..1];
        ThreeParts(s[..1] + "." + s[1..], "e", SignedDigits(n - 1));
      }
    }
  }

  lemma {:induction false} ThreeParts(a: string, b: string, c: string)
    ensures a + (b + c) == a + b + c
  {
  }

  method ExponentOut(e: int) returns (s: string)
    ensures s == "e" + SignedDigits(e)
  {
    if e >= 0 {
      s := "e+" + Digits(e);
      MarkedExponent("+", Digits(e));
    } else {
      s := "e-" + Digits(-e);
      MarkedExponent("-", Digits(-e));
    }
  }

  // write_value; false stands for the panic on a non-finite number.
  method WriteValue(out: Text, v: Json) returns (ok: bool)
    requires WellFormed(v)
    modifies out
    ensures ok <==> Printable(v)
    ensures ok ==> out.chars == old(out.chars) + Print(v)
    decreases v
  {
    ghost var start := out.chars;
    match v
    case Null => out.PushStr("null"); ok := true;
    case Bool(b) => out.PushStr(if b then "true" else "false"); ok := true;
    case Integer(i) => out.PushStr(IntegerText(i)); ok := true;
    case Float(f) =>
      var text := FormatF64(f);
      if text.Err? {
        return false;
      }
      out.PushStr(text.value);
      ok := true;
    case Str(s) => WriteString(out, s); ok := true;
    case Arr(items) => ok := WriteItems(out, v);
    case Obj(fields) => ok := WriteFields(out, v);
    case Foreign => ok := false;
  }

  method WriteItems(out: Text, v: Json) returns (ok: bool)
    requires v.Arr? && WellFormed(v)
    modifies out
    ensures ok <==> Printable(v)
    ensures ok ==> out.chars == old(out.chars) + Print(v)
    decreases v, 0
  {
    hide Print, PrintItems, ItemsFrom;
    ghost var done: string := [];
    out.PushStr(['[']);
    for i := 0 to |v.items|
      invariant forall j :: 0 <= j < i ==> Printable(v.items[j])
      invariant out.chars == old(out.chars) + (['['] + done)
      invariant Printable(v) ==> ItemsFrom(v.items, 0) == done + ItemsFrom(v.items, i)
    {
      if i > 0 {
        out.PushStr([',']);
      }
      ok := WriteValue(out, v.items[i]);
      if !ok {
        return false;
      }
      ghost var next := Comma(i) + Print(v.items[i]);
      if Printable(v) {
        ItemsNext(v.items, i);
        Advance(ItemsFrom(v.items, 0), done, next, ItemsFrom(v.items, i), ItemsFrom(v.items, i + 1));
      }
      assert out.chars == old(out.chars) + (['['] + (done + next));
      done := done + next;
    }
    out.PushStr([']']);
    if Printable(v) {
      ItemsEnds(v);
      assert old(out.chars) + (['['] + done) + [']'] == old(out.chars) + (['['] + done + [']']);
    }
    ok := true;
  }

  lemma {:induction false} ItemsEnds(v: Json)
    requires v.Arr? && Printable(v)
    ensures ItemsFrom(v.items, |v.items|) == ""
    ensures Print(v) == ['['] + ItemsFrom(v.items, 0) + [']']
  {
  }

  method WriteFields(out: Text, v: Json) returns (ok: bool)
    requires v.Obj? && WellFormed(v)
    modifies out
    ensures ok <==> Printable(v)
    ensures ok ==> out.chars == old(out.chars) + Print(v)
    decreases v, 0
  {
    hide Print, PrintFields, FieldsFrom, KeysInOrder, Quote;
    var keys := SortedKeys(v.fields);
    ghost var done: string := [];
    out.PushStr(['{']);
    for i := 0 to |keys|
      invariant forall j :: 0 <= j < i ==> Printable(v.fields[keys[j]])
      invariant out.chars == old(out.chars) + (['{'] + done)
      invariant Printable(v) ==> FieldsFrom(v, keys, 0) == done + FieldsFrom(v, keys, i)
    {
      if i > 0 {
        out.PushStr([',']);
      }
      WriteString(out, keys[i]);
      out.PushStr([':']);
      ok := WriteValue(out, v.fields[keys[i]]);
      if !ok {
        return false;
      }
      ghost var next := Comma(i) + Quote(keys[i]) + [':'] + Print(v.fields[keys[i]]);
      if Printable(v) {
        FieldsNext(v, keys, i);
        Advance(FieldsFrom(v, keys, 0), done, next, FieldsFrom(v, keys, i), FieldsFrom(v, keys, i + 1));
      }
      assert out.chars == old(out.chars) + (['{'] + (done + next));
      done := done + next;
    }
    out.PushStr(['}']);
    if Printable(v) {
      FieldsEnds(v, keys);
      assert old(out.chars) + (['{'] + done) + ['}'] == old(out.chars) + (['{'] + done + ['}']);
    }
    ok := true;
  }

  lemma {:induction false} FieldsEnds(v: Json, keys: seq<string>)
    requires v.Obj? && Printable(v) && keys == KeysInOrder(v.fields.Keys)
    ensures FieldsFrom(v, keys, |keys|) == ""
    ensures Print(v) == ['{'] + FieldsFrom(v, keys, 0) + ['}']
  {
  }

  // ---------- Go: bytes ----------

  class Buffer {
    var data: seq<Byte>

    constructor ()
      ensures data == []
    {
      data := [];
    }

    // Go source text and Go strings are UTF-8.
    method WriteString(s: seq<Byte>)
      modifies this
      ensures data == old(data) + s
    {
      data := data + s;
    }
  }

  // What is to be emitted for one byte; bytes from 0x80 on are copied.
  function EscapeByte(b: Byte): seq<Byte> {
    if b < 0x80 then Utf8(Escape(b as char)) else [b]
  }

  function EscapeBytes(s: seq<Byte>): seq<Byte> {
    if s == [] then [] else EscapeByte(s[0]) + EscapeBytes(s[1..])
  }

  lemma {:induction false} EscapeBytesAppend(a: seq<Byte>, b: seq<Byte>)
    ensures EscapeBytes(a + b) == EscapeBytes(a) + EscapeBytes(b)
  {
    if a == [] {
      assert a + b == b;
    } else {
      assert (a + b)[1..] == a[1..] + b;
      EscapeBytesAppend(a[1..], b);
    }
  }

  lemma {:induction false} HighBytesVerbatim(s: seq<Byte>)
    requires forall i :: 0 <= i < |s| ==> s[i] >= 0x80
    ensures EscapeBytes(s) == s
  {
    if s != [] {
      HighBytesVerbatim(s[1..]);
    }
  }

  // Escaping the bytes of a string is escaping its characters.
  lemma {:induction false} EscapeBytesOf(s: string)
    ensures EscapeBytes(Utf8(s)) == Utf8(EscapeAll(s))
  {
    if s != "" {
      EscapeBytesOf(s[1..]);
      EscapeBytesAppend(Bytes(s[0]), Utf8(s[1..]));
      Utf8Append(Escape(s[0]), EscapeAll(s[1..]));
      EscapeOneOf(s[0]);
    }
  }

  lemma {:induction false} EscapeOneOf(c: char)
    ensures EscapeBytes(Bytes(c)) == Utf8(Escape(c))
  {
    if c as int < 0x80 {
      hide Escape;
      assert Bytes(c) == [c as int] && Bytes(c)[1..] == [];
    } else {
      HighBytesVerbatim(Bytes(c));
      assert Escape(c) == [c] && [c][1..] == "";
    }
  }

  lemma {:induction false} AsciiBytes(s: string)
    requires forall i :: 0 <= i < |s| ==> s[i] as int < 0x80
    ensures |Utf8(s)| == |s| && forall i :: 0 <= i < |s| ==> Utf8(s)[i] == s[i] as int
  {
    if s != "" {
      AsciiBytes(s[1..]);
    }
  }

  // hexDigits[d]
  function HexDigit(d: nat): Byte
    requires d < 0x10
  {
    HEX_DIGITS[d] as int
  }

  // The switch of writeJSONString.
  method WriteEscaped(buf: Buffer, c: Byte)
    modifies buf
    ensures buf.data == old(buf.data) + EscapeByte(c)
  {
    if c < 0x80 {
      AsciiBytes(Escape(c as char));
      hide Utf8;
    }
    if c == '"' as int {
      buf.WriteString(['\\' as int, '"' as int]);
    } else if c == '\\' as int {
      buf.WriteString(['\\' as int, '\\' as int]);
    } else if c == 0x08 {
      buf.WriteString(['\\' as int, 'b' as int]);
    } else if c == 0x0C {
      buf.WriteString(['\\' as int, 'f' as int]);
    } else if c == '\n' as int {
      buf.WriteString(['\\' as int, 'n' as int]);
    } else if c == '\r' as int {
      buf.WriteString(['\\' as int, 'r' as int]);
    } else if c == '\t' as int {
      buf.WriteString(['\\' as int, 't' as int]);
    } else if c < 0x20 {
      buf.WriteString(['\\' as int, 'u' as int, '0' as int, '0' as int]);
      buf.WriteString([HexDigit(c / 0x10)]);
      buf.WriteString([HexDigit(c % 0x10)]);
    } else {
      buf.WriteString([c]);
    }
  }

  // `s` is the UTF-8 of `text`.
  method WriteJSONString(buf: Buffer, s: seq<Byte>, ghost text: string)
    requires s == Utf8(text)
    modifies buf
    ensures buf.data == old(buf.data) + Utf8(Quote(text))
  {
    hide Escape, EscapeByte, EscapeAll, Utf8;
    var quote := QuoteMark();
    buf.WriteString(quote);
    for i := 0 to |s|
      invariant buf.data == old(buf.data) + quote + EscapeBytes(s[..i])
    {
      assert s[..i + 1] == s[..i] + [s[i]] && [s[i]][1..] == [];
      EscapeBytesAppend(s[..i], [s[i]]);
      assert EscapeBytes([s[i]]) == EscapeByte(s[i]);
      WriteEscaped(buf, s[i]);
    }
    assert s[..|s|] == s;
    buf.WriteString(quote);
    EscapeBytesOf(text);
    Utf8Append(['"'] + EscapeAll(text), ['"']);
    Utf8Append(['"'], EscapeAll(text));
    assert Utf8(Quote(text)) == quote + EscapeBytes(s) + quote;
    assert buf.data == old(buf.data) + quote + EscapeBytes(s) + quote;
  }

  function QuoteMark(): seq<Byte>
    ensures QuoteMark() == Utf8(['"'])
  {
    assert ['"'][1..] == "";
    [0x22]
  }

  // writeCanonical; false stands for the returned error.
  method WriteCanonical(buf: Buffer, v: Json) returns (ok: bool)
    requires WellFormed(v)
    modifies buf
    ensures ok <==> Printable(v)
    ensures ok ==> buf.data == old(buf.data) + Utf8(Print(v))
    decreases v
  {
    hide Utf8, NumberText, IntegerText, Quote;
    match v
    case Null => buf.WriteString(Utf8("null")); ok := true;
    case Bool(b) => buf.WriteString(Utf8(if b then "true" else "false")); ok := true;
    case Integer(i) => buf.WriteString(Utf8(IntegerText(i))); ok := true;
    case Float(f) =>
      var text := NumberToString(f);
      if text.Err? {
        return false;
      }
      buf.WriteString(Utf8(text.value));
      ok := true;
    case Str(s) => WriteJSONString(buf, Utf8(s), s); ok := true;
    case Arr(items) => ok := WriteArray(buf, v);
    case Obj(fields) => ok := WriteObject(buf, v);
    case Foreign => ok := false;
  }

  lemma {:induction false} Utf8Chain(a: string, b: string, c: string)
    ensures Utf8(a + b + c) == Utf8(a) + Utf8(b) + Utf8(c)
  {
    Utf8Append(a + b, c);
    Utf8Append(a, b);
  }

  method WriteArray(buf: Buffer, v: Json) returns (ok: bool)
    requires v.Arr? && WellFormed(v)
    modifies buf
    ensures ok <==> Printable(v)
    ensures ok ==> buf.data == old(buf.data) + Utf8(Print(v))
    decreases v, 0
  {
    hide Print, PrintItems, ItemsFrom, Utf8;
    ghost var done: string := [];
    buf.WriteString(Utf8(['[']));
    assert ['['] + done == ['['];
    for i := 0 to |v.items|
      invariant forall j :: 0 <= j < i ==> Printable(v.items[j])
      invariant buf.data == old(buf.data) + Utf8(['['] + done)
      invariant Printable(v) ==> ItemsFrom(v.items, 0) == done + ItemsFrom(v.items, i)
    {
      NoBytes();
      if i > 0 {
        buf.WriteString(Utf8([',']));
      }
      ok := WriteCanonical(buf, v.items[i]);
      if !ok {
        return false;
      }
      ghost var text := Print(v.items[i]);
      if Printable(v) {
        ItemsNext(v.items, i);
        Advance(ItemsFrom(v.items, 0), done, Comma(i) + text, ItemsFrom(v.items, i), ItemsFrom(v.items, i + 1));
      }
      Utf8Chain(['['] + done, Comma(i), text);
      assert ['['] + done + Comma(i) + text == ['['] + (done + (Comma(i) + text));
      done := done + (Comma(i) + text);
    }
    buf.WriteString(Utf8([']']));
    if Printable(v) {
      ItemsEnds(v);
      Utf8Append(['['] + done, [']']);
      assert Print(v) == ['['] + done + [']'];
      assert buf.data == old(buf.data) + Utf8(['['] + done) + Utf8([']']);
    }
    ok := true;
  }

  lemma {:induction false} NoBytes()
    ensures Utf8("") == []
  {
  }

  lemma {:induction false} Utf8Member(a: string, comma: string, k: string, text: string)
    ensures Utf8(a + (comma + k + [':'] + text)) == Utf8(a) + Utf8(comma) + Utf8(k) + Utf8([':']) + Utf8(text)
  {
    hide Utf8;
    assert a + (comma + k + [':'] + text) == (a + comma + k) + [':'] + text;
    Utf8Chain(a + comma + k, [':'], text);
    Utf8Chain(a, comma, k);
  }

  lemma {:induction false} Regroup(a: seq<Byte>, b: seq<Byte>, c: seq<Byte>, d: seq<Byte>, e: seq<Byte>, f: seq<Byte>)
    ensures a + b + c + d + e + f == a + (b + c + d + e + f)
  {
  }

  method WriteObject(buf: Buffer, v: Json) returns (ok: bool)
    requires v.Obj? && WellFormed(v)
    modifies buf
    ensures ok <==> Printable(v)
    ensures ok ==> buf.data == old(buf.data) + Utf8(Print(v))
    decreases v, 0
  {
    hide Print, PrintFields, FieldsFrom, KeysInOrder, Quote, Utf8;
    var keys := SortedKeys(v.fields);
    ghost var done: string := [];
    buf.WriteString(Utf8(['{']));
    assert ['{'] + done == ['{'];
    for i := 0 to |keys|
      invariant forall j :: 0 <= j < i ==> Printable(v.fields[keys[j]])
      invariant buf.data == old(buf.data) + Utf8(['{'] + done)
      invariant Printable(v) ==> FieldsFrom(v, keys, 0) == done + FieldsFrom(v, keys, i)
    {
      NoBytes();
      if i > 0 {
        buf.WriteString(Utf8([',']));
      }
      WriteJSONString(buf, Utf8(keys[i]), keys[i]);
      buf.WriteString(Utf8([':']));
      ok := WriteCanonical(buf, v.fields[keys[i]]);
      if !ok {
        return false;
      }
      ghost var k, text := Quote(keys[i]), Print(v.fields[keys[i]]);
      ghost var next := Comma(i) + k + [':'] + text;
      if Printable(v) {
        FieldsNext(v, keys, i);
        Advance(FieldsFrom(v, keys, 0), done, next, FieldsFrom(v, keys, i), FieldsFrom(v, keys, i + 1));
      }
      Utf8Member(['{'] + done, Comma(i), k, text);
      assert ['{'] + done + next == ['{'] + (done + next);
      Regroup(old(buf.data), Utf8(['{'] + done), Utf8(Comma(i)), Utf8(k), Utf8([':']), Utf8(text));
      done := done + next;
    }
    buf.WriteString(Utf8(['}']));
    if Printable(v) {
      FieldsEnds(v, keys);
      Utf8Append(['{'] + done, ['}']);
      assert Print(v) == ['{'] + done + ['}'];
      assert buf.data == old(buf.data) + Utf8(['{'] + done) + Utf8(['}']);
    }
    ok := true;
  }

  // ---------- the two SDKs together ----------

  // Canonicalize of the Go SDK and canonicalize of the Rust SDK on values that may differ in how
  // they hold their numbers. With integers up to 2^53 the bytes are the same exactly when the values
  // are; with larger ones, exactly when the same decimals are written.
  method CanonicalizeBoth(a: Json, b: Json) returns (go: Result<seq<Byte>>, rust: Result<string>)
    requires WellFormed(a) && WellFormed(b)
    ensures (go.Ok? <==> Printable(a)) && (rust.Ok? <==> Printable(b))
    ensures go.Ok? && rust.Ok? && SafeIntegers(a) && SafeIntegers(b) ==>
      (go.value == Utf8(rust.value) <==> SameValue(a, b))
    ensures go.Ok? && rust.Ok? && IntegersFit(a) && IntegersFit(b) ==>
      (go.value == Utf8(rust.value) <==> Canon(a) == Canon(b))
  {
    hide Print, Printable, Canon, SameValue, WellFormed, Utf8, SafeIntegers, IntegersFit;
    var buf := new Buffer();
    var text := new Text();
    var ok := WriteCanonical(buf, a);
    go := if ok then Ok(buf.data) else Err;
    ok := WriteValue(text, b);
    rust := if ok then Ok(text.chars) else Err;
    if go.Ok? && rust.Ok? {
      assert go.value == Utf8(Print(a)) && rust.value == Print(b);
      if IntegersFit(a) && IntegersFit(b) {
        SameTextSameDecimals(a, b);
      }
      if SafeIntegers(a) && SafeIntegers(b) {
        SafeIntegersFit(a);
        SafeIntegersFit(b);
        SameTextSameDecimals(a, b);
        SameValueCanon(a, b);
      }
    }
  }
}
