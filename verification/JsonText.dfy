// Canonical JSON of RFC 8785 as text: the values, the text both printers aim for, and a parser
// that recovers the value.
module JsonText {
  import opened Wrappers
  import opened Sorting
  import opened Unicode
  import opened Numerals
  import opened NumeralReader

  // Foreign is any value of a type the Go printer rejects.
  datatype Json =
    | Null
    | Bool(b: bool)
    | Integer(i: int)
    | Float(f: Double)
    | Str(s: string)
    | Arr(items: seq<Json>)
    | Obj(fields: map<string, Json>)
    | Foreign

  // ---------- strings ----------

  const HEX_DIGITS: string := "0123456789abcdef"

  // One character of a string literal.
  function Escape(c: char): string {
    if c == '"' then ['\\', '"']
    else if c == '\\' then ['\\', '\\']
    else if c == '\U{0008}' then ['\\', 'b']
    else if c == '\U{000C}' then ['\\', 'f']
    else if c == '\n' then ['\\', 'n']
    else if c == '\r' then ['\\', 'r']
    else if c == '\t' then ['\\', 't']
    else if c as int < 0x20 then ['\\', 'u', '0', '0', HEX_DIGITS[c as int / 16], HEX_DIGITS[c as int % 16]]
    else [c]
  }

  function EscapeAll(s: string): string {
    if s == "" then "" else Escape(s[0]) + EscapeAll(s[1..])
  }

  function Quote(s: string): string {
    ['"'] + EscapeAll(s) + ['"']
  }

  // ---------- values ----------

  // Some enumeration of a finite set of keys.
  ghost function Enumerate(keys: set<string>): (s: seq<string>)
    ensures multiset(s) == multiset(keys)
  {
    if keys == {} then []
    else
      var k :| k in keys;
      [k] + Enumerate(keys - {k})
  }

  // The keys of an object in the order of RFC 8785.
  ghost function KeysInOrder(keys: set<string>): (s: seq<string>)
    ensures multiset(s) == multiset(keys)
    ensures NoRepeats(s) && forall k :: k in s <==> k in keys
  {
    var s := Sort((a, b) => KeyLe(a, b), Enumerate(keys));
    SetHasNoRepeats(s, keys);
    s
  }

  // A value is printable when every number is finite and nothing is Foreign.
  ghost predicate Printable(v: Json)
    decreases v
  {
    match v
    case Float(f) => IsPrintable(f)
    case Arr(items) => forall x :: x in items ==> Printable(x)
    case Obj(fields) => forall k :: k in fields ==> Printable(fields[k])
    case Foreign => false
    case _ => true
  }

  function IntegerText(i: int): string {
    if i < 0 then "-" + Digits(-i) else Digits(i)
  }

  ghost function Print(v: Json): string
    requires Printable(v)
    decreases v, 1
  {
    match v
    case Null => "null"
    case Bool(b) => if b then "true" else "false"
    case Integer(i) => IntegerText(i)
    case Float(f) => NumberText(f)
    case Str(s) => Quote(s)
    case Arr(items) => ['['] + PrintItems(items) + [']']
    case Obj(fields) => ['{'] + PrintFields(v, KeysInOrder(fields.Keys)) + ['}']
  }

  ghost function PrintItems(items: seq<Json>): string
    requires forall x :: x in items ==> Printable(x)
    decreases items, 0
  {
    if items == [] then ""
    else if |items| == 1 then Print(items[0])
    else Print(items[0]) + [','] + PrintItems(items[1..])
  }

  ghost function PrintField(v: Json, k: string): string
    requires v.Obj? && Printable(v) && k in v.fields
    decreases v, 0, 0
  {
    Quote(k) + [':'] + Print(v.fields[k])
  }

  ghost function PrintFields(v: Json, keys: seq<string>): string
    requires v.Obj? && Printable(v) && forall k :: k in keys ==> k in v.fields
    decreases v, 0, |keys|
  {
    if keys == [] then ""
    else if |keys| == 1 then PrintField(v, keys[0])
    else PrintField(v, keys[0]) + [','] + PrintFields(v, keys[1..])
  }

  // Sorting any enumeration of the keys gives this order: it does not depend on map iteration.
  lemma {:induction false} KeyOrderUnique(keys: set<string>, enumeration: seq<string>)
    requires multiset(enumeration) == multiset(keys)
    ensures Sort((a, b) => KeyLe(a, b), enumeration) == KeysInOrder(keys)
  {
    var le := (a: string, b: string) => KeyLe(a, b);
    KeyOrderTotal();
    SortSorted(le, Enumerate(keys));
    var s := KeysInOrder(keys);
    forall i, j | 0 <= i < j < |s| ensures le(s[i], s[j]) && !le(s[j], s[i]) {
      assert s[i] != s[j];
    }
    SortStrict(le, s, enumeration);
  }

  // The keys of an object ascend: of any two the earlier one's UTF-16 code units are a proper prefix
  // of the later one's, or are smaller at the first difference.
  lemma {:induction false} KeysAscend(keys: set<string>, i: nat, j: nat)
    requires i < j < |KeysInOrder(keys)|
    ensures var u, w := Utf16(KeysInOrder(keys)[i]), Utf16(KeysInOrder(keys)[j]);
      || (|u| < |w| && forall n :: 0 <= n < |u| ==> u[n] == w[n])
      || exists k :: 0 <= k < |u| && k < |w| && u[k] < w[k] && forall n :: 0 <= n < k ==> u[n] == w[n]
  {
    KeysBelow(keys, i, j);
    hide KeysInOrder, Utf16;
  }

  lemma {:induction false} KeysBelow(keys: set<string>, i: nat, j: nat)
    requires i < j < |KeysInOrder(keys)|
    ensures UnitsBelow(Utf16(KeysInOrder(keys)[i]), Utf16(KeysInOrder(keys)[j]))
  {
    var le := (a: string, b: string) => KeyLe(a, b);
    KeyOrderTotal();
    SortSorted(le, Enumerate(keys));
    var s := KeysInOrder(keys);
    assert le(s[i], s[j]) && s[i] != s[j];
    hide KeysInOrder, Utf16, UnitsBelow;
    KeyOrderMeans(s[i], s[j]);
  }

  // m stands at position a of the text, up to its end or to a comma before position `next`.
  predicate Stands(m: string, text: string, a: nat, last: bool, next: nat) {
    && a + |m| <= |text| && text[a..a + |m|] == m
    && if last then a + |m| == |text| else a + |m| < |text| && text[a + |m|] == ',' && next == a + |m| + 1
  }

  lemma {:induction false} StandsAfter(front: string, m: string, text: string, a: nat, last: bool, next: nat)
    requires Stands(m, text, a, last, next)
    ensures Stands(m, front + text, |front| + a, last, |front| + next)
  {
    var whole := front + text;
    assert whole[|front| + a..|front| + a + |m|] == text[a..a + |m|];
    assert !last ==> whole[|front| + a + |m|] == text[a + |m|];
  }

  ghost function Member(v: Json, k: string): string
    requires v.Obj? && Printable(v) && k in v.fields
  {
    Quote(k) + [':'] + Print(v.fields[k])
  }

  // Where the members stand in the text between the braces: one after the other, a comma apart.
  ghost predicate MembersAt(v: Json, keys: seq<string>, text: string, at: seq<nat>)
    requires v.Obj? && Printable(v) && forall k :: k in keys ==> k in v.fields
  {
    && |at| == |keys| && (if keys == [] then text == "" else at[0] == 0)
    && forall i :: 0 <= i < |keys| ==>
         Stands(Member(v, keys[i]), text, at[i], i + 1 == |keys|, if i + 1 < |keys| then at[i + 1] else 0)
  }

  lemma {:induction false} MembersIn(v: Json, keys: seq<string>) returns (at: seq<nat>)
    requires v.Obj? && Printable(v) && forall k :: k in keys ==> k in v.fields
    ensures MembersAt(v, keys, PrintFields(v, keys), at)
    decreases |keys|
  {
    if keys == [] {
      at := [];
    } else if |keys| == 1 {
      at := [0];
      OneMember(v, keys[0]);
    } else {
      var m, more := Member(v, keys[0]), PrintFields(v, keys[1..]);
      assert PrintFields(v, keys) == m + [','] + more;
      var rest := MembersIn(v, keys[1..]);
      at := [0] + seq(|rest|, i requires 0 <= i < |rest| => |m| + 1 + rest[i]);
      hide PrintFields, Printable, Member, Stands;
      MembersShift(v, keys, m, more, rest, at);
    }
  }

  lemma {:induction false} OneMember(v: Json, k: string)
    requires v.Obj? && Printable(v) && k in v.fields
    ensures PrintFields(v, [k]) == Member(v, k) && Stands(Member(v, k), PrintFields(v, [k]), 0, true, 0)
  {
    hide Print, Quote, Printable;
    var m := Member(v, k);
    assert m[0..|m|] == m;
  }

  lemma {:induction false} MembersShift(v: Json, keys: seq<string>, m: string, more: string, rest: seq<nat>,
                                        at: seq<nat>)
    requires v.Obj? && Printable(v) && |keys| >= 2 && forall k :: k in keys ==> k in v.fields
    requires m == Member(v, keys[0]) && MembersAt(v, keys[1..], more, rest)
    requires |at| == |keys| && at[0] == 0 && forall i :: 0 <= i < |rest| ==> at[i + 1] == |m| + 1 + rest[i]
    ensures MembersAt(v, keys, m + [','] + more, at)
  {
    hide Printable, Member, Stands;
    var text, front := m + [','] + more, m + [','];
    FirstStands(m, more);
    forall i | 0 <= i < |keys|
      ensures Stands(Member(v, keys[i]), text, at[i], i + 1 == |keys|, if i + 1 < |keys| then at[i + 1] else 0)
    {
      if i > 0 {
        var j, n := i - 1, |keys[1..]|;
        var mi, last, next := Member(v, keys[1..][j]), j + 1 == n, if j + 1 < n then rest[j + 1] else 0;
        assert keys[1..][j] == keys[i];
        MemberAt(v, keys[1..], more, rest, j);
        StandsAfter(front, mi, more, rest[j], last, next);
        LastAnywhere(mi, text, at[i], last, |front| + next, 0);
      }
    }
  }

  lemma {:induction false} MemberAt(v: Json, keys: seq<string>, text: string, at: seq<nat>, i: nat)
    requires v.Obj? && Printable(v) && forall k :: k in keys ==> k in v.fields
    requires MembersAt(v, keys, text, at) && i < |keys|
    ensures Stands(Member(v, keys[i]), text, at[i], i + 1 == |keys|, if i + 1 < |keys| then at[i + 1] else 0)
  {
    hide Printable, Member, Stands;
  }

  lemma {:induction false} FirstStands(m: string, more: string)
    ensures Stands(m, m + [','] + more, 0, false, |m| + 1)
  {
  }

  lemma {:induction false} LastAnywhere(m: string, text: string, a: nat, last: bool, next: nat, next': nat)
    ensures last ==> (Stands(m, text, a, last, next) <==> Stands(m, text, a, last, next'))
  {
  }

  // What is printed for an object: between braces its members, each once, by ascending key.
  lemma {:induction false} PrintedMembers(v: Json) returns (keys: seq<string>, at: seq<nat>)
    requires v.Obj? && Printable(v)
    ensures NoRepeats(keys) && forall k :: k in keys <==> k in v.fields
    ensures forall i, j :: 0 <= i < j < |keys| ==> UnitsBelow(Utf16(keys[i]), Utf16(keys[j]))
    ensures var t := Print(v);
      |t| >= 2 && t[0] == '{' && t[|t| - 1] == '}' && MembersAt(v, keys, t[1..|t| - 1], at)
  {
    keys := KeysInOrder(v.fields.Keys);
    BracesAround(v, keys);
    hide *;
    at := MembersIn(v, keys);
    forall i: nat, j: nat | i < j < |keys| ensures UnitsBelow(Utf16(keys[i]), Utf16(keys[j])) {
      KeysBelow(v.fields.Keys, i, j);
    }
  }

  lemma {:induction false} BracesAround(v: Json, keys: seq<string>)
    requires v.Obj? && Printable(v) && keys == KeysInOrder(v.fields.Keys)
    ensures var t := Print(v);
      |t| >= 2 && t[0] == '{' && t[|t| - 1] == '}' && t[1..|t| - 1] == PrintFields(v, keys)
  {
    var t := Print(v);
    hide PrintFields;
    assert t == ['{'] + PrintFields(v, keys) + ['}'];
  }

  // The literals, and the sign and digits of an integer.
  lemma {:induction false} PrintedLiterals()
    ensures Print(Null) == "null" && Print(Bool(true)) == "true" && Print(Bool(false)) == "false"
    ensures Print(Integer(0)) == "0" && Print(Integer(-120)) == "-120" && Print(Integer(345)) == "345"
  {
    assert Digits(12) == Digits(1) + "2" && Digits(120) == Digits(12) + "0";
    assert Digits(34) == Digits(3) + "4" && Digits(345) == Digits(34) + "5";
  }

  // A string is printed between quotation marks, one escape for each character, in order.
  lemma {:induction false} PrintedString(c: char, s: string)
    ensures Print(Str("")) == ['"', '"'] && Print(Str([c] + s)) == ['"'] + Escape(c) + Print(Str(s))[1..]
  {
    hide Escape;
    assert ([c] + s)[1..] == s;
    assert Quote(s)[1..] == EscapeAll(s) + ['"'];
  }

  // An array is printed between brackets, its elements in order and a comma apart.
  lemma {:induction false} PrintedArray(x: Json, items: seq<Json>)
    requires Printable(x) && Printable(Arr(items)) && Printable(Arr([x] + items))
    ensures Print(Arr([])) == ['[', ']']
    ensures Print(Arr([x] + items)) == if items == [] then ['['] + Print(x) + [']']
                                       else ['['] + Print(x) + [','] + Print(Arr(items))[1..]
  {
    PrintableItems(items);
    PrintableItems([x] + items);
    hide *;
    ArrayText([]);
    ArrayText(items);
    ArrayText([x] + items);
    ItemsAre(x, items);
    Unfolded('[', Print(x), ',', PrintItems(items), ']');
  }

  lemma {:induction false} Unfolded<T>(a: T, first: seq<T>, b: T, rest: seq<T>, c: T)
    ensures [a] + (first + [b] + rest) + [c] == [a] + first + [b] + ([a] + rest + [c])[1..]
    ensures [a] + [] + [c] == [a, c]
  {
  }

  lemma {:induction false} PrintableItems(items: seq<Json>)
    requires Printable(Arr(items))
    ensures forall y :: y in items ==> Printable(y)
  {
  }

  lemma {:induction false} ArrayText(items: seq<Json>)
    requires forall y :: y in items ==> Printable(y)
    ensures Printable(Arr(items)) && Print(Arr(items)) == ['['] + PrintItems(items) + [']']
  {
  }

  lemma {:induction false} ItemsAre(x: Json, items: seq<Json>)
    requires Printable(x) && forall y :: y in items ==> Printable(y)
    ensures PrintItems([]) == "" && PrintItems([x]) == Print(x)
    ensures items == [] ==> [x] + items == [x]
    ensures items != [] ==> PrintItems([x] + items) == Print(x) + [','] + PrintItems(items)
  {
    hide Print, Printable;
    assert ([x] + items)[1..] == items;
  }

  // Every escape: seven of two characters, the other control characters as four lower-case
  // hexadecimal digits, and nothing else.
  lemma {:induction false} EscapesAre(c: char)
    ensures Escape('"') == "\\\"" && Escape('\\') == "\\\\" && Escape('\n') == "\\n" && Escape('\r') == "\\r"
    ensures Escape('\t') == "\\t" && Escape('\U{0008}') == "\\b" && Escape('\U{000C}') == "\\f"
    ensures c as int < 0x20 && c !in "\n\r\t\U{0008}\U{000C}" ==>
              exists hi, lo ::
                && hi in "01" && lo in "0123456789abcdef" && Escape(c) == "\\u00" + [hi, lo]
                && (hi as int - 48) * 16 + (if lo <= '9' then lo as int - 48 else lo as int - 87) == c as int
    ensures c as int >= 0x20 && c != '"' && c != '\\' ==> Escape(c) == [c]
  {
    if c as int < 0x20 && c !in "\n\r\t\U{0008}\U{000C}" {
      ControlEscape(c);
    }
  }

  lemma {:induction false} ControlEscape(c: char)
    requires c as int < 0x20 && c !in "\n\r\t\U{0008}\U{000C}"
    ensures exists hi, lo ::
              && hi in "01" && lo in "0123456789abcdef" && Escape(c) == "\\u00" + [hi, lo]
              && (hi as int - 48) * 16 + (if lo <= '9' then lo as int - 48 else lo as int - 87) == c as int
  {
    var n := c as int;
    var hi, lo := HEX_DIGITS[n / 16], HEX_DIGITS[n % 16];
    assert c != '\n' && c != '\r' && c != '\t' && c != '\U{0008}' && c != '\U{000C}';
    assert n / 16 == 0 || n / 16 == 1;
    assert hi in "01" by {
      assert "01"[n / 16] == hi;
    }
    assert Escape(c) == "\\u00" + [hi, lo];
    HexDigitValue(n % 16);
  }

  lemma {:induction false} HexDigitValue(n: nat)
    requires n < 16
    ensures var d := HEX_DIGITS[n];
      d in "0123456789abcdef" && (if d <= '9' then d as int - 48 else d as int - 87) == n
  {
  }

  // ---------- the parser ----------

  function HexValue(c: char): (r: Option<nat>)
    ensures r.Some? ==> r.value < 16
  {
    if '0' <= c <= '9' then Some(c as int - '0' as int)
    else if 'a' <= c <= 'f' then Some(c as int - 'a' as int + 10)
    else None
  }

  function ReadEscape(t: string): (r: Option<(char, string)>)
    ensures r.Some? ==> |r.value.1| < |t|
  {
    if |t| < 2 then None
    else if t[1] == '"' || t[1] == '\\' then Some((t[1], t[2..]))
    else if t[1] == 'b' then Some(('\U{0008}', t[2..]))
    else if t[1] == 'f' then Some(('\U{000C}', t[2..]))
    else if t[1] == 'n' then Some(('\n', t[2..]))
    else if t[1] == 'r' then Some(('\r', t[2..]))
    else if t[1] == 't' then Some(('\t', t[2..]))
    else if t[1] != 'u' || |t| < 6 then None
    else
      var h3, h2, h1, h0 := HexValue(t[2]), HexValue(t[3]), HexValue(t[4]), HexValue(t[5]);
      if h3.None? || h2.None? || h1.None? || h0.None? then None
      else
        var v := ((h3.value * 16 + h2.value) * 16 + h1.value) * 16 + h0.value;
        if v >= 0xD800 then None else Some((v as char, t[6..]))
  }

  // The rest of a string literal, after its opening quote.
  function ParseChars(t: string): (r: Option<(string, string)>)
    ensures r.Some? ==> |r.value.1| < |t|
    decreases |t|
  {
    if t == "" then None
    else if t[0] == '"' then Some(("", t[1..]))
    else if t[0] as int < 0x20 then None
    else
      var c := if t[0] == '\\' then ReadEscape(t) else Some((t[0], t[1..]));
      if c.None? then None
      else
        var more := ParseChars(c.value.1);
        if more.None? then None else Some(([c.value.0] + more.value.0, more.value.1))
  }

  function ParseValue(t: string): (r: Option<(Json, string)>)
    ensures r.Some? ==> |r.value.1| < |t|
    decreases |t|, 1
  {
    if t == "" then None
    else if t[0] == 'n' then (if "null" <= t then Some((Null, t[4..])) else None)
    else if t[0] == 't' then (if "true" <= t then Some((Bool(true), t[4..])) else None)
    else if t[0] == 'f' then (if "false" <= t then Some((Bool(false), t[5..])) else None)
    else if t[0] == '"' then
      var s := ParseChars(t[1..]);
      if s.None? then None else Some((Str(s.value.0), s.value.1))
    else if t[0] == '[' then
      if |t| > 1 && t[1] == ']' then Some((Arr([]), t[2..]))
      else
        var items := ParseItems(t[1..]);
        if items.None? then None else Some((Arr(items.value.0), items.value.1))
    else if t[0] == '{' then
      if |t| > 1 && t[1] == '}' then Some((Obj(map[]), t[2..]))
      else
        var fields := ParseFields(t[1..]);
        if fields.None? then None else Some((Obj(fields.value.0), fields.value.1))
    else
      var m := ReadNumeral(t);
      if m.None? then None else Some((Float(Normalized(m.value.0)), m.value.1))
  }

  // One or more values up to the closing bracket.
  function ParseItems(t: string): (r: Option<(seq<Json>, string)>)
    ensures r.Some? ==> |r.value.1| < |t|
    decreases |t|, 2
  {
    var v := ParseValue(t);
    if v.None? || v.value.1 == "" then None
    else if v.value.1[0] == ']' then Some(([v.value.0], v.value.1[1..]))
    else if v.value.1[0] != ',' then None
    else
      var more := ParseItems(v.value.1[1..]);
      if more.None? then None else Some(([v.value.0] + more.value.0, more.value.1))
  }

  // One or more members up to the closing brace; a repeated key is an error.
  function ParseFields(t: string): (r: Option<(map<string, Json>, string)>)
    ensures r.Some? ==> |r.value.1| < |t|
    decreases |t|, 2
  {
    var member := ParseMember(t);
    if member.None? || member.value.2 == "" then None
    else
      var (k, v, rest) := member.value;
      if rest[0] == '}' then Some((map[k := v], rest[1..]))
      else if rest[0] != ',' then None
      else
        var more := ParseFields(rest[1..]);
        if more.None? || k in more.value.0 then None else Some((more.value.0[k := v], more.value.1))
  }

  function ParseMember(t: string): (r: Option<(string, Json, string)>)
    ensures r.Some? ==> |r.value.2| < |t|
    decreases |t|, 0
  {
    if t == "" || t[0] != '"' then None
    else
      var k := ParseChars(t[1..]);
      if k.None? || k.value.1 == "" || k.value.1[0] != ':' then None
      else
        var v := ParseValue(k.value.1[1..]);
        if v.None? then None else Some((k.value.0, v.value.0, v.value.1))
  }
}
