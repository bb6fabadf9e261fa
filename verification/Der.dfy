// The DER encoder of src/tsa.ts, with the decoder that undoes it: X.690 sections 8.1.3, 8.3, 8.19
// and 10.1, and the TimeStampReq of RFC 3161, section 2.4.1. The decoder is strict: it refuses
// lengths, integers and object identifier arcs that are not in their shortest form.
module Der {
  import opened Wrappers

  type Bytes = seq<Byte>

  // ---------- big-endian numbers ----------

  function Number(s: Bytes): nat {
    if s == [] then 0 else Number(s[..|s| - 1]) * 0x100 + s[|s| - 1]
  }

  // Base 256, most significant first, no leading zero; empty for 0.
  function Magnitude(n: nat): Bytes {
    if n == 0 then [] else Magnitude(n / 0x100) + [n % 0x100]
  }

  lemma {:induction false} NumberSnoc(s: Bytes, b: Byte)
    ensures Number(s + [b]) == Number(s) * 0x100 + b
  {
    assert (s + [b])[..|s|] == s;
  }

  lemma {:induction false} NumberZeroLead(s: Bytes)
    requires |s| > 0 && s[0] == 0
    ensures Number(s) == Number(s[1..])
  {
    var last := |s| - 1;
    if |s| > 1 {
      NumberZeroLead(s[..last]);
      assert s[1..][..last - 1] == s[..last][1..];
      assert s[1..][last - 1] == s[last];
    } else {
      assert s[..0] == [] && s[1..] == [];
    }
  }

  lemma {:induction false} MagnitudeReads(n: nat)
    ensures Number(Magnitude(n)) == n
    ensures n > 0 ==> Magnitude(n) != [] && Magnitude(n)[0] != 0
  {
    if n > 0 {
      MagnitudeReads(n / 0x100);
      NumberSnoc(Magnitude(n / 0x100), n % 0x100);
    }
  }

  // ---------- tag, length, value ----------

  function LengthOctets(len: nat): Result<Bytes> {
    if len < 0x80 then Ok([len])
    else if len <= 0xff then Ok([0x81, len])
    else if len <= 0xffff then Ok([0x82, len / 0x100, len % 0x100])
    else if len <= 0xffffff then Ok([0x83, len / 0x10000, len / 0x100 % 0x100, len % 0x100])
    else Err
  }

  function Wrap(tag: Byte, content: Bytes): Result<Bytes> {
    var len :- LengthOctets(|content|);
    Ok([tag] + len + content)
  }

  // The length and what follows it; refuses the indefinite form and lengths not in shortest form.
  function ReadLength(s: Bytes): Option<(nat, Bytes)> {
    if s == [] then None
    else if s[0] < 0x80 then Some((s[0], s[1..]))
    else
      var k := s[0] - 0x80;
      if k == 0 || |s| < 1 + k then None
      else
        var len := Number(s[1..1 + k]);
        if s[1] == 0 || len < 0x80 then None else Some((len, s[1 + k..]))
  }

  // One tag-length-value at the front: its tag and content, and what follows it.
  function ReadTlv(s: Bytes): Option<(Byte, Bytes, Bytes)> {
    if s == [] then None
    else
      var l :- ReadLength(s[1..]);
      if |l.1| < l.0 then None else Some((s[0], l.1[..l.0], l.1[l.0..]))
  }

  // The long form: the number of length octets, then the length without leading zeros.
  lemma {:induction false} LongFormReads(len: nat, octets: Bytes, rest: Bytes)
    requires 0x80 <= len && 0 < |octets| < 0x80 && octets[0] != 0 && Number(octets) == len
    ensures ReadLength([0x80 + |octets|] + octets + rest) == Some((len, rest))
  {
    hide Number;
    var k, s := |octets|, [0x80 + |octets|] + octets + rest;
    assert s[1..1 + k] == octets && s[1 + k..] == rest && s[1] == octets[0];
  }

  lemma {:induction false} NumberOf(a: Byte, b: Byte, c: Byte)
    ensures Number([a]) == a && Number([a, b]) == 0x100 * a + b
    ensures Number([a, b, c]) == 0x10000 * a + 0x100 * b + c
  {
    assert Number([]) == 0;
    hide Number;
    NumberSnoc([], a);
    NumberSnoc([a], b);
    NumberSnoc([a, b], c);
    assert [] + [a] == [a] && [a] + [b] == [a, b] && [a, b] + [c] == [a, b, c];
  }

  lemma {:induction false} LengthNumber(len: nat)
    ensures len <= 0xff ==> Number([len]) == len
    ensures len <= 0xffff ==> Number([len / 0x100, len % 0x100]) == len
    ensures len <= 0xffffff ==> Number([len / 0x10000, len / 0x100 % 0x100, len % 0x100]) == len
  {
    hide Number;
    if len <= 0xff {
      NumberOf(len, 0, 0);
    }
    if len <= 0xffff {
      NumberOf(len / 0x100, len % 0x100, 0);
    }
    if len <= 0xffffff {
      NumberOf(len / 0x10000, len / 0x100 % 0x100, len % 0x100);
    }
  }

  lemma {:induction false} LengthReads(len: nat, rest: Bytes)
    requires LengthOctets(len).Ok?
    ensures ReadLength(LengthOctets(len).value + rest) == Some((len, rest))
  {
    if len < 0x80 {
      assert ([len] + rest)[1..] == rest;
    } else {
      LengthNumber(len);
      hide Number, ReadLength;
      var octets := LengthOctets(len).value;
      assert octets == [0x80 + |octets[1..]|] + octets[1..];
      assert octets[1..] == if len <= 0xff then [len]
                            else if len <= 0xffff then [len / 0x100, len % 0x100]
                            else [len / 0x10000, len / 0x100 % 0x100, len % 0x100];
      LongFormReads(len, octets[1..], rest);
    }
  }

  // Encoding fails exactly on contents of 2^24 bytes or more; otherwise the strict decoder
  // recovers tag and content and stops at their end.
  lemma {:induction false} TlvRoundTrip(tag: Byte, content: Bytes, rest: Bytes)
    ensures Wrap(tag, content).Ok? <==> |content| < 0x1000000
    ensures Wrap(tag, content).Ok? ==> ReadTlv(Wrap(tag, content).value + rest) == Some((tag, content, rest))
  {
    if |content| < 0x1000000 {
      var len := LengthOctets(|content|).value;
      var s := [tag] + len + content + rest;
      assert s[1..] == len + (content + rest);
      LengthReads(|content|, content + rest);
      assert (content + rest)[..|content|] == content && (content + rest)[|content|..] == rest;
    }
  }

  method DerWrap(tag: Byte, contents: Bytes) returns (r: Result<Bytes>)
    ensures r == Wrap(tag, contents)
  {
    var lengthOctets := LengthOctets(|contents|);
    if lengthOctets.Err? {
      return Err;
    }
    var len := lengthOctets.value;
    var out := new Byte[1 + |len| + |contents|];
    out[0] := tag;
    assert out[..1] == [tag];
    Set(out, len, 1);
    assert out[..1 + |len|] == out[..1] + out[1..1 + |len|];
    Set(out, contents, 1 + |len|);
    assert out[..] == out[..1 + |len|] + out[1 + |len|..1 + |len| + |contents|];
    r := Ok(out[..]);
  }

  // Uint8Array.prototype.set.
  method Set(out: array<Byte>, source: Bytes, offset: nat)
    requires offset + |source| <= out.Length
    modifies out
    ensures out[offset..offset + |source|] == source
    ensures out[..offset] == old(out[..offset]) && out[offset + |source|..] == old(out[offset + |source|..])
  {
    for i := 0 to |source|
      invariant out[..offset] == old(out[..offset])
      invariant out[offset..offset + i] == source[..i]
      invariant out[offset + |source|..] == old(out[offset + |source|..])
    {
      out[offset + i] := source[i];
      assert out[offset..offset + i + 1] == out[offset..offset + i] + [source[i]];
    }
    assert source[..|source|] == source;
  }

  function Join(arrs: seq<Bytes>): Bytes {
    if arrs == [] then [] else Join(arrs[..|arrs| - 1]) + arrs[|arrs| - 1]
  }

  function Total(arrs: seq<Bytes>): nat {
    if arrs == [] then 0 else Total(arrs[..|arrs| - 1]) + |arrs[|arrs| - 1]|
  }

  lemma {:induction false} TotalPrefix(arrs: seq<Bytes>, i: nat)
    requires i <= |arrs|
    ensures |Join(arrs[..i])| == Total(arrs[..i]) <= Total(arrs)
    decreases |arrs| + i
  {
    if i < |arrs| {
      TotalPrefix(arrs[..|arrs| - 1], i);
      assert arrs[..|arrs| - 1][..i] == arrs[..i];
    } else if i > 0 {
      TotalPrefix(arrs, i - 1);
      assert arrs[..i][..i - 1] == arrs[..i - 1];
    }
  }

  method Concat(arrs: seq<Bytes>) returns (r: Bytes)
    ensures r == Join(arrs)
  {
    var n := 0;
    for i := 0 to |arrs|
      invariant n == Total(arrs[..i])
    {
      n := n + |arrs[i]|;
      assert arrs[..i + 1][..i] == arrs[..i];
    }
    assert arrs[..|arrs|] == arrs;
    var out := new Byte[n];
    var off := 0;
    for i := 0 to |arrs|
      invariant off == |Join(arrs[..i])| <= out.Length && out[..off] == Join(arrs[..i])
    {
      TotalPrefix(arrs, i + 1);
      assert arrs[..i + 1][..i] == arrs[..i];
      ghost var before := out[..off];
      Set(out, arrs[i], off);
      assert out[..off + |arrs[i]|] == before + arrs[i];
      off := off + |arrs[i]|;
    }
    TotalPrefix(arrs, |arrs|);
    assert out[..] == out[..off];
    r := out[..];
  }

  // ---------- INTEGER ----------

  function Pad(body: Bytes): Bytes {
    if body != [] && body[0] >= 0x80 then [0] + body else body
  }

  function IntegerContent(n: int): Bytes {
    if n == 0 then [0] else if n < 0 then [] else Pad(Magnitude(n))
  }

  function Stripped(bytes: Bytes): Bytes {
    if |bytes| > 1 && bytes[0] == 0 then Stripped(bytes[1..]) else bytes
  }

  function Power256(k: nat): nat {
    if k == 0 then 1 else 0x100 * Power256(k - 1)
  }

  // Two's complement; refuses the empty content and nine equal leading bits.
  function ReadInteger(c: Bytes): Option<int> {
    if c == [] then None
    else if |c| > 1 && ((c[0] == 0 && c[1] < 0x80) || (c[0] == 0xff && c[1] >= 0x80)) then None
    else Some(if c[0] < 0x80 then Number(c) else Number(c) - Power256(|c|))
  }

  lemma {:induction false} PadReads(body: Bytes)
    requires body != [] && (body[0] != 0 || |body| == 1)
    ensures ReadInteger(Pad(body)) == Some(Number(body))
  {
    if body[0] >= 0x80 {
      assert ([0] + body)[1..] == body;
      NumberZeroLead([0] + body);
    }
  }

  // The encoding of a number decodes to it exactly when the number is not negative; a negative one
  // yields the empty content, which is not an INTEGER.
  lemma {:induction false} IntegerRoundTrip(n: int)
    ensures ReadInteger(IntegerContent(n)) == Some(n) <==> n >= 0
    ensures n < 0 ==> ReadInteger(IntegerContent(n)) == None
  {
    if n > 0 {
      MagnitudeReads(n);
      PadReads(Magnitude(n));
    } else if n == 0 {
      NumberSnoc([], 0);
      assert [] + [0] == [0];
    }
  }

  lemma {:induction false} StrippedKeeps(bytes: Bytes)
    requires bytes != []
    ensures Number(Stripped(bytes)) == Number(bytes)
    ensures Stripped(bytes) != [] && (Stripped(bytes)[0] != 0 || |Stripped(bytes)| == 1)
    decreases |bytes|
  {
    if |bytes| > 1 && bytes[0] == 0 {
      NumberZeroLead(bytes);
      StrippedKeeps(bytes[1..]);
    }
  }

  // Any non-empty byte string, leading zeros and all, becomes a minimal non-negative INTEGER of
  // the same big-endian value.
  lemma {:induction false} IntegerBytesRoundTrip(bytes: Bytes)
    ensures ReadInteger(Pad(Stripped(bytes))) == if bytes == [] then None else Some(Number(bytes))
  {
    if bytes != [] {
      StrippedKeeps(bytes);
      PadReads(Stripped(bytes));
    }
  }

  method DerInteger(n: int) returns (r: Result<Bytes>)
    ensures r == Wrap(0x02, IntegerContent(n))
  {
    if n == 0 {
      r := DerWrap(0x02, [0]);
      return;
    }
    var bytes: Bytes := [];
    var v := n;
    while v > 0
      invariant n < 0 ==> v == n && bytes == []
      invariant n > 0 ==> v >= 0 && Magnitude(n) == Magnitude(v) + bytes
    {
      bytes := [v % 0x100] + bytes;
      v := v / 0x100;
    }
    assert n > 0 ==> Magnitude(n) == bytes;
    if bytes != [] && bytes[0] >= 0x80 {
      bytes := [0] + bytes;
    }
    r := DerWrap(0x02, bytes);
  }

  method DerIntegerBytes(bytes: Bytes) returns (r: Result<Bytes>)
    ensures r == Wrap(0x02, Pad(Stripped(bytes)))
  {
    var i := 0;
    assert bytes[0..] == bytes;
    while i < |bytes| - 1 && bytes[i] == 0
      invariant i <= |bytes| && (i > 0 ==> i < |bytes|)
      invariant Stripped(bytes[i..]) == Stripped(bytes)
    {
      assert bytes[i..][1..] == bytes[i + 1..];
      i := i + 1;
    }
    var body := bytes[i..];
    if body != [] && body[0] >= 0x80 {
      body := [0] + body;
    }
    r := DerWrap(0x02, body);
  }

  // ---------- OBJECT IDENTIFIER ----------

  // The bitwise operators work on the low 32 bits, read as a signed number.
  function ToInt32(v: int): int {
    var low := v % 0x1_0000_0000;
    if low < 0x8000_0000 then low else low - 0x1_0000_0000
  }

  // What an arc becomes on the wire.
  function Wire(v: int): nat {
    if ToInt32(v) >= 0 then ToInt32(v) else v % 0x80
  }

  // Base 128 with the continuation bit on every byte.
  function High(w: nat): Bytes {
    if w < 0x80 then [w + 0x80] else High(w / 0x80) + [w % 0x80 + 0x80]
  }

  function Groups(w: nat): Bytes {
    if w < 0x80 then [w] else High(w / 0x80) + [w % 0x80]
  }

  function Arcs(parts: seq<int>): Bytes {
    if parts == [] then [] else Groups(Wire(parts[0])) + Arcs(parts[1..])
  }

  function OidContent(parts: seq<int>): Bytes
    requires |parts| >= 2
  {
    [(parts[0] * 40 + parts[1]) % 0x100] + Arcs(parts[2..])
  }

  function ReadArc(s: Bytes, acc: nat): (r: Option<(nat, Bytes)>)
    ensures r.Some? ==> |r.value.1| < |s|
  {
    if s == [] then None
    else if s[0] < 0x80 then Some((acc * 0x80 + s[0], s[1..]))
    else ReadArc(s[1..], acc * 0x80 + s[0] - 0x80)
  }

  // Subidentifiers in shortest form, that is, none starts with 0x80.
  function ReadArcs(s: Bytes): Option<seq<nat>>
    decreases |s|
  {
    if s == [] then Some([])
    else if s[0] == 0x80 then None
    else
      var a :- ReadArc(s, 0);
      var rest :- ReadArcs(a.1);
      Some([a.0] + rest)
  }

  // The first subidentifier carries the first two arcs.
  function ReadOid(content: Bytes): Option<seq<int>> {
    var ids :- ReadArcs(content);
    if ids == [] then None
    else
      var first := if ids[0] < 40 then 0 else if ids[0] < 80 then 1 else 2;
      Some([first, ids[0] - 40 * first] + ids[1..])
  }

  lemma {:induction false} HighReads(w: nat, s: Bytes)
    ensures High(w) != [] && High(w)[0] >= 0x80 && (w > 0 ==> High(w)[0] != 0x80)
    ensures ReadArc(High(w) + s, 0) == ReadArc(s, w)
  {
    if w < 0x80 {
      assert ([w + 0x80] + s)[1..] == s;
    } else {
      var last := [w % 0x80 + 0x80];
      HighReads(w / 0x80, last + s);
      assert High(w) + s == High(w / 0x80) + (last + s);
      assert (last + s)[1..] == s;
    }
  }

  lemma {:induction false} GroupsRead(w: nat, s: Bytes)
    ensures Groups(w) != [] && Groups(w)[0] != 0x80
    ensures ReadArc(Groups(w) + s, 0) == Some((w, s))
  {
    if w < 0x80 {
      assert ([w] + s)[1..] == s;
    } else {
      var last := [w % 0x80];
      HighReads(w / 0x80, last + s);
      assert Groups(w) + s == High(w / 0x80) + (last + s);
      assert (last + s)[1..] == s;
    }
  }

  function WireAll(parts: seq<int>): (r: seq<nat>)
    ensures |r| == |parts| && forall i :: 0 <= i < |parts| ==> r[i] == Wire(parts[i])
  {
    seq(|parts|, i requires 0 <= i < |parts| => Wire(parts[i]))
  }

  lemma {:induction false} ArcsRead(parts: seq<int>)
    ensures ReadArcs(Arcs(parts)) == Some(WireAll(parts))
  {
    if parts == [] {
      assert WireAll(parts) == [];
    } else {
      GroupsRead(Wire(parts[0]), Arcs(parts[1..]));
      ArcsRead(parts[1..]);
      assert WireAll(parts) == [Wire(parts[0])] + WireAll(parts[1..]);
    }
  }

  // How many bytes end a subidentifier.
  function Ends(s: Bytes): nat {
    if s == [] then 0 else (if s[0] < 0x80 then 1 else 0) + Ends(s[1..])
  }

  lemma {:induction false} EndsConcat(s: Bytes, t: Bytes)
    ensures Ends(s + t) == Ends(s) + Ends(t)
  {
    if s == [] {
      assert s + t == t;
    } else {
      EndsConcat(s[1..], t);
      assert (s + t)[1..] == s[1..] + t;
    }
  }

  lemma {:induction false} HighEnds(w: nat)
    ensures Ends(High(w)) == 0
  {
    if w >= 0x80 {
      HighEnds(w / 0x80);
      EndsConcat(High(w / 0x80), [w % 0x80 + 0x80]);
    }
  }

  lemma {:induction false} ArcsEnds(parts: seq<int>)
    ensures Ends(Arcs(parts)) == |parts|
  {
    if parts != [] {
      var w := Wire(parts[0]);
      if w >= 0x80 {
        HighEnds(w / 0x80);
        EndsConcat(High(w / 0x80), [w % 0x80]);
      }
      EndsConcat(Groups(w), Arcs(parts[1..]));
      ArcsEnds(parts[1..]);
    }
  }

  lemma {:induction false} ReadArcEnds(s: Bytes, acc: nat)
    requires ReadArc(s, acc).Some?
    ensures Ends(s) == 1 + Ends(ReadArc(s, acc).value.1)
    decreases |s|
  {
    if s[0] >= 0x80 {
      ReadArcEnds(s[1..], acc * 0x80 + s[0] - 0x80);
    }
  }

  lemma {:induction false} ReadArcsEnds(s: Bytes)
    requires ReadArcs(s).Some?
    ensures |ReadArcs(s).value| == Ends(s)
    decreases |s|
  {
    if s != [] {
      ReadArcEnds(s, 0);
      ReadArcsEnds(ReadArc(s, 0).value.1);
    }
  }

  // First two arcs that X.690, section 8.19.4, allows and that fit one octet below 128.
  predicate HeadFits(a: int, b: int) {
    0 <= a <= 2 && 0 <= b && (a < 2 ==> b < 40) && a * 40 + b < 0x80
  }

  lemma {:induction false} WireIsSelf(v: int)
    ensures Wire(v) == v <==> 0 <= v < 0x8000_0000
  {
  }

  // With a first octet of 128 or more, the decoder sees one arc too few, or none at all.
  lemma {:induction false} WideHeadLosesArc(head: Byte, parts: seq<int>)
    requires head >= 0x80
    ensures ReadOid([head] + Arcs(parts)) == None || |ReadOid([head] + Arcs(parts)).value| == |parts| + 1
  {
    var content := [head] + Arcs(parts);
    if ReadArcs(content).Some? {
      ReadArcsEnds(content);
      EndsConcat([head], Arcs(parts));
      ArcsEnds(parts);
    }
  }

  lemma {:induction false} NarrowHeadReads(head: Byte, parts: seq<int>)
    requires head < 0x80
    ensures ReadArcs([head] + Arcs(parts)) == Some([head as nat] + WireAll(parts))
  {
    var content := [head] + Arcs(parts);
    assert content[1..] == Arcs(parts);
    ArcsRead(parts);
  }

  lemma {:induction false} HeadSplits(head: Byte, a: int, b: int)
    requires head < 0x80 && head == (a * 40 + b) % 0x100
    ensures var first := if head < 40 then 0 else if head < 80 then 1 else 2;
            (first == a && head - 40 * first == b) <==> HeadFits(a, b)
  {
  }

  lemma {:induction false} SamePrefix(got: seq<int>, parts: seq<int>)
    requires |got| == |parts| >= 2
    ensures got == parts <==> got[0] == parts[0] && got[1] == parts[1] && got[2..] == parts[2..]
  {
    assert got == [got[0], got[1]] + got[2..];
    assert parts == [parts[0], parts[1]] + parts[2..];
  }

  lemma {:induction false} WireAllIsSelf(parts: seq<int>)
    ensures WireAll(parts) == parts <==> forall i :: 0 <= i < |parts| ==> 0 <= parts[i] < 0x8000_0000
  {
    forall i | 0 <= i < |parts| ensures WireAll(parts)[i] == parts[i] <==> 0 <= parts[i] < 0x8000_0000 {
      WireIsSelf(parts[i]);
    }
  }

  // An object identifier decodes to itself exactly when its first two arcs fit one octet below
  // 128 and every later arc is below 2^31.
  lemma {:induction false} OidRoundTrip(parts: seq<int>)
    requires |parts| >= 2
    ensures ReadOid(OidContent(parts)) == Some(parts)
       <==> HeadFits(parts[0], parts[1]) && forall i :: 0 <= i < |parts| - 2 ==> 0 <= parts[2..][i] < 0x8000_0000
  {
    var head: Byte := (parts[0] * 40 + parts[1]) % 0x100;
    var arcs := parts[2..];
    if head >= 0x80 {
      WideHeadLosesArc(head, arcs);
      hide ReadOid, Arcs;
    } else {
      NarrowHeadReads(head, arcs);
      var first := if head < 40 then 0 else if head < 80 then 1 else 2;
      var got: seq<int> := [first, head - 40 * first] + WireAll(arcs);
      assert ReadOid(OidContent(parts)) == Some(got);
      hide ReadOid, OidContent, Wire;
      HeadSplits(head, parts[0], parts[1]);
      SamePrefix(got, parts);
      assert got[2..] == WireAll(arcs);
      WireAllIsSelf(arcs);
    }
  }

  // Two identifiers that do not survive: 2.999, the example arc of X.690, whose head octet wraps
  // around, and an arc of 2^31.
  lemma {:induction false} IdentifiersLost()
    ensures ReadOid(OidContent([2, 999])) != Some([2, 999])
    ensures ReadOid(OidContent([1, 2, 0x8000_0000])) != Some([1, 2, 0x8000_0000])
  {
    hide ReadOid, OidContent;
    OidRoundTrip([2, 999]);
    OidRoundTrip([1, 2, 0x8000_0000]);
    assert [1, 2, 0x8000_0000][2..][0] == 0x8000_0000;
  }

  // What popping writes for the groups pushed so far.
  function Popped(stack: Bytes): Bytes {
    if |stack| <= 1 then stack
    else [Marked(stack[|stack| - 1])] + Popped(stack[..|stack| - 1])
  }

  function Marked(b: Byte): Byte {
    if b < 0x80 then b + 0x80 else b
  }

  // The bytes that pushing the groups of `v` below `out` would put in front of it.
  function Front(v: nat): Bytes {
    if v == 0 then [] else High(v)
  }

  lemma {:induction false} PoppedPush(stack: Bytes, b: Byte)
    requires stack != []
    ensures Popped(stack + [b]) == [Marked(b)] + Popped(stack)
  {
    assert (stack + [b])[..|stack|] == stack;
  }

  lemma {:induction false} FrontStep(v: nat, tail: Bytes)
    requires v > 0
    ensures Front(v / 0x80) + ([Marked(v % 0x80)] + tail) == Front(v) + tail
  {
    assert v >= 0x80 ==> v / 0x80 > 0;
  }

  lemma {:induction false} LowBits(v: int)
    ensures v % 0x80 == ToInt32(v) % 0x80
  {
    var q := v / 0x1_0000_0000;
    assert v == (q * 0x200_0000) * 0x80 + v % 0x1_0000_0000;
  }

  lemma {:induction false} FirstGroup(arc: int)
    ensures var v := ToInt32(arc) / 0x80;
            Groups(Wire(arc)) == (if v > 0 then Front(v) else []) + [arc % 0x80]
  {
    LowBits(arc);
  }

  // What `v >> 7` leaves.
  lemma {:induction false} LowShift(v: int)
    ensures ToInt32(v) / 0x80 < 0x100_0000
    ensures 0 <= v < 0x8000_0000 ==> ToInt32(v) == v
  {
  }

  lemma {:induction false} PoppedOne(b: Byte)
    ensures Popped([b]) == [b]
  {
  }

  // Pushes the groups of an arc, least significant first.
  method PushGroups(arc: int) returns (stack: Bytes)
    ensures stack != [] && Popped(stack) == Groups(Wire(arc))
  {
    hide Groups, Wire, High, Popped, ToInt32;
    FirstGroup(arc);
    LowShift(arc);
    var v := arc;
    stack := [v % 0x80];
    PoppedOne(v % 0x80);
    v := ToInt32(v) / 0x80;
    while v > 0
      invariant stack != [] && v < 0x8000_0000
      invariant Groups(Wire(arc)) == (if v > 0 then Front(v) else []) + Popped(stack)
      decreases v
    {
      PoppedPush(stack, v % 0x80);
      FrontStep(v, Popped(stack));
      LowShift(v);
      stack := stack + [v % 0x80];
      v := ToInt32(v) / 0x80;
    }
  }

  method PopGroups(bytes: Bytes, groups: Bytes) returns (r: Bytes)
    requires groups != []
    ensures r == bytes + Popped(groups)
  {
    var stack := groups;
    r := bytes;
    while |stack| > 1
      invariant stack != [] && r + Popped(stack) == bytes + Popped(groups)
    {
      assert r + Popped(stack) == r + [Marked(stack[|stack| - 1])] + Popped(stack[..|stack| - 1]);
      r := r + [Marked(stack[|stack| - 1])];
      stack := stack[..|stack| - 1];
    }
    assert r + [stack[0]] == r + Popped(stack);
    r := r + [stack[0]];
  }

  method DerOid(parts: seq<int>) returns (r: Result<Bytes>)
    ensures r == if |parts| < 2 then Err else Wrap(0x06, OidContent(parts))
  {
    if |parts| < 2 {
      return Err;
    }
    var bytes: Bytes := [(parts[0] * 40 + parts[1]) % 0x100];
    for i := 2 to |parts|
      invariant bytes + Arcs(parts[i..]) == OidContent(parts)
    {
      var stack := PushGroups(parts[i]);
      assert parts[i..][1..] == parts[i + 1..];
      assert bytes + (Popped(stack) + Arcs(parts[i + 1..])) == bytes + Popped(stack) + Arcs(parts[i + 1..]);
      bytes := PopGroups(bytes, stack);
    }
    assert parts[|parts|..] == [] && bytes + [] == bytes;
    r := DerWrap(0x06, bytes);
  }

  // ---------- TimeStampReq ----------

  const SHA256_OID: seq<int> := [2, 16, 840, 1, 101, 3, 4, 2, 1]

  const NULL: Bytes := [0x05, 0x00]

  const CERT_REQ: Bytes := [0x01, 0x01, 0xff]

  datatype TimeStampReq = TimeStampReq(
    version: int, algorithm: seq<int>, imprint: Bytes, nonce: int, certReq: bool)

  method DerSequence(children: seq<Bytes>) returns (r: Result<Bytes>)
    ensures r == Wrap(0x30, Join(children))
  {
    var body := Concat(children);
    r := DerWrap(0x30, body);
  }

  // Content and rest of a value with the given tag.
  function Expect(tag: Byte, s: Bytes): Option<(Bytes, Bytes)> {
    var t :- ReadTlv(s);
    if t.0 == tag then Some((t.1, t.2)) else None
  }

  // A value with the given tag and nothing after it.
  function Only(tag: Byte, s: Bytes): Option<Bytes> {
    var t :- Expect(tag, s);
    if t.1 == [] then Some(t.0) else None
  }

  function ReadAlgorithm(s: Bytes): Option<seq<int>> {
    var oid :- Expect(0x06, s);
    var parameters :- Only(0x05, oid.1);
    if parameters == [] then ReadOid(oid.0) else None
  }

  function ReadTimeStampReq(s: Bytes): Option<TimeStampReq> {
    var body :- Only(0x30, s);
    var version :- Expect(0x02, body);
    var imprint :- Expect(0x30, version.1);
    var nonce :- Expect(0x02, imprint.1);
    var certReq :- Only(0x01, nonce.1);
    var algorithm :- Expect(0x30, imprint.0);
    var digest :- Only(0x04, algorithm.1);
    var v :- ReadInteger(version.0);
    var oid :- ReadAlgorithm(algorithm.0);
    var n :- ReadInteger(nonce.0);
    if |certReq| == 1 && certReq[0] in {0x00, 0xff} then Some(TimeStampReq(v, oid, digest, n, certReq[0] == 0xff))
    else None
  }

  // The bytes of a request for the given imprint and eight random nonce bytes.
  function RequestBytes(imprint: Bytes, random: Bytes): Result<Bytes> {
    if |imprint| != 32 then Err
    else
      var oid :- Wrap(0x06, OidContent(SHA256_OID));
      var algorithm :- Wrap(0x30, Join([oid, NULL]));
      var digest :- Wrap(0x04, imprint);
      var messageImprint :- Wrap(0x30, Join([algorithm, digest]));
      var nonce :- Wrap(0x02, Pad(Stripped(random)));
      var version :- Wrap(0x02, IntegerContent(1));
      Wrap(0x30, Join([version, messageImprint, nonce, CERT_REQ]))
  }

  method BuildTimeStampReq(imprint: Bytes, random: Bytes) returns (r: Result<Bytes>)
    ensures r == RequestBytes(imprint, random)
  {
    hide Wrap, OidContent, Join, Stripped, Pad, IntegerContent;
    if |imprint| != 32 {
      return Err;
    }
    var oid :- DerOid(SHA256_OID);
    var algorithm :- DerSequence([oid, NULL]);
    var digest :- DerWrap(0x04, imprint);
    var messageImprint :- DerSequence([algorithm, digest]);
    var nonce :- DerIntegerBytes(random);
    var version :- DerInteger(1);
    r := DerSequence([version, messageImprint, nonce, CERT_REQ]);
  }

  lemma {:induction false} SmallArcs(parts: seq<int>)
    requires forall i :: 0 <= i < |parts| ==> 0 <= parts[i] < 0x80
    ensures Arcs(parts) == parts
  {
    if parts != [] {
      SmallArcs(parts[1..]);
      assert parts == [parts[0]] + parts[1..];
    }
  }

  lemma {:induction false} Arc840()
    ensures Groups(Wire(840)) == [0x86, 0x48]
  {
    WireIsSelf(840);
    hide Wire;
    assert Groups(840) == High(6) + [0x48];
  }

  lemma {:induction false} ArcsFirst(parts: seq<int>)
    requires parts != []
    ensures Arcs(parts) == Groups(Wire(parts[0])) + Arcs(parts[1..])
  {
  }

  // The published encoding of the SHA-256 object identifier.
  lemma {:induction false} Sha256Oid()
    ensures OidContent(SHA256_OID) == [0x60, 0x86, 0x48, 0x01, 0x65, 0x03, 0x04, 0x02, 0x01]
  {
    hide Arcs, Groups, Wire;
    var arcs := SHA256_OID[2..];
    ArcsFirst(arcs);
    Arc840();
    assert arcs[1..] == [1, 101, 3, 4, 2, 1];
    SmallArcs(arcs[1..]);
  }

  lemma {:induction false} WrapReads(tag: Byte, content: Bytes, rest: Bytes)
    requires |content| < 0x1000000
    ensures Wrap(tag, content).Ok? && |Wrap(tag, content).value| <= |content| + 5
    ensures Expect(tag, Wrap(tag, content).value + rest) == Some((content, rest))
    ensures Only(tag, Wrap(tag, content).value) == Some(content)
  {
    TlvRoundTrip(tag, content, rest);
    TlvRoundTrip(tag, content, []);
    assert Wrap(tag, content).value + [] == Wrap(tag, content).value;
  }

  lemma {:induction false} StrippedShrinks(bytes: Bytes)
    ensures |Pad(Stripped(bytes))| <= |bytes| + 1
  {
    if |bytes| > 1 && bytes[0] == 0 {
      StrippedShrinks(bytes[1..]);
    }
  }

  lemma {:induction false} JoinTwo(a: Bytes, b: Bytes)
    ensures Join([a, b]) == a + b
  {
    assert [a, b][..1] == [a] && [a][..0] == [];
    assert Join([a]) == [] + a == a;
  }

  lemma {:induction false} JoinFour(a: Bytes, b: Bytes, c: Bytes, d: Bytes)
    ensures Join([a, b, c, d]) == a + (b + (c + d))
  {
    assert [a, b, c, d][..3] == [a, b, c] && [a, b, c][..2] == [a, b];
    JoinTwo(a, b);
  }

  lemma {:induction false} NullReads()
    ensures Only(0x05, NULL) == Some([])
  {
    assert NULL[1..][1..] == [];
  }

  lemma {:induction false} AlgorithmReads()
    ensures Wrap(0x06, OidContent(SHA256_OID)).Ok?
    ensures var s := Wrap(0x06, OidContent(SHA256_OID)).value + NULL;
            |s| <= 16 && ReadAlgorithm(s) == Some(SHA256_OID)
  {
    Sha256Oid();
    OidRoundTrip(SHA256_OID);
    var content := OidContent(SHA256_OID);
    hide OidContent, ReadOid, ReadTlv;
    WrapReads(0x06, content, NULL);
    NullReads();
    hide Wrap, Expect, Only;
  }

  // A request is refused exactly for an imprint that is not 32 bytes; otherwise the strict decoder
  // recovers version 1, the SHA-256 identifier, the imprint, the nonce and certReq, with nothing left.
  lemma {:induction false} TimeStampReqRoundTrip(imprint: Bytes, random: Bytes)
    requires |random| == 8
    ensures RequestBytes(imprint, random).Ok? <==> |imprint| == 32
    ensures var r := RequestBytes(imprint, random);
            r.Ok? ==> ReadTimeStampReq(r.value) == Some(TimeStampReq(1, SHA256_OID, imprint, Number(random), true))
  {
    if |imprint| == 32 {
      RequestReads(imprint, random);
    }
  }

  lemma {:induction false} RequestReads(imprint: Bytes, random: Bytes)
    requires |random| == 8 && |imprint| == 32
    ensures RequestBytes(imprint, random).Ok?
    ensures ReadTimeStampReq(RequestBytes(imprint, random).value)
         == Some(TimeStampReq(1, SHA256_OID, imprint, Number(random), true))
  {
    hide Wrap, OidContent, Join, Stripped, Pad, IntegerContent, ReadInteger, ReadAlgorithm, Expect, Only, Number;
    AlgorithmReads();
    var oid := Wrap(0x06, OidContent(SHA256_OID)).value;
    JoinTwo(oid, NULL);
    WrapReads(0x04, imprint, []);
    var digest := Wrap(0x04, imprint).value;
    WrapReads(0x30, oid + NULL, digest);
    var algorithm := Wrap(0x30, oid + NULL).value;
    JoinTwo(algorithm, digest);

    StrippedShrinks(random);
    IntegerBytesRoundTrip(random);
    WrapReads(0x02, Pad(Stripped(random)), CERT_REQ);
    var nonce := Wrap(0x02, Pad(Stripped(random))).value;
    WrapReads(0x30, algorithm + digest, nonce + CERT_REQ);
    var messageImprint := Wrap(0x30, algorithm + digest).value;
    IntegerRoundTrip(1);
    OneIsShort();
    WrapReads(0x02, IntegerContent(1), messageImprint + (nonce + CERT_REQ));
    var version := Wrap(0x02, IntegerContent(1)).value;
    JoinFour(version, messageImprint, nonce, CERT_REQ);
    WrapReads(0x30, version + (messageImprint + (nonce + CERT_REQ)), []);
    CertReqReads();
  }

  // Encodings next to each bound of the length forms, and the padding of an integer.
  lemma {:induction false} EncodingExamples()
    ensures LengthOctets(127) == Ok([0x7f]) && LengthOctets(128) == Ok([0x81, 0x80])
    ensures LengthOctets(256) == Ok([0x82, 0x01, 0x00]) && LengthOctets(65536) == Ok([0x83, 0x01, 0x00, 0x00])
    ensures IntegerContent(0) == [0x00] && IntegerContent(127) == [0x7f] && IntegerContent(128) == [0x00, 0x80]
    ensures IntegerContent(256) == [0x01, 0x00]
  {
    assert Magnitude(1) == Magnitude(0) + [1] == [1];
    assert Magnitude(127) == Magnitude(0) + [127] && Magnitude(128) == Magnitude(0) + [128];
    assert Magnitude(256) == Magnitude(1) + [0];
  }

  // Every byte of a request whose nonce needs neither stripping nor padding.
  lemma {:induction false} RequestLayout(imprint: Bytes, random: Bytes)
    requires |imprint| == 32 && |random| == 8 && 0 < random[0] < 0x80
    ensures RequestBytes(imprint, random) == Ok(
      [0x30, 0x43, 0x02, 0x01, 0x01, 0x30, 0x31, 0x30, 0x0d]
      + [0x06, 0x09, 0x60, 0x86, 0x48, 0x01, 0x65, 0x03, 0x04, 0x02, 0x01, 0x05, 0x00]
      + ([0x04, 0x20] + imprint) + ([0x02, 0x08] + random) + [0x01, 0x01, 0xff])
  {
    hide *;
    var algorithm: Bytes := [0x06, 0x09, 0x60, 0x86, 0x48, 0x01, 0x65, 0x03, 0x04, 0x02, 0x01, 0x05, 0x00];
    RequestParts(imprint, random, algorithm);
    Regrouped([0x30, 0x43], [0x02, 0x01, 0x01], [0x30, 0x31], [0x30, 0x0d], algorithm, [0x04, 0x20] + imprint,
              [0x02, 0x08] + random, [0x01, 0x01, 0xff]);
    assert [0x30, 0x43] + [0x02, 0x01, 0x01] + [0x30, 0x31] + [0x30, 0x0d]
        == [0x30, 0x43, 0x02, 0x01, 0x01, 0x30, 0x31, 0x30, 0x0d];
  }

  lemma {:induction false} RequestParts(imprint: Bytes, random: Bytes, algorithm: Bytes)
    requires |imprint| == 32 && |random| == 8 && 0 < random[0] < 0x80
    requires algorithm == [0x06, 0x09, 0x60, 0x86, 0x48, 0x01, 0x65, 0x03, 0x04, 0x02, 0x01, 0x05, 0x00]
    ensures RequestBytes(imprint, random) == Ok(
      [0x30, 0x43] + ([0x02, 0x01, 0x01] + (([0x30, 0x31] + (([0x30, 0x0d] + algorithm) + ([0x04, 0x20] + imprint)))
                      + (([0x02, 0x08] + random) + [0x01, 0x01, 0xff]))))
  {
    hide OidContent, Join, IntegerContent, Wrap;
    Sha256Oid();
    OneIsOne();
    var oid: Bytes := [0x06, 0x09] + OidContent(SHA256_OID);
    assert oid + NULL == algorithm;
    ShortWrap(0x06, OidContent(SHA256_OID));
    JoinTwo(oid, NULL);
    ShortWrap(0x30, algorithm);
    ShortWrap(0x04, imprint);
    var digest: Bytes := [0x04, 0x20] + imprint;
    JoinTwo([0x30, 0x0d] + algorithm, digest);
    ShortWrap(0x30, ([0x30, 0x0d] + algorithm) + digest);
    var messageImprint: Bytes := [0x30, 0x31] + (([0x30, 0x0d] + algorithm) + digest);
    var nonce: Bytes := [0x02, 0x08] + random;
    ShortWrap(0x02, random);
    ShortWrap(0x02, [0x01]);
    var version: Bytes := [0x02, 0x01, 0x01];
    assert [0x02, 0x01] + [0x01] == version;
    JoinFour(version, messageImprint, nonce, CERT_REQ);
    ShortWrap(0x30, version + (messageImprint + (nonce + CERT_REQ)));
  }

  lemma {:induction false} Regrouped(a: Bytes, b: Bytes, c: Bytes, d: Bytes, e: Bytes, f: Bytes, g: Bytes, h: Bytes)
    ensures a + (b + ((c + ((d + e) + f)) + (g + h))) == a + b + c + d + e + f + g + h
  {
  }

  lemma {:induction false} ShortWrap(tag: Byte, content: Bytes)
    requires |content| < 0x80
    ensures Wrap(tag, content) == Ok([tag, |content|] + content)
  {
    assert [tag] + [|content|] + content == [tag, |content|] + content;
  }

  lemma {:induction false} OneIsOne()
    ensures IntegerContent(1) == [0x01]
  {
    assert Magnitude(1) == Magnitude(0) + [1];
  }

  lemma {:induction false} OneIsShort()
    ensures |IntegerContent(1)| == 1
  {
    assert Magnitude(1) == Magnitude(0) + [1];
  }

  lemma {:induction false} CertReqReads()
    ensures Only(0x01, CERT_REQ) == Some([0xff])
  {
    assert CERT_REQ[1..][1..] == [0xff] && [0xff as Byte][..1] == [0xff];
  }
}
