// Strings as Unicode scalar values, their UTF-8 bytes and UTF-16 code units, and the key order
// of RFC 8785, section 3.2.3 (compareUTF16 and utf16Encode of go-sdk/canonicalize.go,
// compare_utf16 of rust-sdk/src/canonicalize.rs).
module Unicode {
  import opened Wrappers
  import opened Sorting

  type Unit = u: int | 0 <= u < 0x10000

  // ---------- UTF-16 ----------

  function Units(c: char): seq<Unit> {
    var r := c as int;
    if r <= 0xFFFF then [r]
    else [0xD800 + (r - 0x10000) / 0x400, 0xDC00 + (r - 0x10000) % 0x400]
  }

  function Utf16(s: string): seq<Unit> {
    if s == "" then [] else Units(s[0]) + Utf16(s[1..])
  }

  lemma {:induction false} Utf16Append(a: string, b: string)
    ensures Utf16(a + b) == Utf16(a) + Utf16(b)
  {
    if a == "" {
      assert a + b == b;
    } else {
      assert (a + b)[1..] == a[1..] + b;
      Utf16Append(a[1..], b);
    }
  }

  method Utf16Encode(s: string) returns (out: seq<Unit>)
    ensures out == Utf16(s)
  {
    out := [];
    for i := 0 to |s|
      invariant out == Utf16(s[..i])
    {
      assert s[..i + 1] == s[..i] + [s[i]];
      Utf16Append(s[..i], [s[i]]);
      assert Utf16([s[i]]) == Units(s[i]);
      var r := s[i] as int;
      if r <= 0xFFFF {
        out := out + [r];
      } else {
        out := out + [0xD800 + (r - 0x10000) / 0x400, 0xDC00 + (r - 0x10000) % 0x400];
      }
    }
    assert s[..|s|] == s;
  }

  // The two halves of a surrogate pair are not units of any other character, so a unit sequence
  // determines its characters.
  lemma {:induction false} UnitsHead(a: char, b: char, x: seq<Unit>, y: seq<Unit>)
    requires Units(a) + x == Units(b) + y
    ensures a == b && x == y
  {
    var p, q := Units(a) + x, Units(b) + y;
    assert p[0] == q[0];
    assert a == b by {
      assert p[0] == Units(a)[0] && q[0] == Units(b)[0];
      if a as int > 0xFFFF && b as int > 0xFFFF {
        assert p[1] == Units(a)[1] && q[1] == Units(b)[1];
      }
    }
    assert p[|Units(a)|..] == x && q[|Units(b)|..] == y;
  }

  lemma {:induction false} Utf16Injective(a: string, b: string)
    requires Utf16(a) == Utf16(b)
    ensures a == b
  {
    if a == "" || b == "" {
      assert |Utf16(a)| == 0;
      assert a == "" && b == "";
    } else {
      UnitsHead(a[0], b[0], Utf16(a[1..]), Utf16(b[1..]));
      Utf16Injective(a[1..], b[1..]);
      assert a == [a[0]] + a[1..] && b == [b[0]] + b[1..];
    }
  }

  // Below 0x10000 a character is its own unit; above, a high and a low surrogate give it back.
  lemma {:induction false} Utf16Decodes(c: char)
    ensures c as int <= 0xFFFF ==> Utf16([c]) == [c as int]
    ensures c as int > 0xFFFF ==> |Utf16([c])| == 2
    ensures c as int > 0xFFFF ==>
              var hi, lo := Utf16([c])[0], Utf16([c])[1];
              && 0xD800 <= hi < 0xDC00 <= lo < 0xE000
              && 0x10000 + (hi - 0xD800) * 0x400 + (lo - 0xDC00) == c as int
  {
    assert Utf16([c]) == Units(c) + [] == Units(c);
  }

  // ---------- the key order ----------

  function CompareUnits(a: seq<Unit>, b: seq<Unit>): (r: int)
    ensures r == 0 <==> a == b
  {
    if a == [] && b == [] then 0
    else if a == [] then -1
    else if b == [] then 1
    else if a[0] != b[0] then (if a[0] < b[0] then -1 else 1)
    else
      assert a == [a[0]] + a[1..] && b == [b[0]] + b[1..];
      CompareUnits(a[1..], b[1..])
  }

  function CompareKeys(a: string, b: string): int {
    CompareUnits(Utf16(a), Utf16(b))
  }

  predicate KeyLe(a: string, b: string) {
    CompareKeys(a, b) <= 0
  }

  // The first differing unit decides, and a proper prefix comes first.
  method CompareUTF16(a: string, b: string) returns (r: int)
    ensures r == CompareKeys(a, b)
    ensures var u, w := Utf16(a), Utf16(b);
      r < 0 <==>
        (|u| < |w| && forall j :: 0 <= j < |u| ==> u[j] == w[j])
        || exists k :: 0 <= k < |u| && k < |w| && u[k] < w[k] && forall j :: 0 <= j < k ==> u[j] == w[j]
    ensures var u, w := Utf16(a), Utf16(b);
      r > 0 <==>
        (|w| < |u| && forall j :: 0 <= j < |w| ==> u[j] == w[j])
        || exists k :: 0 <= k < |u| && k < |w| && w[k] < u[k] && forall j :: 0 <= j < k ==> u[j] == w[j]
    ensures r == 0 <==> a == b
  {
    hide Utf16, UnitsBelow;
    var au := Utf16Encode(a);
    var bu := Utf16Encode(b);
    KeySign(a, b);
    var i := 0;
    while i < |au| && i < |bu|
      invariant 0 <= i <= |au| && i <= |bu|
      invariant CompareUnits(au[i..], bu[i..]) == CompareUnits(au, bu)
    {
      if au[i] != bu[i] {
        return if au[i] < bu[i] then -1 else 1;
      }
      assert au[i..][1..] == au[i + 1..] && bu[i..][1..] == bu[i + 1..];
      i := i + 1;
    }
    if |au| == |bu| {
      return 0;
    }
    return if |au| < |bu| then -1 else 1;
  }

  // a comes before b: it is a proper prefix, or smaller at the first difference.
  ghost predicate UnitsBelow(a: seq<Unit>, b: seq<Unit>) {
    || (|a| < |b| && forall j :: 0 <= j < |a| ==> a[j] == b[j])
    || exists k :: 0 <= k < |a| && k < |b| && a[k] < b[k] && forall j :: 0 <= j < k ==> a[j] == b[j]
  }

  lemma {:induction false} UnitsDecide(a: seq<Unit>, b: seq<Unit>)
    ensures CompareUnits(a, b) < 0 <==> UnitsBelow(a, b)
  {
    if a != [] && b != [] && a[0] == b[0] {
      UnitsDecide(a[1..], b[1..]);
      BelowTails(a, b);
    } else if a != [] && b != [] && a[0] < b[0] {
      assert UnitsBelow(a, b);
    }
  }

  lemma {:induction false} BelowTails(a: seq<Unit>, b: seq<Unit>)
    requires a != [] && b != [] && a[0] == b[0]
    ensures UnitsBelow(a, b) <==> UnitsBelow(a[1..], b[1..])
  {
    var x, y := a[1..], b[1..];
    if UnitsBelow(x, y) {
      if k :| 0 <= k < |x| && k < |y| && x[k] < y[k] && forall j :: 0 <= j < k ==> x[j] == y[j] {
        var m := k + 1;
        assert a[m] < b[m];
        forall j | 0 <= j < m ensures a[j] == b[j] {
          assert j > 0 ==> x[j - 1] == y[j - 1];
        }
      } else {
        forall j | 0 <= j < |a| ensures a[j] == b[j] {
          assert j > 0 ==> x[j - 1] == y[j - 1];
        }
      }
    }
    if UnitsBelow(a, b) {
      if k :| 0 <= k < |a| && k < |b| && a[k] < b[k] && forall j :: 0 <= j < k ==> a[j] == b[j] {
        var m := k - 1;
        assert x[m] < y[m];
        forall j | 0 <= j < m ensures x[j] == y[j] {
          assert x[j] == a[j + 1] && y[j] == b[j + 1];
        }
      } else {
        forall j | 0 <= j < |x| ensures x[j] == y[j] {
          assert x[j] == a[j + 1] && y[j] == b[j + 1];
        }
      }
    }
  }

  // The sign of a comparison, on the code units themselves.
  lemma {:induction false} KeySign(a: string, b: string)
    ensures var u, w := Utf16(a), Utf16(b);
      CompareKeys(a, b) < 0 <==>
        (|u| < |w| && forall j :: 0 <= j < |u| ==> u[j] == w[j])
        || exists k :: 0 <= k < |u| && k < |w| && u[k] < w[k] && forall j :: 0 <= j < k ==> u[j] == w[j]
    ensures var u, w := Utf16(a), Utf16(b);
      CompareKeys(a, b) > 0 <==>
        (|w| < |u| && forall j :: 0 <= j < |w| ==> u[j] == w[j])
        || exists k :: 0 <= k < |u| && k < |w| && w[k] < u[k] && forall j :: 0 <= j < k ==> u[j] == w[j]
    ensures CompareKeys(a, b) == 0 <==> a == b
  {
    var u, w := Utf16(a), Utf16(b);
    UnitsDecide(u, w);
    UnitsDecide(w, u);
    CompareUnitsFlip(u, w);
    if u == w {
      Utf16Injective(a, b);
    }
    hide CompareUnits, Utf16;
  }

  // The key order on the code units themselves.
  lemma {:induction false} KeyOrderMeans(a: string, b: string)
    ensures KeyLe(a, b) <==> a == b || UnitsBelow(Utf16(a), Utf16(b))
  {
    UnitsDecide(Utf16(a), Utf16(b));
    if Utf16(a) == Utf16(b) {
      Utf16Injective(a, b);
    }
  }

  lemma {:induction false} CompareUnitsFlip(a: seq<Unit>, b: seq<Unit>)
    ensures CompareUnits(a, b) == -CompareUnits(b, a)
    decreases |a|
  {
    if a != [] && b != [] && a[0] == b[0] {
      CompareUnitsFlip(a[1..], b[1..]);
    }
  }

  lemma {:induction false} CompareUnitsTransitive(a: seq<Unit>, b: seq<Unit>, c: seq<Unit>)
    requires CompareUnits(a, b) <= 0 && CompareUnits(b, c) <= 0
    ensures CompareUnits(a, c) <= 0
    decreases |a|
  {
    if a != [] && b != [] && c != [] && a[0] == b[0] == c[0] {
      CompareUnitsTransitive(a[1..], b[1..], c[1..]);
    }
  }

  // compareUTF16 is a total order on strings: only equal strings compare as equal.
  lemma {:induction false} KeyOrderTotal()
    ensures TotalPreorder((a: string, b: string) => KeyLe(a, b))
    ensures forall a, b :: KeyLe(a, b) && KeyLe(b, a) ==> a == b
  {
    forall a, b ensures KeyLe(a, b) || KeyLe(b, a) {
      CompareUnitsFlip(Utf16(a), Utf16(b));
    }
    forall a, b, c | KeyLe(a, b) && KeyLe(b, c) ensures KeyLe(a, c) {
      CompareUnitsTransitive(Utf16(a), Utf16(b), Utf16(c));
    }
    forall a, b | KeyLe(a, b) && KeyLe(b, a) ensures a == b {
      CompareUnitsFlip(Utf16(a), Utf16(b));
      Utf16Injective(a, b);
    }
  }

  // ---------- UTF-8 ----------

  function Bytes(c: char): seq<Byte> {
    var r := c as int;
    if r < 0x80 then [r]
    else if r < 0x800 then [0xC0 + r / 0x40, 0x80 + r % 0x40]
    else if r < 0x10000 then [0xE0 + r / 0x1000, 0x80 + r / 0x40 % 0x40, 0x80 + r % 0x40]
    else [0xF0 + r / 0x40000, 0x80 + r / 0x1000 % 0x40, 0x80 + r / 0x40 % 0x40, 0x80 + r % 0x40]
  }

  function Utf8(s: string): seq<Byte> {
    if s == "" then [] else Bytes(s[0]) + Utf8(s[1..])
  }

  lemma {:induction false} Utf8Append(a: string, b: string)
    ensures Utf8(a + b) == Utf8(a) + Utf8(b)
  {
    if a == "" {
      assert a + b == b;
    } else {
      assert (a + b)[1..] == a[1..] + b;
      Utf8Append(a[1..], b);
    }
  }

  // The character whose bytes a byte sequence starts with.
  function FirstScalar(b: seq<Byte>): int
    requires b != [] && (b[0] >= 0x80 ==> |b| >= 2) && (b[0] >= 0xE0 ==> |b| >= 3) && (b[0] >= 0xF0 ==> |b| >= 4)
  {
    var lead: int := b[0];
    if lead < 0x80 then lead
    else if lead < 0xE0 then (lead - 0xC0) * 0x40 + Tail(b[1])
    else if lead < 0xF0 then ((lead - 0xE0) * 0x40 + Tail(b[1])) * 0x40 + Tail(b[2])
    else (((lead - 0xF0) * 0x40 + Tail(b[1])) * 0x40 + Tail(b[2])) * 0x40 + Tail(b[3])
  }

  function Tail(b: Byte): int {
    b as int - 0x80
  }

  lemma {:induction false} SixBits(r: nat)
    ensures r / 0x40 * 0x40 + r % 0x40 == r
    ensures r / 0x40 / 0x40 == r / 0x1000 && r / 0x1000 / 0x40 == r / 0x40000
  {
  }

  lemma {:induction false} FirstScalarOf(c: char, x: seq<Byte>)
    ensures var b := Bytes(c) + x;
      && (b[0] >= 0x80 ==> |b| >= 2) && (b[0] >= 0xE0 ==> |b| >= 3) && (b[0] >= 0xF0 ==> |b| >= 4)
      && FirstScalar(b) == c as int
  {
    var p, b, r := Bytes(c), Bytes(c) + x, c as int;
    SixBits(r);
    SixBits(r / 0x40);
    SixBits(r / 0x1000);
    assert b[0] == p[0];
    if r < 0x80 {
    } else if r < 0x800 {
      assert b[1] == p[1];
    } else if r < 0x10000 {
      assert b[1] == p[1] && b[2] == p[2];
    } else {
      assert b[1] == p[1] && b[2] == p[2] && b[3] == p[3];
    }
  }

  // A character takes as few bytes as its value allows; the lead byte tells how many, the others are
  // continuation bytes, and the payload bits put together give the character back.
  lemma {:induction false} Utf8Shortest(c: char)
    ensures var b: seq<int>, r: int := Utf8([c]), c as int;
      && (r < 0x80 ==> b == [r])
      && (0x80 <= r < 0x800 ==> |b| == 2 && 0xC0 <= b[0] < 0xE0 && r == (b[0] - 0xC0) * 0x40 + (b[1] - 0x80))
      && (0x800 <= r < 0x10000 ==>
            |b| == 3 && 0xE0 <= b[0] < 0xF0 && r == ((b[0] - 0xE0) * 0x40 + (b[1] - 0x80)) * 0x40 + (b[2] - 0x80))
      && (0x10000 <= r ==>
            |b| == 4 && 0xF0 <= b[0] < 0xF8
            && r == (((b[0] - 0xF0) * 0x40 + (b[1] - 0x80)) * 0x40 + (b[2] - 0x80)) * 0x40 + (b[3] - 0x80))
      && (forall i :: 1 <= i < |b| ==> 0x80 <= b[i] < 0xC0)
  {
    assert Utf8([c]) == Bytes(c) + [] == Bytes(c);
    FirstScalarOf(c, []);
  }

  lemma {:induction false} Utf8Injective(a: string, b: string)
    requires Utf8(a) == Utf8(b)
    ensures a == b
  {
    if a == "" || b == "" {
      assert |Utf8(a)| == 0;
      assert a == "" && b == "";
    } else {
      var x, y := Utf8(a[1..]), Utf8(b[1..]);
      FirstScalarOf(a[0], x);
      FirstScalarOf(b[0], y);
      assert a[0] == b[0];
      assert (Bytes(a[0]) + x)[|Bytes(a[0])|..] == x && (Bytes(b[0]) + y)[|Bytes(b[0])|..] == y;
      Utf8Injective(a[1..], b[1..]);
      assert a == [a[0]] + a[1..] && b == [b[0]] + b[1..];
    }
  }
}
