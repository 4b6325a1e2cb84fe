/**
 setSurroundingText: the text goes out as UTF-8 (section 3 of RFC 3629) in a C string, and indices into
 the UTF-16 text become byte offsets. What Qt writes for half a surrogate pair is a parameter.
 */
module SurroundingText {
  import opened Collections

  type Unit = u: int | 0 <= u < 0x1_0000
  type Byte = b: int | 0 <= b < 256

  predicate IsHigh(u: Unit) {
    0xD800 <= u < 0xDC00
  }

  predicate IsLow(u: Unit) {
    0xDC00 <= u < 0xE000
  }

  predicate StartsPair(s: seq<Unit>) {
    |s| >= 2 && IsHigh(s[0]) && IsLow(s[1])
  }

  // The code point of a surrogate pair
  function Joined(high: Unit, low: Unit): (cp: int)
    requires IsHigh(high) && IsLow(low)
    ensures 0x1_0000 <= cp <= 0x10_FFFF
  {
    0x1_0000 + (high - 0xD800) * 0x400 + (low - 0xDC00)
  }

  predicate Scalar(cp: int) {
    0 <= cp < 0xD800 || 0xE000 <= cp <= 0x10_FFFF
  }

  // The encoding of one code point
  function Octets(cp: int): (r: seq<Byte>)
    requires 0 <= cp <= 0x10_FFFF
    ensures 1 <= |r| <= 4
  {
    if cp < 0x80 then [cp]
    else if cp < 0x800 then [0xC0 + cp / 64, 0x80 + cp % 64]
    else if cp < 0x1_0000 then [0xE0 + cp / 4096, 0x80 + cp / 64 % 64, 0x80 + cp % 64]
    else [0xF0 + cp / 262144, 0x80 + cp / 4096 % 64, 0x80 + cp / 64 % 64, 0x80 + cp % 64]
  }

  // QString::toUtf8; `lone` stands for a surrogate without its partner.
  function Encode(s: seq<Unit>, lone: seq<Byte>): seq<Byte> {
    if s == [] then []
    else if StartsPair(s) then Octets(Joined(s[0], s[1])) + Encode(s[2..], lone)
    else if IsHigh(s[0]) || IsLow(s[0]) then lone + Encode(s[1..], lone)
    else Octets(s[0]) + Encode(s[1..], lone)
  }

  // QStringView::left
  function Clip(s: seq<Unit>, n: nat): (k: nat)
    ensures k <= |s|
  {
    if n <= |s| then n else |s|
  }

  function OffsetOf(s: seq<Unit>, n: nat, lone: seq<Byte>): nat {
    |Encode(s[..Clip(s, n)], lone)|
  }

  // constData(): the receiver reads up to the first zero.
  function CString(bytes: seq<Byte>): seq<Byte> {
    if bytes == [] || bytes[0] == 0 then [] else [bytes[0]] + CString(bytes[1..])
  }

  datatype Request = Request(text: seq<Byte>, cursor: nat, anchor: nat)

  // setSurroundingText of both protocol versions
  function SetSurroundingText(text: seq<Unit>, cursor: nat, anchor: nat, lone: seq<Byte>): Request {
    Request(CString(Encode(text, lone)), OffsetOf(text, cursor, lone), OffsetOf(text, anchor, lone))
  }

  // ---------- slicing ----------

  // Index i lies between the halves of a pair.
  predicate Splits(s: seq<Unit>, i: nat) {
    0 < i < |s| && IsHigh(s[i - 1]) && IsLow(s[i])
  }

  // The bytes of the first code unit, or of the first two if they are a pair
  function Head(s: seq<Unit>, lone: seq<Byte>): seq<Byte>
    requires s != []
  {
    if StartsPair(s) then Octets(Joined(s[0], s[1]))
    else if IsHigh(s[0]) || IsLow(s[0]) then lone
    else Octets(s[0])
  }

  function HeadLength(s: seq<Unit>): nat {
    if StartsPair(s) then 2 else 1
  }

  lemma EncodeHead(s: seq<Unit>, lone: seq<Byte>)
    requires s != []
    ensures HeadLength(s) <= |s| && Encode(s, lone) == Head(s, lone) + Encode(s[HeadLength(s)..], lone)
  {
    hide Octets, Joined;
  }

  lemma SameHead(s: seq<Unit>, i: nat, lone: seq<Byte>)
    requires s != [] && HeadLength(s) <= i <= |s| && !Splits(s, i)
    ensures s[..i] != [] && HeadLength(s[..i]) == HeadLength(s) && Head(s[..i], lone) == Head(s, lone)
  {
    hide Octets, Joined;
  }

  // Both parts of a text, seen behind its head
  lemma BehindHead(s: seq<Unit>, i: nat, n: nat)
    requires n <= i <= |s|
    ensures s[..i][n..] == s[n..][..i - n] && s[n..][i - n..] == s[i..]
    ensures 0 < n && !Splits(s, i) ==> !Splits(s[n..], i - n)
  {
  }

  lemma Regroup(a: seq<Byte>, b: seq<Byte>, c: seq<Byte>)
    ensures a + (b + c) == a + b + c
  {
  }

  lemma {:induction false} EncodeSplit(s: seq<Unit>, i: nat, lone: seq<Byte>)
    requires i <= |s| && !Splits(s, i)
    ensures Encode(s, lone) == Encode(s[..i], lone) + Encode(s[i..], lone)
  {
    if i == 0 {
      assert s[..0] == [] && s[0..] == s;
    } else {
      var n := HeadLength(s);
      assert i >= n;
      SameHead(s, i, lone);
      hide *;
      BehindHead(s, i, n);
      EncodeHead(s, lone);
      EncodeHead(s[..i], lone);
      EncodeSplit(s[n..], i - n, lone);
      Regroup(Head(s, lone), Encode(s[n..][..i - n], lone), Encode(s[i..], lone));
    }
  }

  // Cutting the encoded text at the offsets of two indices gives the encoding of the text between them.
  lemma {:induction false} SliceIsEncodingOfSlice(s: seq<Unit>, i: nat, j: nat, lone: seq<Byte>)
    requires i <= j <= |s| && !Splits(s, i) && !Splits(s, j)
    ensures OffsetOf(s, i, lone) <= OffsetOf(s, j, lone) <= |Encode(s, lone)|
    ensures Encode(s, lone)[OffsetOf(s, i, lone)..OffsetOf(s, j, lone)] == Encode(s[i..j], lone)
  {
    EncodeSplit(s, j, lone);
    assert s[..j][..i] == s[..i] && s[..j][i..] == s[i..j];
    EncodeSplit(s[..j], i, lone);
  }

  lemma Trailing(s: seq<Unit>, i: nat, lone: seq<Byte>)
    requires Splits(s, i)
    ensures Encode(s[..i], lone) == Encode(s[..i - 1], lone) + lone
    ensures Encode(s[..i + 1], lone) == Encode(s[..i - 1], lone) + Octets(Joined(s[i - 1], s[i]))
    ensures !Splits(s, i - 1) && !Splits(s, i + 1)
  {
    hide Octets, Joined;
    assert s[..i][..i - 1] == s[..i - 1] && s[..i][i - 1..] == [s[i - 1]];
    EncodeSplit(s[..i], i - 1, lone);
    assert Encode([s[i - 1]], lone) == lone + [];
    assert s[..i + 1][..i - 1] == s[..i - 1] && s[..i + 1][i - 1..] == [s[i - 1], s[i]];
    EncodeSplit(s[..i + 1], i - 1, lone);
    assert Encode([s[i - 1], s[i]], lone) == Octets(Joined(s[i - 1], s[i])) + [];
  }

  // What replaces half a pair: at most as long as a pair and not mistaken for the start of one.
  predicate Replacement(lone: seq<Byte>) {
    1 <= |lone| <= 4 && lone[0] < 0xF0 && 0 !in lone
  }

  // The bytes before the offset are the encoding of the text before the index exactly if the index does
  // not split a pair.
  lemma {:induction false} PrefixExact(s: seq<Unit>, i: nat, lone: seq<Byte>)
    requires i <= |s| && Replacement(lone)
    ensures Encode(s[..i], lone) <= Encode(s, lone) <==> !Splits(s, i)
  {
    if Splits(s, i) {
      Trailing(s, i, lone);
      EncodeSplit(s, i + 1, lone);
      var k := |Encode(s[..i - 1], lone)|;
      assert Encode(s[..i], lone)[k] == lone[0];
      assert Encode(s[..i + 1], lone)[k] == Octets(Joined(s[i - 1], s[i]))[0] >= 0xF0;
      assert Encode(s, lone)[k] == Encode(s[..i + 1], lone)[k];
    } else {
      EncodeSplit(s, i, lone);
    }
  }

  // Offsets grow with indices, even through the middle of a pair, and never pass the end.
  lemma {:induction false} OffsetsAreMonotone(s: seq<Unit>, i: nat, j: nat, lone: seq<Byte>)
    requires Replacement(lone) && i <= j
    ensures OffsetOf(s, i, lone) <= OffsetOf(s, j, lone) <= |Encode(s, lone)|
  {
    hide Encode;
    var a, b := Clip(s, i), Clip(s, j);
    Surrounded(s, a, lone);
    Surrounded(s, b, lone);
    if a < b {
      var a', b' := if Splits(s, a) then a + 1 else a, if Splits(s, b) then b - 1 else b;
      if a' <= b' {
        SliceIsEncodingOfSlice(s, a', b', lone);
      }
    }
  }

  lemma Surrounded(s: seq<Unit>, i: nat, lone: seq<Byte>)
    requires Replacement(lone) && i <= |s|
    ensures Splits(s, i) ==>
      |Encode(s[..i - 1], lone)| <= |Encode(s[..i], lone)| <= |Encode(s[..i + 1], lone)| <= |Encode(s, lone)|
      && !Splits(s, i - 1) && !Splits(s, i + 1)
    ensures |Encode(s[..i], lone)| <= |Encode(s, lone)|
  {
    hide Encode;
    if Splits(s, i) {
      Trailing(s, i, lone);
      EncodeSplit(s, i + 1, lone);
    } else {
      EncodeSplit(s, i, lone);
    }
  }

  // ---------- the C string ----------

  lemma {:induction false} CStringIsPrefix(bytes: seq<Byte>)
    ensures CString(bytes) <= bytes && 0 !in CString(bytes)
    ensures CString(bytes) == bytes <==> 0 !in bytes
    ensures |CString(bytes)| < |bytes| ==> bytes[|CString(bytes)|] == 0
  {
    if bytes != [] && bytes[0] != 0 {
      CStringIsPrefix(bytes[1..]);
    }
  }

  lemma {:induction false} ZerosOnlyFromNull(s: seq<Unit>, lone: seq<Byte>)
    requires Replacement(lone)
    ensures 0 in Encode(s, lone) <==> 0 in s
  {
    if s != [] {
      if StartsPair(s) {
        ZerosOnlyFromNull(s[2..], lone);
        assert s == [s[0], s[1]] + s[2..];
      } else {
        ZerosOnlyFromNull(s[1..], lone);
        assert s == [s[0]] + s[1..];
        if s[0] == 0 {
          assert Octets(0) == [0] && Encode(s, lone)[0] == 0;
        }
      }
    }
  }

  lemma CutBeforeZero(bytes: seq<Byte>, n: nat)
    requires n <= |bytes|
    ensures n <= |CString(bytes)| <==> 0 !in bytes[..n]
  {
    CStringIsPrefix(bytes);
    var c := CString(bytes);
    if n <= |c| {
      assert bytes[..n] == c[..n];
    } else {
      assert bytes[..n][|c|] == 0;
    }
  }

  lemma OffsetAtBoundary(text: seq<Unit>, i: nat, lone: seq<Byte>)
    requires Replacement(lone) && i <= |text| && !Splits(text, i)
    ensures OffsetOf(text, i, lone) <= |CString(Encode(text, lone))| <==> 0 !in text[..i]
  {
    EncodeSplit(text, i, lone);
    assert Encode(text, lone)[..OffsetOf(text, i, lone)] == Encode(text[..i], lone);
    ZerosOnlyFromNull(text[..i], lone);
    CutBeforeZero(Encode(text, lone), OffsetOf(text, i, lone));
  }

  // An offset lies within the text the server receives exactly if no U+0000 comes before the index.
  lemma {:induction false} OffsetInSentTextExact(text: seq<Unit>, i: nat, lone: seq<Byte>)
    requires Replacement(lone) && i <= |text|
    ensures OffsetOf(text, i, lone) <= |CString(Encode(text, lone))| <==> 0 !in text[..i]
  {
    hide Encode, CString;
    if Splits(text, i) {
      Trailing(text, i, lone);
      OffsetAtBoundary(text, i - 1, lone);
      OffsetAtBoundary(text, i + 1, lone);
      assert text[..i] == text[..i - 1] + [text[i - 1]] && text[..i + 1] == text[..i] + [text[i]];
    } else {
      OffsetAtBoundary(text, i, lone);
    }
  }

  // What the server receives is the encoding of the text up to its first U+0000.
  lemma {:induction false} SentTextExact(text: seq<Unit>, cursor: nat, anchor: nat, n: nat, lone: seq<Byte>)
    requires Replacement(lone) && n <= |text| && 0 !in text[..n] && (n < |text| ==> text[n] == 0)
    ensures SetSurroundingText(text, cursor, anchor, lone).text == Encode(text[..n], lone)
  {
    var bytes := Encode(text, lone);
    assert !Splits(text, n);
    EncodeSplit(text, n, lone);
    ZerosOnlyFromNull(text[..n], lone);
    if n < |text| {
      assert Octets(0) == [0] && Encode(text[n..], lone)[0] == 0;
      FirstZero(Encode(text[..n], lone), Encode(text[n..], lone));
    } else {
      assert text[..n] == text;
      CStringIsPrefix(bytes);
    }
  }

  lemma {:induction false} FirstZero(a: seq<Byte>, b: seq<Byte>)
    requires 0 !in a && b != [] && b[0] == 0
    ensures CString(a + b) == a
  {
    if a != [] {
      FirstZero(a[1..], b);
      assert (a + b)[1..] == a[1..] + b && a == [a[0]] + a[1..];
    } else {
      assert a + b == b;
    }
  }

  // An index inside a pair: what stands for its first half is counted.
  lemma OffsetInPair(text: seq<Unit>, i: nat, lone: seq<Byte>)
    requires Splits(text, i)
    ensures OffsetOf(text, i, lone) == OffsetOf(text, i - 1, lone) + |lone|
  {
    Trailing(text, i, lone);
  }

  // A concrete index inside a pair: the bytes before its offset are not part of the text.
  lemma OffsetCanCutPair(lone: seq<Byte>)
    requires Replacement(lone)
    ensures !(Encode([0xD83D, 0xDE00][..1], lone) <= Encode([0xD83D, 0xDE00], lone))
  {
    PrefixExact([0xD83D, 0xDE00], 1, lone);
  }

  // A concrete text whose end is beyond what the server receives: U+0000 and a letter.
  lemma OffsetCanBeBeyond(lone: seq<Byte>)
    requires Replacement(lone)
    ensures !(OffsetOf([0, 0x41], 2, lone) <= |CString(Encode([0, 0x41], lone))|)
  {
    OffsetInSentTextExact([0, 0x41], 2, lone);
    assert [0, 0x41][..2][0] == 0;
  }

  // The request: between the two offsets the server finds exactly the UTF-8 of the selected text.
  lemma {:induction false} SelectionIsExact(text: seq<Unit>, cursor: nat, anchor: nat, lone: seq<Byte>)
    requires Replacement(lone) && 0 !in text
    requires !Splits(text, cursor) && !Splits(text, anchor)
    ensures var r := SetSurroundingText(text, cursor, anchor, lone);
            var i, j := if cursor < |text| then cursor else |text|, if anchor < |text| then anchor else |text|;
            && r.cursor <= |r.text| && r.text[..r.cursor] == Encode(text[..i], lone)
            && r.anchor <= |r.text| && r.text[..r.anchor] == Encode(text[..j], lone)
            && (i <= j ==> r.cursor <= r.anchor && r.text[r.cursor..r.anchor] == Encode(text[i..j], lone))
            && (j <= i ==> r.anchor <= r.cursor && r.text[r.anchor..r.cursor] == Encode(text[j..i], lone))
  {
    var i, j := Clip(text, cursor), Clip(text, anchor);
    ZerosOnlyFromNull(text, lone);
    CStringIsPrefix(Encode(text, lone));
    EncodeSplit(text, i, lone);
    EncodeSplit(text, j, lone);
    if i <= j {
      SliceIsEncodingOfSlice(text, i, j, lone);
    }
    if j <= i {
      SliceIsEncodingOfSlice(text, j, i, lone);
    }
  }

  // ---------- the receiver decodes what was meant ----------

  predicate WellFormed(s: seq<Unit>) {
    s == [] ||
    (if StartsPair(s) then WellFormed(s[2..])
     else !IsHigh(s[0]) && !IsLow(s[0]) && WellFormed(s[1..]))
  }

  predicate Continues(b: int) {
    0x80 <= b < 0xC0
  }

  // The byte at i, or one that starts and continues nothing.
  function At(b: seq<Byte>, i: nat): int {
    if i < |b| then b[i] else 0xFF
  }

  function Join2(a: int, b: int): int {
    (a - 0xC0) * 64 + (b - 0x80)
  }

  function Join3(a: int, b: int, c: int): int {
    (a - 0xE0) * 4096 + (b - 0x80) * 64 + (c - 0x80)
  }

  function Join4(a: int, b: int, c: int, d: int): int {
    (a - 0xF0) * 262144 + (b - 0x80) * 4096 + (c - 0x80) * 64 + (d - 0x80)
  }

  // How many bytes the encoding that starts with this byte takes; 0 if none does.
  function Length(first: int): nat {
    if first < 0x80 then 1
    else if 0xC0 <= first < 0xE0 then 2
    else if 0xE0 <= first < 0xF0 then 3
    else if 0xF0 <= first < 0xF8 then 4
    else 0
  }

  // The code point at the start of the bytes; RFC 3629 forbids longer forms than needed, surrogates, and
  // values above 10FFFF.
  function FirstPoint(b: seq<Byte>): (r: Option<int>)
    ensures r.Some? ==> Scalar(r.value)
  {
    var (p, q, r, t) := (At(b, 0), At(b, 1), At(b, 2), At(b, 3));
    var n := Length(p);
    if n == 1 then Some(p)
    else if n == 2 && Continues(q) && Join2(p, q) >= 0x80 then Some(Join2(p, q))
    else if n == 3 && Continues(q) && Continues(r) && Join3(p, q, r) >= 0x800 && Scalar(Join3(p, q, r)) then
      Some(Join3(p, q, r))
    else if n == 4 && Continues(q) && Continues(r) && Continues(t) && 0x1_0000 <= Join4(p, q, r, t) <= 0x10_FFFF then
      Some(Join4(p, q, r, t))
    else None
  }

  // UTF-16 of one code point
  function Units(cp: int): (r: seq<Unit>)
    requires Scalar(cp)
  {
    if cp < 0x1_0000 then [cp]
    else [0xD800 + (cp - 0x1_0000) / 0x400, 0xDC00 + (cp - 0x1_0000) % 0x400]
  }

  function Decode(b: seq<Byte>): Option<seq<Unit>>
    decreases |b|
  {
    if b == [] then Some([])
    else
      var cp := FirstPoint(b);
      if cp.None? || |Octets(cp.value)| > |b| then None
      else
        var rest := Decode(b[|Octets(cp.value)|..]);
        if rest.None? then None else Some(Units(cp.value) + rest.value)
  }

  // Division by 64 of a number written in base 64
  lemma Digit(q: int, d: int)
    requires 0 <= q && 0 <= d < 64
    ensures (q * 64 + d) / 64 == q && (q * 64 + d) % 64 == d
  {
  }

  lemma Twice(cp: int)
    requires cp >= 0
    ensures cp / 4096 == cp / 64 / 64 && cp / 262144 == cp / 64 / 64 / 64
  {
  }

  // The digits of a number, from the highest
  lemma Digits(a: int, b: int, c: int, d: int, cp: int)
    requires 0 <= a && 0 <= b < 64 && 0 <= c < 64 && 0 <= d < 64
    requires cp == a * 262144 + b * 4096 + c * 64 + d
    ensures cp % 64 == d && cp / 64 % 64 == c && cp / 4096 % 64 == b && cp / 262144 == a
    ensures cp / 4096 == a * 64 + b && cp / 64 == a * 4096 + b * 64 + c
  {
    var q2 := a * 64 + b;
    var q1 := q2 * 64 + c;
    assert cp == q1 * 64 + d;
    Digit(q1, d);
    Digit(q2, c);
    Digit(a, b);
    Twice(cp);
  }

  lemma PointOf2(p: int, q: int, cp: int)
    requires 0x80 <= cp < 0x800 && p == 0xC0 + cp / 64 && q == 0x80 + cp % 64
    ensures Length(p) == 2 && Continues(q) && Join2(p, q) == cp
  {
  }

  lemma PointOf3(p: int, q: int, r: int, cp: int)
    requires 0x800 <= cp < 0x1_0000 && p == 0xE0 + cp / 4096 && q == 0x80 + cp / 64 % 64 && r == 0x80 + cp % 64
    ensures Length(p) == 3 && Continues(q) && Continues(r) && Join3(p, q, r) == cp
  {
    Twice(cp);
  }

  lemma PointOf4(p: int, q: int, r: int, t: int, cp: int)
    requires 0x1_0000 <= cp <= 0x10_FFFF && p == 0xF0 + cp / 262144
    requires q == 0x80 + cp / 4096 % 64 && r == 0x80 + cp / 64 % 64 && t == 0x80 + cp % 64
    ensures Length(p) == 4 && Continues(q) && Continues(r) && Continues(t) && Join4(p, q, r, t) == cp
  {
    Twice(cp);
  }

  lemma AtFront(o: seq<Byte>, rest: seq<Byte>, i: nat)
    requires i < |o|
    ensures At(o + rest, i) == o[i]
  {
  }

  lemma OctetsDecode(cp: int, rest: seq<Byte>)
    requires Scalar(cp)
    ensures FirstPoint(Octets(cp) + rest) == Some(cp)
  {
    hide At, Join2, Join3, Join4, Length, Continues;
    var o := Octets(cp);
    AtFront(o, rest, 0);
    if cp < 0x80 {
      OneByte(cp);
    } else if cp < 0x800 {
      AtFront(o, rest, 1);
      PointOf2(o[0], o[1], cp);
    } else if cp < 0x1_0000 {
      AtFront(o, rest, 1);
      AtFront(o, rest, 2);
      PointOf3(o[0], o[1], o[2], cp);
    } else {
      AtFront(o, rest, 1);
      AtFront(o, rest, 2);
      AtFront(o, rest, 3);
      PointOf4(o[0], o[1], o[2], o[3], cp);
    }
  }

  lemma OneByte(cp: int)
    requires 0 <= cp < 0x80
    ensures Length(cp) == 1
  {
  }

  lemma PairUnits(high: Unit, low: Unit)
    requires IsHigh(high) && IsLow(low)
    ensures Units(Joined(high, low)) == [high, low]
  {
  }

  // The encoding determines the text: decoding gives it back.
  lemma {:induction false} DecodeEncode(s: seq<Unit>, lone: seq<Byte>)
    requires WellFormed(s)
    ensures Decode(Encode(s, lone)) == Some(s)
  {
    if s != [] {
      var n, cp := 1, s[0];
      if StartsPair(s) {
        n, cp := 2, Joined(s[0], s[1]);
        PairUnits(s[0], s[1]);
      }
      DecodeEncode(s[n..], lone);
      OctetsDecode(cp, Encode(s[n..], lone));
      var b := Encode(s, lone);
      assert b[|Octets(cp)|..] == Encode(s[n..], lone);
      assert Units(cp) + s[n..] == s;
    }
  }

  lemma Octets2(p: Byte, q: Byte, cp: int)
    requires Length(p) == 2 && Continues(q) && cp == Join2(p, q) >= 0x80
    ensures cp <= 0x10_FFFF && Octets(cp) == [p, q]
  {
    Digits(0, 0, p - 0xC0, q - 0x80, cp);
    assert cp < 0x800;
  }

  lemma Octets3(p: Byte, q: Byte, r: Byte, cp: int)
    requires Length(p) == 3 && Continues(q) && Continues(r) && cp == Join3(p, q, r) >= 0x800
    ensures cp <= 0x10_FFFF && Octets(cp) == [p, q, r]
  {
    Digits(0, p - 0xE0, q - 0x80, r - 0x80, cp);
    assert cp < 0x1_0000;
  }

  lemma Octets4(p: Byte, q: Byte, r: Byte, t: Byte, cp: int)
    requires Length(p) == 4 && Continues(q) && Continues(r) && Continues(t)
    requires 0x1_0000 <= cp == Join4(p, q, r, t) <= 0x10_FFFF
    ensures Octets(cp) == [p, q, r, t]
  {
    Digits(p - 0xF0, q - 0x80, r - 0x80, t - 0x80, cp);
  }

  lemma PointIsOctets(b: seq<Byte>)
    requires FirstPoint(b).Some?
    ensures var o := Octets(FirstPoint(b).value); |o| <= |b| && o == b[..|o|]
  {
    hide Octets, Join2, Join3, Join4;
    var n, cp := Length(At(b, 0)), FirstPoint(b).value;
    if n == 1 {
      Octets1(b[0]);
    } else if n == 2 {
      Octets2(b[0], b[1], cp);
    } else if n == 3 {
      Octets3(b[0], b[1], b[2], cp);
    } else {
      Octets4(b[0], b[1], b[2], b[3], cp);
    }
  }

  lemma Octets1(p: Byte)
    requires p < 0x80
    ensures Octets(p) == [p]
  {
  }

  lemma EncodeUnits(cp: int, rest: seq<Unit>, lone: seq<Byte>)
    requires Scalar(cp) && WellFormed(rest)
    ensures WellFormed(Units(cp) + rest)
    ensures Encode(Units(cp) + rest, lone) == Octets(cp) + Encode(rest, lone)
  {
    var s := Units(cp) + rest;
    if cp >= 0x1_0000 {
      assert IsHigh(s[0]) && IsLow(s[1]) && Joined(s[0], s[1]) == cp && s[2..] == rest;
    } else {
      assert s[1..] == rest;
    }
  }

  lemma DecodeHead(b: seq<Byte>)
    requires b != [] && Decode(b).Some?
    ensures FirstPoint(b).Some?
    ensures var cp := FirstPoint(b).value;
            && |Octets(cp)| <= |b| && b == Octets(cp) + b[|Octets(cp)|..]
            && var rest := Decode(b[|Octets(cp)|..]);
               rest.Some? && Decode(b).value == Units(cp) + rest.value
  {
    hide Octets, FirstPoint, Units;
    PointIsOctets(b);
  }

  // Nothing else decodes: whatever decodes is the encoding of the well-formed text it decodes to.
  lemma {:induction false} EncodeDecode(b: seq<Byte>, lone: seq<Byte>)
    requires Decode(b).Some?
    ensures WellFormed(Decode(b).value) && Encode(Decode(b).value, lone) == b
    decreases |b|
  {
    if b != [] {
      hide Octets, FirstPoint, Units, Encode, Decode, WellFormed;
      DecodeHead(b);
      var cp := FirstPoint(b).value;
      var rest := b[|Octets(cp)|..];
      EncodeDecode(rest, lone);
      EncodeUnits(cp, Decode(rest).value, lone);
    }
  }

  lemma {:induction false} WellFormedSplit(s: seq<Unit>, i: nat)
    requires WellFormed(s) && i <= |s| && !Splits(s, i)
    ensures WellFormed(s[..i]) && WellFormed(s[i..])
  {
    if i > 0 {
      var n := if StartsPair(s) then 2 else 1;
      if i >= n {
        WellFormedSplit(s[n..], i - n);
        assert s[..i][n..] == s[n..][..i - n] && s[n..][i - n..] == s[i..];
        assert StartsPair(s[..i]) <==> StartsPair(s);
      }
    }
  }

  // What a server reads between the two offsets is the selected text.
  lemma {:induction false} ServerReadsTheSelection(text: seq<Unit>, cursor: nat, anchor: nat, lone: seq<Byte>)
    requires Replacement(lone) && WellFormed(text) && 0 !in text
    requires !Splits(text, cursor) && !Splits(text, anchor)
    ensures var r := SetSurroundingText(text, cursor, anchor, lone);
            var i, j := if cursor < |text| then cursor else |text|, if anchor < |text| then anchor else |text|;
            && Decode(r.text) == Some(text)
            && r.cursor <= |r.text| && Decode(r.text[..r.cursor]) == Some(text[..i])
            && r.anchor <= |r.text| && Decode(r.text[..r.anchor]) == Some(text[..j])
            && (i <= j ==> r.cursor <= r.anchor <= |r.text| && Decode(r.text[r.cursor..r.anchor]) == Some(text[i..j]))
            && (j <= i ==> r.anchor <= r.cursor <= |r.text| && Decode(r.text[r.anchor..r.cursor]) == Some(text[j..i]))
  {
    SelectionIsExact(text, cursor, anchor, lone);
    ZerosOnlyFromNull(text, lone);
    CStringIsPrefix(Encode(text, lone));
    DecodeEncode(text, lone);
    var i, j := Clip(text, cursor), Clip(text, anchor);
    WellFormedSplit(text, i);
    WellFormedSplit(text, j);
    DecodeEncode(text[..i], lone);
    DecodeEncode(text[..j], lone);
    if i <= j {
      BetweenIsWellFormed(text, i, j);
      DecodeEncode(text[i..j], lone);
    }
    if j <= i {
      BetweenIsWellFormed(text, j, i);
      DecodeEncode(text[j..i], lone);
    }
  }

  lemma BetweenIsWellFormed(s: seq<Unit>, i: nat, j: nat)
    requires WellFormed(s) && i <= j <= |s| && !Splits(s, i) && !Splits(s, j)
    ensures WellFormed(s[i..j])
  {
    WellFormedSplit(s, j);
    assert s[..j][i..] == s[i..j];
    WellFormedSplit(s[..j], i);
  }
}
