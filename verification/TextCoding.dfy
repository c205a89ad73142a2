/** What the decoding of UTF-16 and the encoding in UTF-8 mean: both read back. */
module TextCoding {
  import opened ChunkedSearch
  import opened WideText

  /** A code point that is no surrogate. */
  predicate Scalar(c: CodePoint) { c < 0xD800 || 0xE000 <= c }

  predicate AllScalar(t: seq<CodePoint>) {
    forall i :: 0 <= i < |t| ==> Scalar(t[i])
  }

  function LittleEndian(unit: nat): Bytes
    requires unit < 0x1_0000
  {
    [unit % 256, unit / 256]
  }

  /** A code point in little-endian UTF-16. */
  function Utf16(c: CodePoint): Bytes {
    if c < 0x1_0000 then LittleEndian(c)
    else LittleEndian(0xD800 + (c - 0x1_0000) / 0x400) + LittleEndian(0xDC00 + (c - 0x1_0000) % 0x400)
  }

  function Utf16Text(t: seq<CodePoint>): Bytes {
    if t == [] then [] else Utf16(t[0]) + Utf16Text(t[1..])
  }

  lemma FirstPoint(data: Bytes, i: nat, c: CodePoint, rest: Bytes)
    requires Scalar(c) && i <= |data| && data[i..] == Utf16(c) + rest
    ensures i + 1 < |data| && PointAt(data, i) == [c]
    ensures Next(data, i) == i + |Utf16(c)| && data[Next(data, i)..] == rest
  {
    var part := data[i..];
    assert data[i] == part[0] && data[i + 1] == part[1];
    if c >= 0x1_0000 {
      assert data[i + 2] == part[2] && data[i + 3] == part[3];
      assert Unit(data, i) == 0xD800 + (c - 0x1_0000) / 0x400;
      assert Unit(data, i + 2) == 0xDC00 + (c - 0x1_0000) % 0x400;
    } else {
      assert Unit(data, i) == c;
    }
    assert part[|Utf16(c)|..] == rest;
  }

  lemma {:induction false} ReadsFrom(data: Bytes, i: nat, t: seq<CodePoint>)
    requires AllScalar(t) && i <= |data| && data[i..] == Utf16Text(t)
    ensures Points(data, i) == t
    decreases |t|
  {
    if t != [] {
      FirstPoint(data, i, t[0], Utf16Text(t[1..]));
      ReadsFrom(data, Next(data, i), t[1..]);
      assert [t[0]] + t[1..] == t;
    }
  }

  /** Whatever the bytes, no surrogate is decoded. */
  lemma {:induction false} PointsAreScalars(data: Bytes, i: nat)
    ensures AllScalar(Points(data, i))
    decreases |data| - i
  {
    if i + 1 < |data| { PointsAreScalars(data, Next(data, i)); }
  }

  // ----- UTF-8 -----

  /** How many bytes the encoding that starts with the byte has. */
  function Width(lead: Byte): nat {
    if lead < 0x80 then 1 else if lead < 0xE0 then 2 else if lead < 0xF0 then 3 else 4
  }

  /** The code point that one encoding stands for. */
  function Value(s: Bytes): nat
    requires |s| > 0 && |s| == Width(s[0])
  {
    match |s|
    case 1 => s[0]
    case 2 => 64 * LowBits(s[0], 32) + LowBits(s[1], 64)
    case 3 => 4096 * LowBits(s[0], 16) + 64 * LowBits(s[1], 64) + LowBits(s[2], 64)
    case _ => 262144 * LowBits(s[0], 8) + 4096 * LowBits(s[1], 64) + 64 * LowBits(s[2], 64) + LowBits(s[3], 64)
  }

  function LowBits(b: Byte, n: nat): nat
    requires n > 0
  {
    b % n
  }

  /** The code points of a text in UTF-8. */
  function ReadUtf8(s: Bytes): seq<nat> {
    if s == [] || |s| < Width(s[0]) then []
    else [Value(s[..Width(s[0])])] + ReadUtf8(s[Width(s[0])..])
  }

  lemma SixBits(n: nat)
    ensures n == 64 * (n / 64) + n % 64 && LowBits(0x80 + n % 0x40, 64) == n % 64
  {}

  lemma LeadBits(x: nat)
    ensures x < 32 ==> LowBits(0xC0 + x, 32) == x
    ensures x < 16 ==> LowBits(0xE0 + x, 16) == x
    ensures x < 8 ==> LowBits(0xF0 + x, 8) == x
  {}

  lemma Quotients(c: nat)
    ensures c / 0x1000 == c / 0x40 / 0x40 && c / 0x4_0000 == c / 0x1000 / 0x40
  {}

  lemma TwoBytes(c: CodePoint)
    requires 0x80 <= c < 0x800
    ensures Width(Utf8(c)[0]) == 2 && Value(Utf8(c)) == c
  {
    SixBits(c);
    LeadBits(c / 0x40);
  }

  lemma ThreeBytes(c: CodePoint)
    requires 0x800 <= c < 0x1_0000
    ensures Width(Utf8(c)[0]) == 3 && Value(Utf8(c)) == c
  {
    Quotients(c);
    SixBits(c);
    SixBits(c / 0x40);
    LeadBits(c / 0x1000);
  }

  lemma FourBytes(c: CodePoint)
    requires 0x1_0000 <= c
    ensures Width(Utf8(c)[0]) == 4 && Value(Utf8(c)) == c
  {
    Quotients(c);
    SixBits(c);
    SixBits(c / 0x40);
    SixBits(c / 0x1000);
    LeadBits(c / 0x4_0000);
  }

  lemma Utf8Value(c: CodePoint)
    ensures |Utf8(c)| == Width(Utf8(c)[0]) && Value(Utf8(c)) == c
  {
    if 0x80 <= c < 0x800 { TwoBytes(c); }
    if 0x800 <= c < 0x1_0000 { ThreeBytes(c); }
    if 0x1_0000 <= c { FourBytes(c); }
  }

  lemma {:induction false} Utf8ReadsBack(t: seq<CodePoint>)
    ensures ReadUtf8(Encode(t)) == t
  {
    if t != [] {
      var first, rest := Utf8(t[0]), Encode(t[1..]);
      Utf8Value(t[0]);
      Utf8ReadsBack(t[1..]);
      assert (first + rest)[..|first|] == first && (first + rest)[|first|..] == rest;
      assert [t[0]] + t[1..] == t;
    }
  }

  /** Decoding UTF-16 keeps the text, and gives it in UTF-8. */
  lemma DecodedKeepsText(t: seq<CodePoint>)
    requires AllScalar(t)
    ensures Points(Utf16Text(t), 0) == t && ReadUtf8(Decoded(Utf16Text(t))) == t
  {
    assert Utf16Text(t)[0..] == Utf16Text(t);
    ReadsFrom(Utf16Text(t), 0, t);
    Utf8ReadsBack(t);
  }
}
