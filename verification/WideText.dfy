/** The search of windows decoded as UTF-16. */
module WideText {
  import opened ChunkedSearch

  type CodePoint = c: int | 0 <= c < 0x11_0000

  // ----- Decoding -----

  function Unit(data: Bytes, i: nat): nat
    requires i + 1 < |data|
  {
    (data[i] as int) + 256 * (data[i + 1] as int)
  }

  predicate High(u: nat) { 0xD800 <= u < 0xDC00 }
  predicate Low(u: nat) { 0xDC00 <= u < 0xE000 }

  /** A pair of surrogates stands at `i`. */
  predicate PairAt(data: Bytes, i: nat)
    requires i + 1 < |data|
  {
    High(Unit(data, i)) && i + 3 < |data| && Low(Unit(data, i + 2))
  }

  /** What the unit or pair at `i` stands for; a lone surrogate is ignored. */
  function PointAt(data: Bytes, i: nat): seq<CodePoint>
    requires i + 1 < |data|
  {
    var u := Unit(data, i);
    if PairAt(data, i) then [0x1_0000 + (u - 0xD800) * 0x400 + (Unit(data, i + 2) - 0xDC00)]
    else if High(u) || Low(u) then []
    else [u]
  }

  function Next(data: Bytes, i: nat): nat
    requires i + 1 < |data|
  {
    if PairAt(data, i) then i + 4 else i + 2
  }

  /** The code points from `i` on, in little-endian UTF-16, with lone surrogates and a last odd byte ignored. */
  function Points(data: Bytes, i: nat): seq<CodePoint>
    decreases |data| - i
  {
    if i + 1 >= |data| then [] else PointAt(data, i) + Points(data, Next(data, i))
  }

  function Utf8(c: CodePoint): Bytes {
    if c < 0x80 then [c]
    else if c < 0x800 then [0xC0 + c / 0x40, 0x80 + c % 0x40]
    else if c < 0x1_0000 then [0xE0 + c / 0x1000, 0x80 + c / 0x40 % 0x40, 0x80 + c % 0x40]
    else [0xF0 + c / 0x4_0000, 0x80 + c / 0x1000 % 0x40, 0x80 + c / 0x40 % 0x40, 0x80 + c % 0x40]
  }

  function Encode(t: seq<CodePoint>): Bytes {
    if t == [] then [] else Utf8(t[0]) + Encode(t[1..])
  }

  /** The data read as UTF-16, in UTF-8. */
  function Decoded(data: Bytes): Bytes {
    Encode(Points(data, 0))
  }

  predicate FoundDecoded(chunks: seq<Bytes>, literal: Bytes) {
    exists k :: 0 <= k < |chunks| && OccursFolded(literal, Decoded(Window(chunks, k)))
  }

  // ----- Parts of an encoded text -----

  predicate EndsWith<T(==)>(s: seq<T>, t: seq<T>) {
    |t| <= |s| && s[|s| - |t|..] == t
  }

  lemma EndsWithAppended<T>(p: seq<T>, s: seq<T>, t: seq<T>)
    requires EndsWith(s, t)
    ensures EndsWith(p + s, t)
  {
    assert (p + s)[|p + s| - |t|..] == s[|s| - |t|..];
  }

  lemma PrefixAppended<T>(p: seq<T>, s: seq<T>, t: seq<T>)
    requires s <= t
    ensures p + s <= p + t
  {}

  lemma {:induction false} EncodeAppend(s: seq<CodePoint>, t: seq<CodePoint>)
    ensures Encode(s + t) == Encode(s) + Encode(t)
  {
    if s == [] {
      assert s + t == t;
    } else {
      assert (s + t)[1..] == s[1..] + t;
      EncodeAppend(s[1..], t);
    }
  }

  lemma EncodeSuffix(s: seq<CodePoint>, t: seq<CodePoint>)
    requires EndsWith(s, t)
    ensures EndsWith(Encode(s), Encode(t))
  {
    var p := s[..|s| - |t|];
    assert s == p + t;
    EncodeAppend(p, t);
  }

  lemma EncodePrefix(s: seq<CodePoint>, t: seq<CodePoint>)
    requires s <= t
    ensures Encode(s) <= Encode(t)
  {
    assert t == s + t[|s|..];
    EncodeAppend(s, t[|s|..]);
  }

  lemma OccursInPart(literal: Bytes, part: Bytes, tail: Bytes, all: Bytes)
    requires part <= tail && EndsWith(all, tail) && OccursFolded(literal, part)
    ensures OccursFolded(literal, all)
  {
    var i :| 0 <= i <= |Fold(part)| && OccursAt(Fold(literal), Fold(part), i);
    var lo := |all| - |tail|;
    assert part == all[lo..lo + |part|];
    OccursInSlice(literal, all, lo, lo + |part|, lo + i);
    assert OccursAt(Fold(literal), Fold(all), lo + i);
  }

  // ----- Where decoding comes to -----

  /** The code points from `j` on end those from `i` on; or the second half of a pair stands at `j`, and it
      is those after it that do. */
  predicate ComesTo(data: Bytes, i: nat, j: nat) {
    || EndsWith(Points(data, i), Points(data, j))
    || (j + 1 < |data| && Low(Unit(data, j)) && EndsWith(Points(data, i), Points(data, j + 2)))
  }

  lemma OneStepBack(data: Bytes, i: nat, j: nat)
    requires i + 1 < |data| && i + 2 <= j && (ComesTo(data, Next(data, i), j) || (PairAt(data, i) && j == i + 2))
    ensures ComesTo(data, i, j)
  {
    var next := Next(data, i);
    if ComesTo(data, next, j) && EndsWith(Points(data, next), Points(data, j)) {
      EndsWithAppended(PointAt(data, i), Points(data, next), Points(data, j));
    } else {
      EndsWithAppended(PointAt(data, i), Points(data, next), Points(data, j + 2));
    }
  }

  /** Decoding comes to every even distance, or past it when the second half of a pair stands there. */
  lemma {:induction false} DecodingReaches(data: Bytes, i: nat, j: nat, n: nat)
    requires j == i + 2 * n && j <= |data|
    ensures ComesTo(data, i, j)
    decreases n
  {
    if n > 0 {
      if !PairAt(data, i) {
        DecodingReaches(data, i + 2, j, n - 1);
      } else if n > 1 {
        DecodingReaches(data, i + 4, j, n - 2);
      }
      OneStepBack(data, i, j);
    }
  }

  // ----- Text that stands in the file -----

  predicate Ascii(literal: Bytes) {
    forall j :: 0 <= j < |literal| ==> literal[j] < 0x80
  }

  /** The literal stands in the file as UTF-16, in any case. */
  predicate StandsWideAt(literal: Bytes, file: Bytes, at: nat)
    decreases literal
  {
    if literal == [] then at <= |file|
    else
      && at + 1 < |file| && Lower(file[at]) == Lower(literal[0]) && file[at + 1] == 0
      && StandsWideAt(literal[1..], file, at + 2)
  }

  lemma {:induction false} WideLength(literal: Bytes, file: Bytes, at: nat)
    requires StandsWideAt(literal, file, at)
    ensures at + 2 * |literal| <= |file|
    decreases literal
  {
    if literal != [] { WideLength(literal[1..], file, at + 2); }
  }

  lemma AsciiPoint(data: Bytes, at: nat)
    requires at + 1 < |data| && data[at] < 0x80 && data[at + 1] == 0
    ensures Points(data, at) == [data[at] as int] + Points(data, at + 2)
  {
    assert Unit(data, at) == data[at];
  }

  lemma EncodeAscii(b: Byte, t: seq<CodePoint>)
    requires b < 0x80
    ensures Encode([b as int] + t) == [b] + Encode(t)
  {
    assert ([b as int] + t)[1..] == t;
  }

  lemma FoldAppended(a: Byte, s: Bytes)
    ensures Fold([a] + s) == [Lower(a)] + Fold(s)
  {}

  lemma FoldGrows(b: Byte, d: Bytes, literal: Bytes)
    requires literal != [] && Lower(b) == Lower(literal[0]) && |literal| - 1 <= |d|
    requires Fold(d[..|literal| - 1]) == Fold(literal[1..])
    ensures Fold(([b] + d)[..|literal|]) == Fold(literal)
  {
    assert ([b] + d)[..|literal|] == [b] + d[..|literal| - 1];
    FoldAppended(b, d[..|literal| - 1]);
    FoldAppended(literal[0], literal[1..]);
    assert literal == [literal[0]] + literal[1..];
  }

  lemma {:induction false} WideTextDecodes(literal: Bytes, data: Bytes, at: nat)
    requires Ascii(literal) && StandsWideAt(literal, data, at)
    ensures var d := Encode(Points(data, at)); |literal| <= |d| && Fold(d[..|literal|]) == Fold(literal)
    decreases literal
  {
    if literal != [] {
      WideTextDecodes(literal[1..], data, at + 2);
      AsciiPoint(data, at);
      EncodeAscii(data[at], Points(data, at + 2));
      FoldGrows(data[at], Encode(Points(data, at + 2)), literal);
    }
  }

  lemma OccursAtTheEnd(literal: Bytes, all: Bytes, tail: Bytes)
    requires EndsWith(all, tail) && |literal| <= |tail| && Fold(tail[..|literal|]) == Fold(literal)
    ensures OccursFolded(literal, all)
  {
    var i := |all| - |tail|;
    assert all[i..i + |literal|] == tail[..|literal|];
    assert Fold(all)[i..i + |literal|] == Fold(all[i..i + |literal|]);
    assert OccursAt(Fold(literal), Fold(all), i);
  }

  lemma AsciiIsReached(data: Bytes, at: nat, n: nat)
    requires at == 2 * n && at + 1 < |data| && data[at + 1] == 0
    ensures EndsWith(Points(data, 0), Points(data, at))
  {
    DecodingReaches(data, 0, at, n);
    assert !Low(Unit(data, at));
  }

  lemma WideTextOccurs(literal: Bytes, data: Bytes, at: nat, n: nat)
    requires Ascii(literal) && literal != [] && StandsWideAt(literal, data, at) && at == 2 * n
    ensures OccursFolded(literal, Decoded(data))
  {
    WideTextDecodes(literal, data, at);
    AsciiIsReached(data, at, n);
    EncodeSuffix(Points(data, 0), Points(data, at));
    OccursAtTheEnd(literal, Decoded(data), Encode(Points(data, at)));
  }

  // ----- Windows of even reads -----

  /** Every chunk but the last has an even length, as reads of the fixed size have. */
  ghost predicate EvenChunks(chunks: seq<Bytes>) {
    forall k :: 0 <= k < |chunks| - 1 ==> |chunks[k]| % 2 == 0
  }

  lemma ReadsAreEven(chunks: seq<Bytes>, size: nat)
    requires FixedReads(chunks, size) && size % 2 == 0
    ensures EvenChunks(chunks)
  {}

  lemma {:induction false} EvenStart(chunks: seq<Bytes>, k: nat)
    requires EvenChunks(chunks) && k < |chunks|
    ensures |Flatten(chunks[..k])| % 2 == 0
  {
    if k > 0 {
      EvenStart(chunks, k - 1);
      FlattenStep(chunks, k - 1);
    }
  }

  lemma HalfOf(n: nat) returns (h: nat)
    requires n % 2 == 0
    ensures n == 2 * h
  {
    h := n / 2;
  }

  /** With even chunks every window starts at an even position. */
  lemma WindowFromEven(chunks: seq<Bytes>, k: nat) returns (a: nat)
    requires k < |chunks| && EvenChunks(chunks)
    ensures 2 * a == WindowStart(chunks, k) <= |Flatten(chunks[..k + 1])| <= |Flatten(chunks)|
    ensures Window(chunks, k) == Flatten(chunks)[2 * a..|Flatten(chunks[..k + 1])|]
  {
    a := EvenWindowStart(chunks, k);
    WindowIsSlice(chunks, k);
  }

  lemma EvenWindowStart(chunks: seq<Bytes>, k: nat) returns (a: nat)
    requires k < |chunks| && EvenChunks(chunks)
    ensures 2 * a == WindowStart(chunks, k)
  {
    EvenStart(chunks, k);
    a := HalfOf(WindowStart(chunks, k));
  }

  /** The longest literal, in characters, that cannot outgrow the window of its last character. */
  const WIDE_LIMIT := 257

  /** What ends after an even start at an even position ends at least two bytes after it. */
  lemma WindowCovers(start: nat, lo: nat, a: nat, n: nat)
    requires start % 2 == 0 && start < 2 * a + 2 * n && n <= WIDE_LIMIT
    requires lo == if start <= OVERLAP then 0 else start - OVERLAP
    ensures lo <= 2 * a
  {
    assert start + 2 <= 2 * a + 2 * n;
  }

  /** The window that holds `n` characters at the offset. */
  lemma CoveringWindow(chunks: seq<Bytes>, a: nat, n: nat) returns (k: nat)
    requires EvenChunks(chunks) && 1 <= n <= WIDE_LIMIT && 2 * a + 2 * n <= |Flatten(chunks)|
    ensures k < |chunks| && WindowStart(chunks, k) <= 2 * a && 2 * a + 2 * n <= |Flatten(chunks[..k + 1])|
  {
    k := ChunkEndingAfter(chunks, 2 * a + 2 * n);
    EvenStart(chunks, k);
    WindowCovers(|Flatten(chunks[..k])|, WindowStart(chunks, k), a, n);
  }

  lemma {:induction false} StandsInSlice(literal: Bytes, whole: Bytes, lo: nat, hi: nat, at: nat)
    requires StandsWideAt(literal, whole, at) && lo <= at && at + 2 * |literal| <= hi <= |whole|
    ensures StandsWideAt(literal, whole[lo..hi], at - lo)
    decreases literal
  {
    if literal != [] { StandsInSlice(literal[1..], whole, lo, hi, at + 2); }
  }

  lemma FoundInSlice(literal: Bytes, whole: Bytes, b: nat, hi: nat, a: nat, data: Bytes)
    requires Ascii(literal) && literal != [] && StandsWideAt(literal, whole, 2 * a)
    requires b <= a && 2 * a + 2 * |literal| <= hi <= |whole| && data == whole[2 * b..hi]
    ensures OccursFolded(literal, Decoded(data))
  {
    StandsInSlice(literal, whole, 2 * b, hi, 2 * a);
    WideTextOccurs(literal, data, 2 * a - 2 * b, a - b);
  }

  /** An ASCII literal of at most 257 characters that stands in the file as UTF-16 at an even offset is found. */
  lemma WideTextIsFound(chunks: seq<Bytes>, literal: Bytes, at: nat)
    requires EvenChunks(chunks) && Ascii(literal) && 1 <= |literal| <= WIDE_LIMIT
    requires StandsWideAt(literal, Flatten(chunks), at) && at % 2 == 0
    ensures FoundDecoded(chunks, literal)
  {
    var a := HalfOf(at);
    WideLength(literal, Flatten(chunks), at);
    var k := CoveringWindow(chunks, a, |literal|);
    var b := WindowFromEven(chunks, k);
    FoundInSlice(literal, Flatten(chunks), b, |Flatten(chunks[..k + 1])|, a, Window(chunks, k));
  }

  // ----- What is found is in the decoded file -----

  lemma SameUnit(whole: Bytes, lo: nat, hi: nat, data: Bytes, i: nat)
    requires lo <= hi <= |whole| && data == whole[lo..hi] && i + 1 < |data|
    ensures Unit(data, i) == Unit(whole, lo + i)
  {}

  /** A unit or pair that the slice holds stands for the same in both; a pair that it cuts is ignored. */
  lemma PointInSlice(whole: Bytes, lo: nat, hi: nat, data: Bytes, i: nat)
    requires lo <= hi <= |whole| && data == whole[lo..hi] && i + 1 < |data|
    ensures PairAt(data, i) == PairAt(whole, lo + i) ==>
      PointAt(data, i) == PointAt(whole, lo + i) && lo + Next(data, i) == Next(whole, lo + i)
    ensures PairAt(data, i) != PairAt(whole, lo + i) ==>
      PointAt(data, i) == [] && Next(data, i) == i + 2 && |data| <= i + 3
  {
    SameUnit(whole, lo, hi, data, i);
    if i + 3 < |data| { SameUnit(whole, lo, hi, data, i + 2); }
  }

  /** What the data decodes to is the beginning of what the file decodes to. */
  predicate Begins(data: Bytes, i: nat, whole: Bytes, j: nat) {
    Points(data, i) <= Points(whole, j)
  }

  lemma NothingLeft(data: Bytes, i: nat, whole: Bytes, j: nat)
    requires i + 1 >= |data|
    ensures Begins(data, i, whole, j)
  {}

  lemma SamePoint(data: Bytes, i: nat, whole: Bytes, j: nat)
    requires i + 1 < |data| && j + 1 < |whole| && PointAt(data, i) == PointAt(whole, j)
    requires Begins(data, Next(data, i), whole, Next(whole, j))
    ensures Begins(data, i, whole, j)
  {
    PrefixAppended(PointAt(data, i), Points(data, Next(data, i)), Points(whole, Next(whole, j)));
  }

  lemma CutPoint(data: Bytes, i: nat, whole: Bytes, j: nat)
    requires i + 1 < |data| <= i + 3 && PointAt(data, i) == [] && Next(data, i) == i + 2
    ensures Begins(data, i, whole, j)
  {
    assert Points(data, i + 2) == [];
  }

  /** A slice decodes to a beginning of what the file decodes to from there. */
  lemma {:induction false} SliceDecodes(whole: Bytes, lo: nat, hi: nat, data: Bytes, i: nat)
    requires lo <= hi <= |whole| && data == whole[lo..hi]
    ensures Begins(data, i, whole, lo + i)
    decreases |data| - i
  {
    if i + 1 >= |data| {
      NothingLeft(data, i, whole, lo + i);
    } else {
      PointInSlice(whole, lo, hi, data, i);
      if PairAt(data, i) == PairAt(whole, lo + i) {
        SliceDecodes(whole, lo, hi, data, Next(data, i));
        SamePoint(data, i, whole, lo + i);
      } else {
        CutPoint(data, i, whole, lo + i);
      }
    }
  }

  /** A slice that starts with the second half of a pair decodes from the next unit on. */
  lemma SliceAfterHalf(whole: Bytes, lo: nat, hi: nat, data: Bytes)
    requires lo <= hi <= |whole| && data == whole[lo..hi] && lo + 1 < |whole| && Low(Unit(whole, lo))
    ensures Points(data, 0) <= Points(whole, lo + 2)
  {
    if |data| >= 2 {
      SameUnit(whole, lo, hi, data, 0);
      assert PointAt(data, 0) == [] && Points(data, 0) == Points(data, 2);
      SliceDecodes(whole, lo, hi, data, 2);
    }
  }

  lemma SliceFindIsReal(literal: Bytes, whole: Bytes, a: nat, hi: nat, data: Bytes)
    requires 2 * a <= hi <= |whole| && data == whole[2 * a..hi] && OccursFolded(literal, Decoded(data))
    ensures OccursFolded(literal, Decoded(whole))
  {
    var lo := 2 * a;
    DecodingReaches(whole, 0, lo, a);
    var from := if EndsWith(Points(whole, 0), Points(whole, lo)) then lo else lo + 2;
    if from == lo {
      SliceDecodes(whole, lo, hi, data, 0);
    } else {
      SliceAfterHalf(whole, lo, hi, data);
    }
    EncodePrefix(Points(data, 0), Points(whole, from));
    EncodeSuffix(Points(whole, 0), Points(whole, from));
    OccursInPart(literal, Decoded(data), Encode(Points(whole, from)), Decoded(whole));
  }

  /** With even chunks, what is found in a decoded window is in the decoded file. */
  lemma DecodedFindIsReal(chunks: seq<Bytes>, literal: Bytes)
    requires EvenChunks(chunks) && FoundDecoded(chunks, literal)
    ensures OccursFolded(literal, Decoded(Flatten(chunks)))
  {
    var k :| 0 <= k < |chunks| && OccursFolded(literal, Decoded(Window(chunks, k)));
    var a := WindowFromEven(chunks, k);
    SliceFindIsReal(literal, Flatten(chunks), a, |Flatten(chunks[..k + 1])|, Window(chunks, k));
  }

  // ----- Which texts the scan finds -----

  /** Wherever the literal stands as UTF-16 at an offset of that parity, reads of that size find it. */
  ghost predicate WideReliable(literal: Bytes, parity: nat, size: nat) {
    forall chunks, at: nat :: FixedReads(chunks, size) && at % 2 == parity && StandsWideAt(literal, Flatten(chunks), at)
      ==> FoundDecoded(chunks, literal)
  }

  /** Reads that miss a text standing at the offset. */
  ghost predicate MissedAt(literal: Bytes, chunks: seq<Bytes>, at: nat, size: nat) {
    FixedReads(chunks, size) && StandsWideAt(literal, Flatten(chunks), at) && !FoundDecoded(chunks, literal)
  }

  /** The search in UTF-16 serves exactly the texts of up to 257 characters at even offsets. */
  lemma WideReliableIffShortAndEven(literal: Bytes, parity: nat, size: nat)
    requires Ascii(literal) && literal != [] && parity < 2 && size > 0 && size % 2 == 0
    ensures WideReliable(literal, parity, size) <==> parity == 0 && |literal| <= WIDE_LIMIT
  {
    if parity == 0 && |literal| <= WIDE_LIMIT {
      forall chunks, at: nat | FixedReads(chunks, size) && at % 2 == 0 && StandsWideAt(literal, Flatten(chunks), at)
        ensures FoundDecoded(chunks, literal)
      {
        ReadsAreEven(chunks, size);
        WideTextIsFound(chunks, literal, at);
      }
    } else if parity == 0 {
      var chunks, at := LongTextIsMissed(literal, size);
      assert MissedAt(literal, chunks, at, size);
    } else {
      OddOffsetIsMissed(literal, size);
      assert MissedAt(literal, Chunks(Shift(literal), size), 1, size);
    }
  }

  // ----- Long texts -----

  /** The text as UTF-16. */
  function Wide(t: Bytes): (d: Bytes)
    ensures |d| == 2 * |t|
  {
    if t == [] then [] else [t[0], 0] + Wide(t[1..])
  }

  lemma {:induction false} WideAppend(s: Bytes, t: Bytes)
    ensures Wide(s + t) == Wide(s) + Wide(t)
  {
    if s == [] {
      assert s + t == t;
    } else {
      assert (s + t)[1..] == s[1..] + t;
      WideAppend(s[1..], t);
    }
  }

  lemma MiddlePart(p: Bytes, m: Bytes, r: Bytes)
    ensures (p + m + r)[|p|..|p| + |m|] == m
  {}

  lemma WideParts(p: Bytes, m: Bytes, r: Bytes)
    ensures Wide(p + m + r) == Wide(p) + Wide(m) + Wide(r)
  {
    WideAppend(p, m);
    WideAppend(p + m, r);
  }

  lemma ThreeParts(t: Bytes, a: nat, b: nat)
    requires a <= b <= |t|
    ensures t == t[..a] + t[a..b] + t[b..]
  {}

  lemma WideSlice(t: Bytes, a: nat, b: nat)
    requires a <= b <= |t|
    ensures Wide(t)[2 * a..2 * b] == Wide(t[a..b])
  {
    var p, m, r := t[..a], t[a..b], t[b..];
    ThreeParts(t, a, b);
    WideParts(p, m, r);
    MiddlePart(Wide(p), Wide(m), Wide(r));
    assert |Wide(p)| == 2 * a && |Wide(p)| + |Wide(m)| == 2 * b;
  }

  /** From the position on, the data is the text as UTF-16. */
  predicate Spells(data: Bytes, at: nat, t: Bytes)
    decreases t
  {
    if t == [] then at == |data|
    else at + 1 < |data| && data[at] == t[0] && data[at + 1] == 0 && Spells(data, at + 2, t[1..])
  }

  lemma {:induction false} SpeltDecodes(data: Bytes, at: nat, t: Bytes)
    requires Ascii(t) && Spells(data, at, t)
    ensures Encode(Points(data, at)) == t
    decreases t
  {
    if t != [] {
      AsciiPoint(data, at);
      EncodeAscii(data[at], Points(data, at + 2));
      SpeltDecodes(data, at + 2, t[1..]);
      assert t == [t[0]] + t[1..];
    }
  }

  lemma {:induction false} SpeltStands(data: Bytes, at: nat, t: Bytes)
    requires Spells(data, at, t)
    ensures StandsWideAt(t, data, at)
    decreases t
  {
    if t != [] { SpeltStands(data, at + 2, t[1..]); }
  }

  lemma {:induction false} WideSpells(p: Bytes, t: Bytes)
    ensures Spells(p + Wide(t), |p|, t)
    decreases t
  {
    if t != [] {
      var q := p + [t[0], 0];
      assert p + Wide(t) == q + Wide(t[1..]);
      assert q[|p|] == t[0] && q[|p| + 1] == 0;
      WideSpells(q, t[1..]);
    }
  }

  lemma DecodedWide(t: Bytes)
    requires Ascii(t)
    ensures Decoded(Wide(t)) == t
  {
    WideSpells([], t);
    assert [] + Wide(t) == Wide(t);
    SpeltDecodes(Wide(t), 0, t);
  }

  lemma WideStands(literal: Bytes, q: nat)
    ensures StandsWideAt(literal, Wide(Padded(literal, q)), 2 * q)
  {
    var padding := seq(q, _ => Filler(literal));
    WideAppend(padding, literal);
    WideSpells(Wide(padding), literal);
    SpeltStands(Wide(padding) + Wide(literal), 2 * q, literal);
  }

  /** A longer text at an even offset is missed when its last character comes in a chunk of its own. */
  lemma LongTextIsMissed(literal: Bytes, size: nat) returns (chunks: seq<Bytes>, at: nat)
    requires Ascii(literal) && |literal| > WIDE_LIMIT && size > 0 && size % 2 == 0
    ensures at % 2 == 0 && MissedAt(literal, chunks, at, size)
  {
    var half := HalfOf(size);
    var q;
    q, chunks := LongTextChunks(literal, half, size);
    at := 2 * q;
    LongTextLacks(literal, q, chunks);
  }

  lemma LongTextChunks(literal: Bytes, half: nat, size: nat) returns (q: nat, chunks: seq<Bytes>)
    requires literal != [] && size > 0 && size == 2 * half
    ensures Flatten(chunks) == Wide(Padded(literal, q)) && FixedReads(chunks, size) && EvenChunks(chunks)
    ensures |chunks| > 0 && |Flatten(chunks[..|chunks| - 1])| == 2 * (q + |literal| - 1)
  {
    var n := |literal| - 1;
    q := PadLength(n, half);
    var file := Wide(Padded(literal, q));
    chunks := Chunks(file, size);
    ChunksAreReads(file, size);
    Doubled(n, half, size);
    RestIsLast(chunks, size, n, 2);
    ReadsAreEven(chunks, size);
  }

  lemma Doubled(n: nat, half: nat, size: nat)
    requires size == 2 * half
    ensures n * size == 2 * (n * half)
  {}

  lemma LongTextLacks(literal: Bytes, q: nat, chunks: seq<Bytes>)
    requires Ascii(literal) && |literal| > WIDE_LIMIT && EvenChunks(chunks) && |chunks| > 0
    requires Flatten(chunks) == Wide(Padded(literal, q))
    requires |Flatten(chunks[..|chunks| - 1])| == 2 * (q + |literal| - 1)
    ensures StandsWideAt(literal, Flatten(chunks), 2 * q) && !FoundDecoded(chunks, literal)
  {
    WideStands(literal, q);
    forall k | 0 <= k < |chunks| ensures !OccursFolded(literal, Decoded(Window(chunks, k))) {
      WindowLacksText(literal, q, chunks, k);
    }
  }

  lemma EvenEnd(chunks: seq<Bytes>, k: nat) returns (b: nat)
    requires k < |chunks| && EvenChunks(chunks) && |Flatten(chunks)| % 2 == 0
    ensures 2 * b == |Flatten(chunks[..k + 1])|
  {
    if k + 1 < |chunks| {
      EvenStart(chunks, k + 1);
    } else {
      assert chunks[..k + 1] == chunks;
    }
    b := HalfOf(|Flatten(chunks[..k + 1])|);
  }

  /** A window but the last ends with an earlier chunk; the last covers 512 bytes and its chunk. */
  lemma WindowEnds(chunks: seq<Bytes>, k: nat)
    requires k < |chunks|
    ensures k < |chunks| - 1 ==> |Flatten(chunks[..k + 1])| <= |Flatten(chunks[..|chunks| - 1])|
    ensures k == |chunks| - 1 ==>
      && WindowStart(chunks, k) >= |Flatten(chunks[..|chunks| - 1])| - OVERLAP
      && |Flatten(chunks[..k + 1])| == |Flatten(chunks)|
  {
    if k < |chunks| - 1 {
      EndsBefore(chunks, k, |chunks| - 1);
    } else {
      assert chunks[..k + 1] == chunks;
    }
  }

  lemma WindowLacksText(literal: Bytes, q: nat, chunks: seq<Bytes>, k: nat)
    requires Ascii(literal) && |literal| > WIDE_LIMIT && k < |chunks| && EvenChunks(chunks)
    requires Flatten(chunks) == Wide(Padded(literal, q))
    requires |Flatten(chunks[..|chunks| - 1])| == 2 * (q + |literal| - 1)
    ensures !OccursFolded(literal, Decoded(Window(chunks, k)))
  {
    var a := WindowFromEven(chunks, k);
    var b := EvenEnd(chunks, k);
    WindowEnds(chunks, k);
    TextSliceLacks(literal, q, a, b);
  }

  lemma TextSliceLacks(literal: Bytes, q: nat, a: nat, b: nat)
    requires Ascii(literal) && literal != [] && a <= b <= q + |literal|
    requires b < q + |literal| || b - a < |literal|
    ensures !OccursFolded(literal, Decoded(Wide(Padded(literal, q))[2 * a..2 * b]))
  {
    var t := Padded(literal, q);
    WideSlice(t, a, b);
    DecodedWide(t[a..b]);
    SliceLacksLiteral(literal, q, a, b);
  }

  // ----- Odd offsets -----

  /** A byte and the text as UTF-16, which puts every pair between two characters. */
  function Shift(literal: Bytes): Bytes {
    [0x80] + Wide(literal)
  }

  lemma ShiftStands(literal: Bytes)
    ensures StandsWideAt(literal, Shift(literal), 1)
  {
    WideSpells([0x80], literal);
    SpeltStands(Shift(literal), 1, literal);
  }

  /** From the position on, every pair is a code point above ASCII, or a zero. */
  predicate ShiftedFrom(data: Bytes, i: nat)
    decreases |data| - i
  {
    i + 1 >= |data| || ((data[i] == 0 || data[i] >= 0x80) && data[i + 1] < 0x80 && ShiftedFrom(data, i + 2))
  }

  lemma {:induction false} WideIsShifted(p: Bytes, b: Byte, t: Bytes)
    requires Ascii(t) && (b == 0 || b >= 0x80)
    ensures ShiftedFrom(p + [b] + Wide(t), |p|)
    decreases t
  {
    if t != [] {
      var q := p + [b, t[0]];
      assert p + [b] + Wide(t) == q + [0] + Wide(t[1..]);
      WideIsShifted(q, 0, t[1..]);
    }
  }

  lemma {:induction false} ShiftedLater(data: Bytes, i: nat, n: nat)
    requires ShiftedFrom(data, i)
    ensures ShiftedFrom(data, i + 2 * n)
    decreases n
  {
    if n > 0 && i + 1 < |data| { ShiftedLater(data, i + 2, n - 1); }
  }

  lemma {:induction false} ShiftedSlice(file: Bytes, lo: nat, hi: nat, i: nat)
    requires lo <= hi <= |file| && ShiftedFrom(file, lo + i)
    ensures ShiftedFrom(file[lo..hi], i)
    decreases |file| - i
  {
    if i + 1 < hi - lo { ShiftedSlice(file, lo, hi, i + 2); }
  }

  predicate ZeroOrHigh(s: seq<int>) {
    forall j :: 0 <= j < |s| ==> s[j] == 0 || s[j] >= 0x80
  }

  lemma {:induction false} ShiftedPoints(data: Bytes, i: nat)
    requires ShiftedFrom(data, i)
    ensures ZeroOrHigh(Points(data, i))
    decreases |data| - i
  {
    if i + 1 < |data| {
      assert Unit(data, i) < 0x8000;
      ShiftedPoints(data, i + 2);
    }
  }

  lemma Utf8IsHigh(c: CodePoint)
    requires c == 0 || c >= 0x80
    ensures ZeroOrHigh(Utf8(c))
  {}

  lemma {:induction false} HighEncodes(t: seq<CodePoint>)
    requires ZeroOrHigh(t)
    ensures ZeroOrHigh(Encode(t))
  {
    if t != [] {
      Utf8IsHigh(t[0]);
      HighEncodes(t[1..]);
    }
  }

  lemma LacksOther(literal: Bytes, s: Bytes, j: nat)
    requires ZeroOrHigh(s) && j < |literal| && 0 < literal[j] < 0x80
    ensures !OccursFolded(literal, s)
  {
    forall i | 0 <= i <= |s| ensures !OccursAt(Fold(literal), Fold(s), i) {
      if i + |literal| <= |s| {
        assert Fold(s)[i..i + |literal|][j] == Lower(s[i + j]);
      }
    }
  }

  /** From a position on, the bytes are zeros. */
  ghost predicate ZerosFrom(data: Bytes, i: nat) {
    forall j :: i <= j < |data| ==> data[j] == 0
  }

  lemma {:induction false} ZerosDecode(data: Bytes, i: nat)
    requires ZerosFrom(data, i) && i <= |data|
    ensures |Encode(Points(data, i))| == (|data| - i) / 2
    decreases |data| - i
  {
    if i + 1 < |data| {
      AsciiPoint(data, i);
      EncodeAscii(data[i], Points(data, i + 2));
      ZerosDecode(data, i + 2);
    }
  }

  /** Too few zeros after a code point above ASCII. */
  lemma LacksZeros(literal: Bytes, s: Bytes, head: nat)
    requires literal != [] && ZerosFrom(literal, 0) && head <= |s| < head + |literal|
    requires forall j :: 0 <= j < head ==> s[j] >= 0x80
    ensures !OccursFolded(literal, s)
  {
    forall i | 0 <= i <= |s| ensures !OccursAt(Fold(literal), Fold(s), i) {
      if i + |literal| <= |s| {
        assert Fold(s)[i..i + |literal|][0] == Lower(s[i]);
      }
    }
  }

  /** At an odd offset every text is missed in some file. */
  lemma OddOffsetIsMissed(literal: Bytes, size: nat)
    requires Ascii(literal) && literal != [] && size > 0 && size % 2 == 0
    ensures MissedAt(literal, Chunks(Shift(literal), size), 1, size)
  {
    var chunks := Chunks(Shift(literal), size);
    ChunksAreReads(Shift(literal), size);
    ReadsAreEven(chunks, size);
    ShiftStands(literal);
    forall k | 0 <= k < |chunks| ensures !OccursFolded(literal, Decoded(Window(chunks, k))) {
      ShiftWindowLacks(literal, chunks, k);
    }
  }

  lemma ShiftWindowLacks(literal: Bytes, chunks: seq<Bytes>, k: nat)
    requires Ascii(literal) && literal != [] && EvenChunks(chunks) && k < |chunks| && Flatten(chunks) == Shift(literal)
    ensures !OccursFolded(literal, Decoded(Window(chunks, k)))
  {
    var a := WindowFromEven(chunks, k);
    if j :| 0 <= j < |literal| && literal[j] != 0 {
      OtherSliceLacks(literal, a, |Flatten(chunks[..k + 1])|, Window(chunks, k), j);
    } else {
      ZeroSliceLacks(literal, a, |Flatten(chunks[..k + 1])|, Window(chunks, k));
    }
  }

  lemma OtherSliceLacks(literal: Bytes, a: nat, hi: nat, data: Bytes, j: nat)
    requires Ascii(literal) && 2 * a <= hi <= |Shift(literal)| && data == Shift(literal)[2 * a..hi]
    requires j < |literal| && literal[j] != 0
    ensures !OccursFolded(literal, Decoded(data))
  {
    WideIsShifted([], 0x80, literal);
    assert [] + [0x80] + Wide(literal) == Shift(literal);
    ShiftedLater(Shift(literal), 0, a);
    ShiftedSlice(Shift(literal), 2 * a, hi, 0);
    ShiftedPoints(data, 0);
    HighEncodes(Points(data, 0));
    LacksOther(literal, Decoded(data), j);
  }

  lemma {:induction false} WideZeros(t: Bytes)
    requires ZerosFrom(t, 0)
    ensures ZerosFrom(Wide(t), 0)
  {
    if t != [] { WideZeros(t[1..]); }
  }

  lemma FirstPair(data: Bytes)
    requires |data| >= 2 && data[0] == 0x80 && data[1] == 0
    ensures Decoded(data) == [0xC2, 0x80] + Encode(Points(data, 2))
  {
    assert Unit(data, 0) == 0x80;
    assert Points(data, 0) == [0x80] + Points(data, 2);
    assert ([0x80] + Points(data, 2))[1..] == Points(data, 2);
    assert Utf8(0x80) == [0xC2, 0x80];
  }

  lemma ZeroSliceLacks(literal: Bytes, a: nat, hi: nat, data: Bytes)
    requires literal != [] && ZerosFrom(literal, 0)
    requires 2 * a <= hi <= |Shift(literal)| && data == Shift(literal)[2 * a..hi]
    ensures !OccursFolded(literal, Decoded(data))
  {
    WideZeros(literal);
    assert ZerosFrom(Shift(literal), 1);
    if a == 0 && |data| >= 2 {
      FirstPair(data);
      ZerosDecode(data, 2);
      LacksZeros(literal, Decoded(data), 2);
    } else if |data| >= 2 {
      ZerosDecode(data, 0);
      LacksZeros(literal, Decoded(data), 0);
    } else {
      assert Decoded(data) == [];
      LacksZeros(literal, Decoded(data), 0);
    }
  }
}
