/** Searching a file chunk by chunk, every chunk together with the last 512 bytes before it. */
module ChunkedSearch {

  const OVERLAP := 512

  type Byte = b: int | 0 <= b < 256
  type Bytes = seq<Byte>

  function Lower(b: Byte): Byte {
    if 65 <= b <= 90 then b + 32 else b
  }

  function Fold(s: Bytes): (f: Bytes)
    ensures |f| == |s|
    ensures forall i :: 0 <= i < |s| ==> f[i] == Lower(s[i])
  {
    seq(|s|, i requires 0 <= i < |s| => Lower(s[i]))
  }

  predicate OccursAt(literal: Bytes, data: Bytes, i: nat) {
    i + |literal| <= |data| && data[i..i + |literal|] == literal
  }

  predicate Occurs(literal: Bytes, data: Bytes) {
    exists i :: 0 <= i <= |data| && OccursAt(literal, data, i)
  }

  /** `literal.lower() in data.lower()` */
  predicate OccursFolded(literal: Bytes, data: Bytes) {
    Occurs(Fold(literal), Fold(data))
  }

  /** The same byte, or the same letter in the other case. */
  predicate SameLetter(a: Byte, b: Byte) {
    a == b || ('A' as int <= a <= 'Z' as int && b == a + 32) || ('A' as int <= b <= 'Z' as int && a == b + 32)
  }

  /** The literal stands at `i`, letter by letter, whatever the case. */
  predicate ReadsAt(literal: Bytes, data: Bytes, i: nat) {
    i + |literal| <= |data| && forall j :: 0 <= j < |literal| ==> SameLetter(literal[j], data[i + j])
  }

  lemma SameLower(a: Byte, b: Byte)
    ensures Lower(a) == Lower(b) <==> SameLetter(a, b)
  {}

  lemma OccursAtMeaning(literal: Bytes, data: Bytes, i: nat)
    ensures OccursAt(Fold(literal), Fold(data), i) <==> ReadsAt(literal, data, i)
  {
    if i + |literal| <= |data| {
      var slice, folded := Fold(data)[i..i + |literal|], Fold(literal);
      forall j | 0 <= j < |literal| ensures slice[j] == folded[j] <==> SameLetter(literal[j], data[i + j]) {
        SameLower(literal[j], data[i + j]);
      }
      assert slice == folded <==> forall j :: 0 <= j < |literal| ==> slice[j] == folded[j];
      if ReadsAt(literal, data, i) {
        assert forall j :: 0 <= j < |literal| ==> slice[j] == folded[j];
      } else {
        var j :| 0 <= j < |literal| && !SameLetter(literal[j], data[i + j]);
        assert slice[j] != folded[j];
      }
    }
  }

  /** What is searched for is the literal, letter by letter, whatever the case. */
  lemma OccursFoldedMeaning(literal: Bytes, data: Bytes)
    ensures OccursFolded(literal, data) <==> exists i: nat :: ReadsAt(literal, data, i)
  {
    if OccursFolded(literal, data) {
      var i :| 0 <= i <= |Fold(data)| && OccursAt(Fold(literal), Fold(data), i);
      OccursAtMeaning(literal, data, i);
    }
    if i: nat :| ReadsAt(literal, data, i) { OccursAtMeaning(literal, data, i); }
  }

  function Flatten(chunks: seq<Bytes>): Bytes {
    if chunks == [] then [] else Flatten(chunks[..|chunks| - 1]) + chunks[|chunks| - 1]
  }

  function LastBytes(s: Bytes): Bytes {
    if |s| <= OVERLAP then s else s[|s| - OVERLAP..]
  }

  /** What is searched with the k-th chunk. */
  function Window(chunks: seq<Bytes>, k: nat): Bytes
    requires k < |chunks|
  {
    LastBytes(Flatten(chunks[..k])) + chunks[k]
  }

  predicate FoundInWindows(chunks: seq<Bytes>, literal: Bytes) {
    exists k :: 0 <= k < |chunks| && OccursFolded(literal, Window(chunks, k))
  }

  // ----- Windows are slices of the file -----

  lemma FlattenStep(chunks: seq<Bytes>, k: nat)
    requires k < |chunks|
    ensures Flatten(chunks[..k + 1]) == Flatten(chunks[..k]) + chunks[k]
  {
    assert chunks[..k + 1][..k] == chunks[..k];
  }

  lemma {:induction false} FlattenPrefix(chunks: seq<Bytes>, k: nat)
    requires k <= |chunks|
    ensures Flatten(chunks[..k]) <= Flatten(chunks)
    decreases |chunks| - k
  {
    if k == |chunks| {
      assert chunks[..k] == chunks;
    } else {
      FlattenStep(chunks, k);
      FlattenPrefix(chunks, k + 1);
    }
  }

  function WindowStart(chunks: seq<Bytes>, k: nat): nat
    requires k <= |chunks|
  {
    var n := |Flatten(chunks[..k])|;
    if n <= OVERLAP then 0 else n - OVERLAP
  }

  /** The k-th window is the file from at most 512 bytes before the chunk to the end of the chunk. */
  lemma WindowIsSlice(chunks: seq<Bytes>, k: nat)
    requires k < |chunks|
    ensures WindowStart(chunks, k) + |Window(chunks, k)| == |Flatten(chunks[..k + 1])| <= |Flatten(chunks)|
    ensures Flatten(chunks)[WindowStart(chunks, k)..|Flatten(chunks[..k + 1])|] == Window(chunks, k)
  {
    FlattenStep(chunks, k);
    FlattenPrefix(chunks, k + 1);
    var whole, upTo := Flatten(chunks), Flatten(chunks[..k + 1]);
    assert whole[..|upTo|] == upTo;
    assert upTo[WindowStart(chunks, k)..] == Window(chunks, k);
    assert whole[WindowStart(chunks, k)..|upTo|] == whole[..|upTo|][WindowStart(chunks, k)..];
  }

  lemma OccursInSlice(literal: Bytes, whole: Bytes, lo: nat, hi: nat, i: nat)
    requires lo <= i && i + |literal| <= hi <= |whole|
    ensures OccursAt(Fold(literal), Fold(whole), i) <==> OccursAt(Fold(literal), Fold(whole[lo..hi]), i - lo)
  {
    var a, b := Fold(whole)[i..i + |literal|], Fold(whole[lo..hi])[i - lo..i - lo + |literal|];
    assert forall j :: 0 <= j < |literal| ==> a[j] == b[j];
    assert a == b;
  }

  /** The chunk in which the given position of the file ends. */
  lemma {:induction false} ChunkEndingAfter(chunks: seq<Bytes>, e: nat) returns (k: nat)
    requires 0 < e <= |Flatten(chunks)|
    ensures k < |chunks| && |Flatten(chunks[..k])| < e <= |Flatten(chunks[..k + 1])|
  {
    var before := chunks[..|chunks| - 1];
    if |Flatten(before)| < e {
      k := |before|;
      assert chunks[..k + 1] == chunks;
    } else {
      k := ChunkEndingAfter(before, e);
      assert before[..k] == chunks[..k] && before[..k + 1] == chunks[..k + 1];
    }
  }

  lemma FoundWhereItOccurs(chunks: seq<Bytes>, literal: Bytes)
    requires 1 <= |literal| <= OVERLAP + 1 && OccursFolded(literal, Flatten(chunks))
    ensures FoundInWindows(chunks, literal)
  {
    var whole := Flatten(chunks);
    var i :| 0 <= i <= |Fold(whole)| && OccursAt(Fold(literal), Fold(whole), i);
    var k := ChunkEndingAfter(chunks, i + |literal|);
    WindowIsSlice(chunks, k);
    var lo := WindowStart(chunks, k);
    OccursInSlice(literal, whole, lo, |Flatten(chunks[..k + 1])|, i);
    assert OccursAt(Fold(literal), Fold(Window(chunks, k)), i - lo);
    assert OccursFolded(literal, Window(chunks, k));
  }

  lemma OccursWhereFound(chunks: seq<Bytes>, literal: Bytes)
    requires FoundInWindows(chunks, literal)
    ensures OccursFolded(literal, Flatten(chunks))
  {
    var k :| 0 <= k < |chunks| && OccursFolded(literal, Window(chunks, k));
    var window := Fold(Window(chunks, k));
    var j :| 0 <= j <= |window| && OccursAt(Fold(literal), window, j);
    WindowIsSlice(chunks, k);
    var i := WindowStart(chunks, k) + j;
    OccursInSlice(literal, Flatten(chunks), WindowStart(chunks, k), |Flatten(chunks[..k + 1])|, i);
    assert OccursAt(Fold(literal), Fold(Flatten(chunks)), i);
  }

  // ----- Reads of a fixed size -----

  /** The chunks that reads of `size` bytes give: all but the last are full, and none is empty. */
  ghost predicate FixedReads(chunks: seq<Bytes>, size: nat) {
    && (forall k :: 0 <= k < |chunks| ==> 1 <= |chunks[k]| <= size)
    && (forall k :: 0 <= k < |chunks| - 1 ==> |chunks[k]| == size)
  }

  /** A file read `size` bytes at a time. */
  function Chunks(file: Bytes, size: nat): seq<Bytes>
    requires size > 0
    decreases |file|
  {
    if file == [] then []
    else if |file| <= size then [file]
    else [file[..size]] + Chunks(file[size..], size)
  }

  lemma {:induction false} FlattenFirst(chunk: Bytes, chunks: seq<Bytes>)
    ensures Flatten([chunk] + chunks) == chunk + Flatten(chunks)
  {
    var all := [chunk] + chunks;
    if chunks == [] {
      assert all[..0] == [];
    } else {
      assert all[..|all| - 1] == [chunk] + chunks[..|chunks| - 1];
      FlattenFirst(chunk, chunks[..|chunks| - 1]);
    }
  }

  lemma {:induction false} ChunksAreReads(file: Bytes, size: nat)
    requires size > 0
    ensures Flatten(Chunks(file, size)) == file && FixedReads(Chunks(file, size), size)
    decreases |file|
  {
    if file != [] {
      if |file| <= size {
        FlattenFirst(file, []);
        assert [file] + [] == [file];
      } else {
        ChunksAreReads(file[size..], size);
        FlattenFirst(file[..size], Chunks(file[size..], size));
        assert file == file[..size] + file[size..];
      }
    }
  }

  lemma {:induction false} FullBefore(chunks: seq<Bytes>, size: nat, k: nat)
    requires FixedReads(chunks, size) && k < |chunks|
    ensures |Flatten(chunks[..k])| == k * size
  {
    if k > 0 {
      FullBefore(chunks, size, k - 1);
      FlattenStep(chunks, k - 1);
      assert (k - 1) * size + size == k * size;
    }
  }

  lemma Grows(a: nat, b: nat, size: nat)
    requires a <= b
    ensures a * size <= b * size
  {}

  /** Two ways to count full reads and a last one agree. */
  lemma SameReads(a: nat, m: nat, size: nat, last: nat, rest: nat)
    requires 1 <= last <= size && 1 <= rest <= size && a * size + last == m * size + rest
    ensures a == m
  {
    if a < m { Grows(a + 1, m, size); }
    if m < a { Grows(m + 1, a, size); }
  }

  /** If the length is that of `m` full reads and a shorter rest, the last chunk is the rest. */
  lemma RestIsLast(chunks: seq<Bytes>, size: nat, m: nat, rest: nat)
    requires FixedReads(chunks, size) && |Flatten(chunks)| == m * size + rest && 1 <= rest <= size
    ensures |chunks| > 0 && |Flatten(chunks[..|chunks| - 1])| == m * size
  {
    assert chunks != [];
    var k := |chunks| - 1;
    FullBefore(chunks, size, k);
    FlattenStep(chunks, k);
    assert chunks[..k + 1] == chunks;
    SameReads(k, m, size, |chunks[k]|, rest);
  }

  // ----- Which literals the scan finds -----

  /** However the file is split, the literal is reported exactly when the whole file contains it. */
  ghost predicate Reliable(literal: Bytes) {
    forall chunks: seq<Bytes> :: FoundInWindows(chunks, literal) <==> OccursFolded(literal, Flatten(chunks))
  }

  /** The same for reads of one size. */
  ghost predicate ReliableForReads(literal: Bytes, size: nat) {
    forall chunks: seq<Bytes> :: FixedReads(chunks, size) ==>
      (FoundInWindows(chunks, literal) <==> OccursFolded(literal, Flatten(chunks)))
  }

  /** The overlap serves exactly the literals of 1 to 513 bytes, for every split and for reads of any one size. */
  lemma ReliableIffShort(literal: Bytes, size: nat)
    requires size > 0
    ensures Reliable(literal) <==> 1 <= |literal| <= OVERLAP + 1
    ensures ReliableForReads(literal, size) <==> 1 <= |literal| <= OVERLAP + 1
  {
    if 1 <= |literal| <= OVERLAP + 1 {
      forall chunks: seq<Bytes>
        ensures FoundInWindows(chunks, literal) <==> OccursFolded(literal, Flatten(chunks))
      {
        if FoundInWindows(chunks, literal) { OccursWhereFound(chunks, literal); }
        if OccursFolded(literal, Flatten(chunks)) { FoundWhereItOccurs(chunks, literal); }
      }
    } else if literal == [] {
      assert OccursAt(Fold(literal), Fold(Flatten([])), 0);
      assert FixedReads([], size) && !FoundInWindows([], literal);
    } else {
      LongLiteralIsMissed(literal, size);
    }
  }

  /** A byte that the literal does not start with, in any case. */
  function Filler(literal: Bytes): Byte {
    if literal != [] && literal[0] == 0x20 then 0x2d else 0x20
  }

  function Padded(literal: Bytes, q: nat): Bytes {
    seq(q, _ => Filler(literal)) + literal
  }

  /** In a padded literal the literal occurs at the end only. */
  lemma OccursAtEndOnly(literal: Bytes, q: nat, i: nat)
    requires literal != []
    ensures OccursAt(Fold(literal), Fold(Padded(literal, q)), i) ==> i == q
  {
    var file := Fold(Padded(literal, q));
    assert forall j :: 0 <= j < q ==> file[j] == Filler(literal);
    if OccursAt(Fold(literal), file, i) {
      assert file[i] == file[i..i + |literal|][0] == Lower(literal[0]);
    }
  }

  lemma PaddedEndsWithLiteral(literal: Bytes, q: nat)
    ensures OccursFolded(literal, Padded(literal, q))
  {
    var file := Fold(Padded(literal, q));
    assert forall j :: 0 <= j < |literal| ==> file[q + j] == Fold(literal)[j];
    assert file[q..q + |literal|] == Fold(literal);
    assert OccursAt(Fold(literal), file, q);
  }

  /** A slice that does not reach the end of a padded literal, or is shorter than the literal, lacks it. */
  lemma SliceLacksLiteral(literal: Bytes, q: nat, lo: nat, hi: nat)
    requires literal != [] && lo <= hi <= q + |literal|
    requires hi < q + |literal| || hi - lo < |literal|
    ensures !OccursFolded(literal, Padded(literal, q)[lo..hi])
  {
    var file := Padded(literal, q);
    forall i | 0 <= i <= hi - lo ensures !OccursAt(Fold(literal), Fold(file[lo..hi]), i) {
      if i + |literal| <= hi - lo {
        OccursInSlice(literal, file, lo, hi, lo + i);
        OccursAtEndOnly(literal, q, lo + i);
      }
    }
  }

  /** Padding after which `n` bytes more fill reads of the size. */
  function PadLength(n: nat, size: nat): (q: nat)
    requires size > 0
    ensures q + n == n * size
  {
    Grows(1, size, n);
    n * size - n
  }

  /** A longer literal is missed by reads of any size when its last byte comes in a chunk of its own. */
  lemma LongLiteralIsMissed(literal: Bytes, size: nat)
    requires |literal| > OVERLAP + 1 && size > 0
    ensures var file := Padded(literal, PadLength(|literal| - 1, size));
            var chunks := Chunks(file, size);
            && FixedReads(chunks, size) && Flatten(chunks) == file
            && OccursFolded(literal, file) && !FoundInWindows(chunks, literal)
  {
    var q := PadLength(|literal| - 1, size);
    var chunks := Chunks(Padded(literal, q), size);
    ChunksAreReads(Padded(literal, q), size);
    RestIsLast(chunks, size, |literal| - 1, 1);
    PaddedEndsWithLiteral(literal, q);
    NoWindowHasLiteral(literal, q, chunks);
  }

  lemma NoWindowHasLiteral(literal: Bytes, q: nat, chunks: seq<Bytes>)
    requires |literal| > OVERLAP + 1 && |chunks| > 0 && Flatten(chunks) == Padded(literal, q)
    requires |Flatten(chunks[..|chunks| - 1])| == q + |literal| - 1
    ensures !FoundInWindows(chunks, literal)
  {
    forall k | 0 <= k < |chunks| ensures !OccursFolded(literal, Window(chunks, k)) {
      WindowLacksLiteral(literal, q, chunks, k);
    }
  }

  lemma WindowLacksLiteral(literal: Bytes, q: nat, chunks: seq<Bytes>, k: nat)
    requires |literal| > OVERLAP + 1 && k < |chunks| && Flatten(chunks) == Padded(literal, q)
    requires |Flatten(chunks[..|chunks| - 1])| == q + |literal| - 1
    ensures !OccursFolded(literal, Window(chunks, k))
  {
    WindowIsSlice(chunks, k);
    if k < |chunks| - 1 {
      EndsBefore(chunks, k, |chunks| - 1);
    } else {
      assert chunks[..k + 1] == chunks;
    }
    SliceLacksLiteral(literal, q, WindowStart(chunks, k), |Flatten(chunks[..k + 1])|);
  }

  lemma {:induction false} EndsBefore(chunks: seq<Bytes>, k: nat, m: nat)
    requires k < m <= |chunks|
    ensures |Flatten(chunks[..k + 1])| <= |Flatten(chunks[..m])|
  {
    if k + 1 < m {
      EndsBefore(chunks, k, m - 1);
      FlattenStep(chunks, m - 1);
    }
  }
}
