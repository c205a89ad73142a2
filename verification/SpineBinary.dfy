/** The header of a binary skeleton: seven-bit-group integers, strings, and the version test. */
module SpineBinary {
  import opened Wrappers

  type Byte = b: int | 0 <= b < 256
  type Bytes = seq<Byte>
  type Word = w: int | 0 <= w < 0x1_0000_0000

  const INT_MAX := 0x7fff_ffff

  predicate Continues(b: Byte) { b >= 128 }

  function Group(b: Byte): nat { b % 128 }

  /** Two to the power of `7 * i`: what shifting group `i` into place multiplies it by. */
  function Place(i: nat): nat
    requires i <= 5
  {
    if i == 0 then 1
    else if i == 1 then 0x80
    else if i == 2 then 0x4000
    else if i == 3 then 0x20_0000
    else if i == 4 then 0x1000_0000
    else 0x8_0000_0000
  }

  /** The number whose seven-bit groups, least significant first, are those of the `n` bytes. */
  function Number(data: Bytes, start: nat, n: nat): nat
    requires start + n <= |data|
    decreases n
  {
    if n == 0 then 0 else Group(data[start]) + 128 * Number(data, start + 1, n - 1)
  }

  /** A group added at its place extends the number. */
  lemma {:induction false} NextGroup(data: Bytes, start: nat, i: nat)
    requires i < 5 && start + i < |data|
    ensures Number(data, start, i + 1) == Number(data, start, i) + Group(data[start + i]) * Place(i)
    decreases i
  {
    var g := Group(data[start + i]);
    if i == 0 {
      assert Number(data, start + 1, 0) == 0;
    } else {
      NextGroup(data, start + 1, i - 1);
      assert 128 * (g * Place(i - 1)) == g * Place(i) by {
        if i == 1 {} else if i == 2 {} else if i == 3 {} else {}
      }
    }
  }

  /** `n` bytes from `start` on are one integer: all but the last continue. */
  predicate IsVarint(data: Bytes, start: nat, n: nat) {
    && 1 <= n <= 5 && start + n <= |data|
    && (forall j :: start <= j < start + n - 1 ==> Continues(data[j]))
    && !Continues(data[start + n - 1])
  }

  /** Reads an integer at the cursor. The groups occupy different bits, so the source's bitwise or is a sum,
      and the 32-bit word drops what is shifted out of it. It succeeds exactly when an integer of at most five
      bytes starts there; the cursor moves past the bytes read and never past the end. */
  method ReadVarint(data: Bytes, start: nat) returns (ok: bool, cursor: nat, value: Word)
    requires start <= |data|
    ensures start <= cursor <= |data|
    ensures ok ==> IsVarint(data, start, cursor - start)
    ensures ok ==> value == Number(data, start, cursor - start) % 0x1_0000_0000
    ensures !ok ==> forall n: nat :: !IsVarint(data, start, n)
  {
    ok, cursor, value := false, start, 0;
    for i := 0 to 5
      invariant cursor == start + i <= |data|
      invariant forall j :: start <= j < cursor ==> Continues(data[j])
      invariant value == Number(data, start, i) % 0x1_0000_0000
    {
      if cursor == |data| {
        NoVarint(data, start, i);
        return;
      }
      var b := data[cursor];
      cursor := cursor + 1;
      NextGroup(data, start, i);
      WordSum(Number(data, start, i), Group(b) * Place(i));
      value := (value + Group(b) * Place(i)) % 0x1_0000_0000;
      if !Continues(b) { return true, cursor, value; }
    }
    NoVarint(data, start, 5);
  }

  lemma WordSum(x: nat, y: nat)
    ensures (x % 0x1_0000_0000 + y) % 0x1_0000_0000 == (x + y) % 0x1_0000_0000
  {}

  lemma NoVarint(data: Bytes, start: nat, i: nat)
    requires start + i <= |data| && (i == 5 || start + i == |data|)
    requires forall j :: start <= j < start + i ==> Continues(data[j])
    ensures forall n: nat :: !IsVarint(data, start, n)
  {}

  // ----- Writing -----

  /** The shortest seven-bit-group encoding. */
  function EncodeVarint(v: nat): Bytes {
    if v < 128 then [v] else [v % 128 + 128] + EncodeVarint(v / 128)
  }

  predicate HasAt(data: Bytes, start: nat, part: Bytes) {
    start + |part| <= |data| && data[start..start + |part|] == part
  }

  lemma BytesAt(data: Bytes, start: nat, part: Bytes)
    requires HasAt(data, start, part)
    ensures forall j :: 0 <= j < |part| ==> data[start + j] == part[j]
  {
    forall j | 0 <= j < |part| ensures data[start + j] == part[j] {
      assert data[start..start + |part|][j] == part[j];
    }
  }

  /** The encoding is one integer: only its last byte does not continue. */
  lemma {:induction false} EncodingEnds(v: nat)
    ensures var e := EncodeVarint(v);
            && |e| >= 1 && !Continues(e[|e| - 1])
            && forall j :: 0 <= j < |e| - 1 ==> Continues(e[j])
  {
    if v >= 128 { EncodingEnds(v / 128); }
  }

  /** A number below the place of group `k` takes at most `k` bytes. */
  lemma {:induction false} EncodingLength(v: nat, k: nat)
    requires 1 <= k <= 5 && v < Place(k)
    ensures |EncodeVarint(v)| <= k
  {
    if v >= 128 { EncodingLength(v / 128, k - 1); }
  }

  lemma {:induction false} EncodingNumber(data: Bytes, start: nat, v: nat)
    requires HasAt(data, start, EncodeVarint(v))
    ensures Number(data, start, |EncodeVarint(v)|) == v
    decreases v
  {
    var e := EncodeVarint(v);
    BytesAt(data, start, e);
    assert data[start + 0] == e[0];
    if v < 128 {
      assert Number(data, start + 1, 0) == 0;
    } else {
      assert e[1..] == EncodeVarint(v / 128);
      assert data[start + 1..start + |e|] == data[start..start + |e|][1..] == e[1..];
      EncodingNumber(data, start + 1, v / 128);
    }
  }

  /** Every 32-bit value reads back from its encoding, wherever that is in the data, using exactly its bytes. */
  lemma VarintReadsBack(data: Bytes, start: nat, v: Word)
    requires HasAt(data, start, EncodeVarint(v))
    ensures IsVarint(data, start, |EncodeVarint(v)|)
    ensures Number(data, start, |EncodeVarint(v)|) % 0x1_0000_0000 == v
  {
    var e := EncodeVarint(v);
    EncodingEnds(v);
    EncodingLength(v, 5);
    EncodingNumber(data, start, v);
    BytesAt(data, start, e);
    forall j | start <= j < start + |e| - 1 ensures Continues(data[j]) {
      assert data[start + (j - start)] == e[j - start];
    }
  }

  // ----- Strings -----

  /** A string in the data, or the null string. */
  datatype View = Null | View(offset: nat, size: nat)

  /** The number of bytes of the integer at the position, or zero if there is none. */
  function VarintLength(data: Bytes, start: nat): (n: nat)
    ensures n > 0 ==> IsVarint(data, start, n)
    ensures n == 0 ==> forall m: nat :: !IsVarint(data, start, m)
  {
    if IsVarint(data, start, 1) then 1
    else if IsVarint(data, start, 2) then 2
    else if IsVarint(data, start, 3) then 3
    else if IsVarint(data, start, 4) then 4
    else if IsVarint(data, start, 5) then 5
    else 0
  }

  lemma VarintUnique(data: Bytes, start: nat, m: nat, n: nat)
    requires IsVarint(data, start, m) && IsVarint(data, start, n)
    ensures m == n
  {
    var shorter := if m < n then m else n;
    assert !Continues(data[start + shorter - 1]);
  }

  /** The string at the position and the position after it. */
  function StringAt(data: Bytes, start: nat): Option<(View, nat)> {
    var n := VarintLength(data, start);
    if n == 0 then None
    else
      var length := Number(data, start, n) % 0x1_0000_0000;
      var cursor := start + n;
      if length == 0 then Some((Null, cursor))
      else if length - 1 > |data| - cursor then None
      else Some((View(cursor, length - 1), cursor + length - 1))
  }

  /** Reads a string at the cursor; for any data the cursor stays within it. */
  method ReadBinaryStringView(data: Bytes, start: nat) returns (ok: bool, cursor: nat, view: View)
    requires start <= |data|
    ensures start <= cursor <= |data|
    ensures StringAt(data, start) == if ok then Some((view, cursor)) else None
  {
    var length: Word;
    view := Null;
    ok, cursor, length := ReadVarint(data, start);
    if !ok { return; }
    VarintUnique(data, start, cursor - start, VarintLength(data, start));
    if length == 0 { return; }
    if length - 1 > |data| - cursor { return false, cursor, Null; }
    view, cursor := View(cursor, length - 1), cursor + (length - 1);
  }

  const VERSION_PREFIX: Bytes := [0x33, 0x2e, 0x38, 0x2e]

  /** The second string of the header starts with "3.8.". */
  predicate DeclaresSpine38(data: Bytes) {
    && 0 < |data| <= INT_MAX
    && StringAt(data, 0).Some?
    && var second := StringAt(data, StringAt(data, 0).value.1);
    && second.Some? && second.value.0.View? && second.value.0.size >= 4
    && HasAt(data, second.value.0.offset, VERSION_PREFIX)
  }

  method SkeletonDeclaresSpine38(data: Bytes) returns (declares: bool)
    ensures declares == DeclaresSpine38(data)
  {
    if |data| == 0 || |data| > INT_MAX { return false; }
    var ok, cursor, view := ReadBinaryStringView(data, 0);
    if !ok { return false; }
    ok, cursor, view := ReadBinaryStringView(data, cursor);
    if !ok { return false; }
    declares := view.View? && view.size >= 4 && HasAt(data, view.offset, VERSION_PREFIX);
  }

  function EncodeString(text: Option<Bytes>): Bytes {
    if text.None? then EncodeVarint(0) else EncodeVarint(|text.value| + 1) + text.value
  }

  /** A string written as its length plus one and its bytes reads back as the same span. */
  lemma StringReadsBack(data: Bytes, start: nat, text: Option<Bytes>)
    requires HasAt(data, start, EncodeString(text))
    requires text.Some? ==> |text.value| + 1 < 0x1_0000_0000
    ensures var r := StringAt(data, start);
            && r.Some? && r.value.1 == start + |EncodeString(text)|
            && (text.None? <==> r.value.0.Null?)
            && (text.Some? ==> r.value.0.size == |text.value| && HasAt(data, r.value.0.offset, text.value))
  {
    var v := if text.None? then 0 else |text.value| + 1;
    var e, n := EncodeVarint(v), |EncodeVarint(v)|;
    var all := EncodeString(text);
    assert all[..n] == e;
    assert data[start..start + n] == data[start..start + |all|][..n];
    VarintReadsBack(data, start, v);
    VarintUnique(data, start, n, VarintLength(data, start));
    if text.Some? {
      assert all[n..] == text.value;
      assert data[start + n..start + |all|] == data[start..start + |all|][n..];
    }
  }

  /** A skeleton that starts with two strings declares version 3.8 exactly when the second starts so. */
  lemma HeaderIsRead(hash: Option<Bytes>, version: Option<Bytes>, rest: Bytes)
    requires hash.Some? ==> |hash.value| < 0xffff_ffff
    requires version.Some? ==> |version.value| < 0xffff_ffff
    ensures var data := EncodeString(hash) + EncodeString(version) + rest;
            DeclaresSpine38(data)
            <==> |data| <= 0x7fff_ffff && version.Some? && [0x33, 0x2e, 0x38, 0x2e] <= version.value
  {
    var first, second := EncodeString(hash), EncodeString(version);
    var data := first + second + rest;
    assert HasAt(data, 0, first) by { assert data[0..0 + |first|] == first; }
    assert HasAt(data, |first|, second) by { assert data[|first|..|first| + |second|] == second; }
    StringReadsBack(data, 0, hash);
    StringReadsBack(data, |first|, version);
    assert |data| > 0;
    if |data| <= INT_MAX { HeaderTest(data, |first|, StringAt(data, |first|).value.0, version); }
  }

  lemma HeaderTest(data: Bytes, cursor: nat, view: View, version: Option<Bytes>)
    requires 0 < |data| <= INT_MAX && StringAt(data, 0).Some? && StringAt(data, 0).value.1 == cursor
    requires StringAt(data, cursor).Some? && StringAt(data, cursor).value.0 == view
    requires (version.None? <==> view.Null?)
    requires version.Some? ==> view.size == |version.value| && HasAt(data, view.offset, version.value)
    ensures DeclaresSpine38(data) <==> version.Some? && VERSION_PREFIX <= version.value
  {
    if version.Some? { PrefixAt(data, view.offset, version.value, VERSION_PREFIX); }
  }

  lemma PrefixAt(data: Bytes, start: nat, whole: Bytes, part: Bytes)
    requires HasAt(data, start, whole)
    ensures part <= whole <==> |part| <= |whole| && HasAt(data, start, part)
  {
    if |part| <= |whole| {
      assert data[start..start + |part|] == data[start..start + |whole|][..|part|];
    }
  }
}
