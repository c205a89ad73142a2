/** The streaming scan of an artifact: literal flags and pattern findings, chunk by chunk. */
module ArtifactScan {
  import opened ChunkedSearch
  import opened WideText

  /** A pattern match in a window, already classified. */
  datatype Hit = Hit(kind: string, start: nat, length: nat, attribution: string)

  datatype Finding = Finding(kind: string, length: nat, sha256: string, offset: nat, attribution: string)

  /** The pattern matcher only names bytes of the window. */
  ghost predicate InBounds(find: Bytes -> seq<Hit>) {
    forall window: Bytes, i :: 0 <= i < |find(window)| ==> find(window)[i].start + find(window)[i].length <= |window|
  }

  /** The finding is what the digest function says of the bytes it names. */
  ghost predicate NamesItsBytes(f: Finding, file: Bytes, digest: Bytes -> string) {
    f.offset + f.length <= |file| && f.sha256 == digest(file[f.offset..f.offset + f.length])
  }

  ghost predicate AllNameTheirBytes(findings: map<(string, nat, string), Finding>, file: Bytes,
                                    digest: Bytes -> string)
  {
    forall key :: key in findings ==>
      && NamesItsBytes(findings[key], file, digest)
      && key == KeyOf(findings[key])
  }

  predicate SomeOccurs(literals: seq<Bytes>, data: Bytes) {
    exists i :: 0 <= i < |literals| && OccursFolded(literals[i], data)
  }

  lemma GrownFileKeepsBytes(findings: map<(string, nat, string), Finding>, file: Bytes, chunk: Bytes,
                            digest: Bytes -> string)
    requires AllNameTheirBytes(findings, file, digest)
    ensures AllNameTheirBytes(findings, file + chunk, digest)
  {
    forall key | key in findings ensures NamesItsBytes(findings[key], file + chunk, digest) {
      var f := findings[key];
      assert (file + chunk)[f.offset..f.offset + f.length] == file[f.offset..f.offset + f.length];
    }
  }

  /** The finding of a match in a window that starts at `base`. */
  ghost predicate IsFindingOf(f: Finding, h: Hit, data: Bytes, base: nat, digest: Bytes -> string) {
    && h.start + h.length <= |data|
    && f.kind == h.kind && f.length == h.length && f.attribution == h.attribution
    && f.offset == base + h.start && f.sha256 == digest(data[h.start..h.start + h.length])
  }

  /** Every finding is that of a match in the window, unless it was there before. */
  ghost predicate NewFromHits(before: map<(string, nat, string), Finding>, after: map<(string, nat, string), Finding>,
                              hits: seq<Hit>, data: Bytes, base: nat, digest: Bytes -> string)
  {
    forall key :: key in after ==>
      || (key in before && after[key] == before[key])
      || exists i :: 0 <= i < |hits| && IsFindingOf(after[key], hits[i], data, base, digest)
  }

  lemma OneMoreHit(before: map<(string, nat, string), Finding>, mid: map<(string, nat, string), Finding>,
                   hits: seq<Hit>, data: Bytes, base: nat, digest: Bytes -> string, i: nat, f: Finding)
    requires NewFromHits(before, mid, hits, data, base, digest)
    requires i < |hits| && IsFindingOf(f, hits[i], data, base, digest)
    ensures NewFromHits(before, mid[KeyOf(f) := f], hits, data, base, digest)
  {}

  function KeyOf(f: Finding): (string, nat, string) { (f.kind, f.offset, f.sha256) }

  /** The first `n` matches are among the keys, at their offsets in the file. */
  ghost predicate HitsIn(hits: seq<Hit>, n: nat, data: Bytes, base: nat, digest: Bytes -> string,
                         keys: set<(string, nat, string)>)
    requires n <= |hits|
  {
    forall i :: 0 <= i < n ==>
      var h := hits[i];
      && h.start + h.length <= |data|
      && (h.kind, base + h.start, digest(data[h.start..h.start + h.length])) in keys
  }

  lemma HitsInMore(hits: seq<Hit>, n: nat, data: Bytes, base: nat, digest: Bytes -> string,
                   keys: set<(string, nat, string)>, f: Finding)
    requires n < |hits| && HitsIn(hits, n, data, base, digest, keys) && IsFindingOf(f, hits[n], data, base, digest)
    ensures HitsIn(hits, n + 1, data, base, digest, keys + {KeyOf(f)})
  {}

  lemma NamesMore(findings: map<(string, nat, string), Finding>, f: Finding, h: Hit, data: Bytes, base: nat,
                  file: Bytes, digest: Bytes -> string)
    requires base + |data| == |file| && file[base..] == data && AllNameTheirBytes(findings, file, digest)
    requires IsFindingOf(f, h, data, base, digest)
    ensures AllNameTheirBytes(findings[KeyOf(f) := f], file, digest)
  {
    assert file[base..][h.start..h.start + h.length] == file[f.offset..f.offset + f.length];
  }

  /** Adds the matches of one window, at their offsets in the file read so far. */
  method AddFindings(data: Bytes, base: nat, ghost file: Bytes, find: Bytes -> seq<Hit>, digest: Bytes -> string,
                     before: map<(string, nat, string), Finding>)
    returns (findings: map<(string, nat, string), Finding>)
    requires InBounds(find) && base + |data| == |file| && file[base..] == data
    requires AllNameTheirBytes(before, file, digest)
    ensures AllNameTheirBytes(findings, file, digest)
    ensures before.Keys <= findings.Keys
    ensures NewFromHits(before, findings, find(data), data, base, digest)
    ensures HitsIn(find(data), |find(data)|, data, base, digest, findings.Keys)
  {
    var hits := find(data);
    findings := before;
    for i := 0 to |hits|
      invariant AllNameTheirBytes(findings, file, digest)
      invariant before.Keys <= findings.Keys
      invariant NewFromHits(before, findings, hits, data, base, digest)
      invariant HitsIn(hits, i, data, base, digest, findings.Keys)
    {
      var h := hits[i];
      assert h == find(data)[i];
      var f := Finding(h.kind, h.length, digest(data[h.start..h.start + h.length]), base + h.start, h.attribution);
      NamesMore(findings, f, h, data, base, file, digest);
      OneMoreHit(before, findings, hits, data, base, digest, i, f);
      HitsInMore(hits, i, data, base, digest, findings.Keys, f);
      findings := findings[KeyOf(f) := f];
    }
  }

  /** Every match in the k-th window is among the findings, at its offset in the file. */
  ghost predicate HitsReported(chunks: seq<Bytes>, k: nat, find: Bytes -> seq<Hit>, digest: Bytes -> string,
                               keys: set<(string, nat, string)>)
    requires k < |chunks|
  {
    var data := Window(chunks, k);
    HitsIn(find(data), |find(data)|, data, WindowStart(chunks, k), digest, keys)
  }

  /** What is searched in a window: its bytes, or their decoding. */
  function Searched(data: Bytes, wide: bool): Bytes {
    if wide then Decoded(data) else data
  }

  predicate FoundBefore(chunks: seq<Bytes>, k: nat, literals: seq<Bytes>, wide: bool)
    requires k <= |chunks|
  {
    exists j :: 0 <= j < k && SomeOccurs(literals, Searched(Window(chunks, j), wide))
  }

  lemma FoundBeforeStep(chunks: seq<Bytes>, k: nat, literals: seq<Bytes>, wide: bool)
    requires k < |chunks|
    ensures FoundBefore(chunks, k + 1, literals, wide)
       <==> FoundBefore(chunks, k, literals, wide) || SomeOccurs(literals, Searched(Window(chunks, k), wide))
  {}

  /** The carried tail and the stream position stay what they stand for. */
  lemma CarryTail(chunks: seq<Bytes>, k: nat)
    requires k < |chunks|
    ensures var data := Window(chunks, k);
            && LastBytes(data) == LastBytes(Flatten(chunks[..k + 1]))
            && WindowStart(chunks, k) + |data| == |Flatten(chunks[..k + 1])|
            && Flatten(chunks[..k + 1])[WindowStart(chunks, k)..] == data
  {
    FlattenStep(chunks, k);
    TailOfAppend(Flatten(chunks[..k]), chunks[k]);
  }

  lemma TailOfAppend(s: Bytes, chunk: Bytes)
    ensures var data := LastBytes(s) + chunk;
            && LastBytes(data) == LastBytes(s + chunk) && |data| <= |s + chunk|
            && (s + chunk)[|s + chunk| - |data|..] == data
  {
    var data := LastBytes(s) + chunk;
    assert (s + chunk)[|s + chunk| - |data|..] == data;
    if |data| > OVERLAP {
      assert data[|data| - OVERLAP..] == (s + chunk)[|s + chunk| - OVERLAP..];
    }
  }

  function AsciiBytes(text: string): Bytes {
    seq(|text|, i requires 0 <= i < |text| => text[i] as int % 256)
  }

  const CREDENTIAL_BLOB: Bytes := AsciiBytes("credentialblob")

  lemma BlobBytes()
    ensures CREDENTIAL_BLOB
         == [0x63, 0x72, 0x65, 0x64, 0x65, 0x6e, 0x74, 0x69, 0x61, 0x6c, 0x62, 0x6c, 0x6f, 0x62]
  {
    var text := "credentialblob";
    assert |text| == 14 && text[..14] == text;
    assert AsciiBytes(text)[..7] == [0x63, 0x72, 0x65, 0x64, 0x65, 0x6e, 0x74];
    assert AsciiBytes(text)[7..] == [0x69, 0x61, 0x6c, 0x62, 0x6c, 0x6f, 0x62];
  }

  /** The findings are those of the first `k` windows: each names bytes of the file read so far and
      is that of a match, and every match is there. */
  ghost predicate FindingsOf(chunks: seq<Bytes>, k: nat, find: Bytes -> seq<Hit>, digest: Bytes -> string,
                             findings: map<(string, nat, string), Finding>)
    requires k <= |chunks|
  {
    && AllNameTheirBytes(findings, Flatten(chunks[..k]), digest)
    && (forall j :: 0 <= j < k ==> HitsReported(chunks, j, find, digest, findings.Keys))
    && FromHits(chunks, k, find, digest, findings)
  }

  /** The finding is that of a match in the k-th window. */
  ghost predicate FoundIn(chunks: seq<Bytes>, k: nat, find: Bytes -> seq<Hit>, digest: Bytes -> string, f: Finding)
    requires k < |chunks|
  {
    var data := Window(chunks, k);
    exists i :: 0 <= i < |find(data)| && IsFindingOf(f, find(data)[i], data, WindowStart(chunks, k), digest)
  }

  /** Every finding is that of a match in one of the first `k` windows. */
  ghost predicate FromHits(chunks: seq<Bytes>, k: nat, find: Bytes -> seq<Hit>, digest: Bytes -> string,
                           findings: map<(string, nat, string), Finding>)
    requires k <= |chunks|
  {
    forall key :: key in findings ==> exists j :: 0 <= j < k && FoundIn(chunks, j, find, digest, findings[key])
  }

  lemma FromHitsGrow(chunks: seq<Bytes>, k: nat, find: Bytes -> seq<Hit>, digest: Bytes -> string,
                     before: map<(string, nat, string), Finding>, after: map<(string, nat, string), Finding>)
    requires k < |chunks| && FromHits(chunks, k, find, digest, before)
    requires NewFromHits(before, after, find(Window(chunks, k)), Window(chunks, k), WindowStart(chunks, k), digest)
    ensures FromHits(chunks, k + 1, find, digest, after)
  {
    forall key | key in after ensures exists j :: 0 <= j < k + 1 && FoundIn(chunks, j, find, digest, after[key]) {
      if key in before && after[key] == before[key] {
        var j :| 0 <= j < k && FoundIn(chunks, j, find, digest, before[key]);
        assert FoundIn(chunks, j, find, digest, after[key]);
      } else {
        assert FoundIn(chunks, k, find, digest, after[key]);
      }
    }
  }

  /** The scan over any split of the file into chunks: the flags of the literals, as bytes and in the
      decoded windows, and the two tables of pattern findings. Every finding names bytes of the whole file
      and is that of a match in a window of its own pattern, and every such match is among them. */
  method ScanFile(chunks: seq<Bytes>, forbidden: seq<Bytes>, local: seq<Bytes>, findSecret: Bytes -> seq<Hit>,
                  findProse: Bytes -> seq<Hit>, digest: Bytes -> string)
    returns (forbiddenFound: bool, localFound: bool, blobFound: bool, forbiddenWide: bool, localWide: bool,
             secrets: map<(string, nat, string), Finding>, prose: map<(string, nat, string), Finding>)
    requires InBounds(findSecret) && InBounds(findProse)
    ensures forbiddenFound <==> exists i :: 0 <= i < |forbidden| && FoundInWindows(chunks, forbidden[i])
    ensures localFound <==> exists i :: 0 <= i < |local| && FoundInWindows(chunks, local[i])
    ensures AllShort(forbidden) ==> (forbiddenFound <==> SomeOccurs(forbidden, Flatten(chunks)))
    ensures AllShort(local) ==> (localFound <==> SomeOccurs(local, Flatten(chunks)))
    ensures blobFound <==> SomeOccurs([AsciiBytes("credentialblob")], Flatten(chunks))
    ensures forbiddenWide <==> exists i :: 0 <= i < |forbidden| && FoundDecoded(chunks, forbidden[i])
    ensures localWide <==> exists i :: 0 <= i < |local| && FoundDecoded(chunks, local[i])
    ensures EvenChunks(chunks) && SomeStandsWide(forbidden, Flatten(chunks)) ==> forbiddenWide
    ensures EvenChunks(chunks) && forbiddenWide ==> SomeOccurs(forbidden, Decoded(Flatten(chunks)))
    ensures EvenChunks(chunks) && SomeStandsWide(local, Flatten(chunks)) ==> localWide
    ensures EvenChunks(chunks) && localWide ==> SomeOccurs(local, Decoded(Flatten(chunks)))
    ensures AllNameTheirBytes(secrets, Flatten(chunks), digest) && AllNameTheirBytes(prose, Flatten(chunks), digest)
    ensures forall k :: 0 <= k < |chunks| ==> HitsReported(chunks, k, findSecret, digest, secrets.Keys)
    ensures forall k :: 0 <= k < |chunks| ==> HitsReported(chunks, k, findProse, digest, prose.Keys)
    ensures FromHits(chunks, |chunks|, findSecret, digest, secrets)
    ensures FromHits(chunks, |chunks|, findProse, digest, prose)
  {
    var tail: Bytes, position := [], 0;
    forbiddenFound, localFound, blobFound, secrets, prose := false, false, false, map[], map[];
    forbiddenWide, localWide := false, false;
    for k := 0 to |chunks|
      invariant position == |Flatten(chunks[..k])| && tail == LastBytes(Flatten(chunks[..k]))
      invariant forbiddenFound == FoundBefore(chunks, k, forbidden, false)
      invariant forbiddenWide == FoundBefore(chunks, k, forbidden, true)
      invariant localFound == FoundBefore(chunks, k, local, false)
      invariant localWide == FoundBefore(chunks, k, local, true)
      invariant blobFound == FoundBefore(chunks, k, [CREDENTIAL_BLOB], false)
      invariant FindingsOf(chunks, k, findSecret, digest, secrets) && FindingsOf(chunks, k, findProse, digest, prose)
    {
      var data := tail + chunks[k];
      forbiddenFound := ScanLiterals(chunks, k, data, forbidden, forbiddenFound, false);
      forbiddenWide := ScanLiterals(chunks, k, Decoded(data), forbidden, forbiddenWide, true);
      localFound := ScanLiterals(chunks, k, data, local, localFound, false);
      localWide := ScanLiterals(chunks, k, Decoded(data), local, localWide, true);
      blobFound := ScanLiterals(chunks, k, data, [CREDENTIAL_BLOB], blobFound, false);
      secrets := ScanWindow(chunks, k, data, position - |tail|, findSecret, digest, secrets);
      prose := ScanWindow(chunks, k, data, position - |tail|, findProse, digest, prose);
      FlattenStep(chunks, k);
      CarryTail(chunks, k);
      tail := LastBytes(data);
      position := position + |chunks[k]|;
    }
    assert chunks[..|chunks|] == chunks;
    LiteralsAgree(chunks, forbidden);
    LiteralsAgree(chunks, local);
    LiteralsAgree(chunks, [CREDENTIAL_BLOB]);
    WideLiteralsAgree(chunks, forbidden);
    WideLiteralsAgree(chunks, local);
  }

  /** The flag of a list of literals after the k-th window. */
  method ScanLiterals(ghost chunks: seq<Bytes>, ghost k: nat, text: Bytes, literals: seq<Bytes>, before: bool,
                      ghost wide: bool)
    returns (found: bool)
    requires k < |chunks| && text == Searched(Window(chunks, k), wide)
    requires before == FoundBefore(chunks, k, literals, wide)
    ensures found == FoundBefore(chunks, k + 1, literals, wide)
  {
    FoundBeforeStep(chunks, k, literals, wide);
    found := before;
    for i := 0 to |literals|
      invariant found <==> before || exists j :: 0 <= j < i && OccursFolded(literals[j], text)
    {
      if OccursFolded(literals[i], text) { found := true; }
    }
  }

  lemma LiteralsAgree(chunks: seq<Bytes>, literals: seq<Bytes>)
    ensures FoundBefore(chunks, |chunks|, literals, false)
       <==> exists i :: 0 <= i < |literals| && FoundInWindows(chunks, literals[i])
    ensures AllShort(literals) ==>
      (FoundBefore(chunks, |chunks|, literals, false) <==> SomeOccurs(literals, Flatten(chunks)))
  {
    SwapQuantifiers(chunks, literals);
    ShortLiteralsAgree(chunks, literals);
  }

  /** One of the literals, ASCII and of at most 257 characters, stands in the file as UTF-16 at an even offset. */
  ghost predicate SomeStandsWide(literals: seq<Bytes>, file: Bytes) {
    exists i, at: nat :: 0 <= i < |literals| && Ascii(literals[i]) && 1 <= |literals[i]| <= WIDE_LIMIT
                         && StandsWideAt(literals[i], file, at) && at % 2 == 0
  }

  lemma WideLiteralsAgree(chunks: seq<Bytes>, literals: seq<Bytes>)
    ensures FoundBefore(chunks, |chunks|, literals, true)
       <==> exists i :: 0 <= i < |literals| && FoundDecoded(chunks, literals[i])
    ensures EvenChunks(chunks) && SomeStandsWide(literals, Flatten(chunks)) ==>
      FoundBefore(chunks, |chunks|, literals, true)
    ensures EvenChunks(chunks) && FoundBefore(chunks, |chunks|, literals, true) ==>
      SomeOccurs(literals, Decoded(Flatten(chunks)))
  {
    SwapDecoded(chunks, literals);
    if EvenChunks(chunks) && FoundBefore(chunks, |chunks|, literals, true) {
      var i :| 0 <= i < |literals| && FoundDecoded(chunks, literals[i]);
      DecodedFindIsReal(chunks, literals[i]);
    }
    if EvenChunks(chunks) && SomeStandsWide(literals, Flatten(chunks)) {
      var i, at: nat :| 0 <= i < |literals| && Ascii(literals[i]) && 1 <= |literals[i]| <= WIDE_LIMIT
                        && StandsWideAt(literals[i], Flatten(chunks), at) && at % 2 == 0;
      WideTextIsFound(chunks, literals[i], at);
    }
  }

  lemma SwapDecoded(chunks: seq<Bytes>, literals: seq<Bytes>)
    ensures FoundBefore(chunks, |chunks|, literals, true)
       <==> exists i :: 0 <= i < |literals| && FoundDecoded(chunks, literals[i])
  {
    if k :| 0 <= k < |chunks| && SomeOccurs(literals, Searched(Window(chunks, k), true)) {
      var i :| 0 <= i < |literals| && OccursFolded(literals[i], Decoded(Window(chunks, k)));
      assert FoundDecoded(chunks, literals[i]);
    }
    if i :| 0 <= i < |literals| && FoundDecoded(chunks, literals[i]) {
      var k :| 0 <= k < |chunks| && OccursFolded(literals[i], Decoded(Window(chunks, k)));
      assert SomeOccurs(literals, Searched(Window(chunks, k), true));
    }
  }

  /** The findings after the k-th window. */
  method ScanWindow(ghost chunks: seq<Bytes>, ghost k: nat, data: Bytes, base: nat, find: Bytes -> seq<Hit>,
                    digest: Bytes -> string, before: map<(string, nat, string), Finding>)
    returns (findings: map<(string, nat, string), Finding>)
    requires k < |chunks| && data == Window(chunks, k) && base == WindowStart(chunks, k) && InBounds(find)
    requires FindingsOf(chunks, k, find, digest, before)
    ensures FindingsOf(chunks, k + 1, find, digest, findings)
  {
    CarryFindings(chunks, k, digest, before);
    CarryTail(chunks, k);
    findings := AddFindings(data, base, Flatten(chunks[..k + 1]), find, digest, before);
    FindingsGrow(chunks, k, find, digest, before, findings);
  }

  lemma CarryFindings(chunks: seq<Bytes>, k: nat, digest: Bytes -> string,
                      before: map<(string, nat, string), Finding>)
    requires k < |chunks| && AllNameTheirBytes(before, Flatten(chunks[..k]), digest)
    ensures AllNameTheirBytes(before, Flatten(chunks[..k + 1]), digest)
  {
    FlattenStep(chunks, k);
    GrownFileKeepsBytes(before, Flatten(chunks[..k]), chunks[k], digest);
  }

  lemma FindingsGrow(chunks: seq<Bytes>, k: nat, find: Bytes -> seq<Hit>, digest: Bytes -> string,
                     before: map<(string, nat, string), Finding>, after: map<(string, nat, string), Finding>)
    requires k < |chunks| && FindingsOf(chunks, k, find, digest, before) && before.Keys <= after.Keys
    requires AllNameTheirBytes(after, Flatten(chunks[..k + 1]), digest)
    requires HitsReported(chunks, k, find, digest, after.Keys)
    requires NewFromHits(before, after, find(Window(chunks, k)), Window(chunks, k), WindowStart(chunks, k), digest)
    ensures FindingsOf(chunks, k + 1, find, digest, after)
  {
    FromHitsGrow(chunks, k, find, digest, before, after);
    forall j | 0 <= j < k + 1 ensures HitsReported(chunks, j, find, digest, after.Keys) {
      if j < k { KeysGrow(chunks, j, find, digest, before.Keys, after.Keys); }
    }
  }

  lemma KeysGrow(chunks: seq<Bytes>, k: nat, find: Bytes -> seq<Hit>, digest: Bytes -> string,
                 before: set<(string, nat, string)>, after: set<(string, nat, string)>)
    requires k < |chunks| && before <= after && HitsReported(chunks, k, find, digest, before)
    ensures HitsReported(chunks, k, find, digest, after)
  {}

  predicate AllShort(literals: seq<Bytes>) {
    forall i :: 0 <= i < |literals| ==> 1 <= |literals[i]| <= OVERLAP + 1
  }

  lemma ShortLiteralsAgree(chunks: seq<Bytes>, literals: seq<Bytes>)
    ensures AllShort(literals) ==>
      (SomeOccurs(literals, Flatten(chunks))
       <==> exists i :: 0 <= i < |literals| && FoundInWindows(chunks, literals[i]))
  {
    if AllShort(literals) {
      forall i | 0 <= i < |literals|
        ensures FoundInWindows(chunks, literals[i]) <==> OccursFolded(literals[i], Flatten(chunks))
      {
        ReliableIffShort(literals[i], 1);
      }
    }
  }

  lemma SwapQuantifiers(chunks: seq<Bytes>, literals: seq<Bytes>)
    ensures FoundBefore(chunks, |chunks|, literals, false)
       <==> exists i :: 0 <= i < |literals| && FoundInWindows(chunks, literals[i])
  {
    if k :| 0 <= k < |chunks| && SomeOccurs(literals, Searched(Window(chunks, k), false)) {
      var i :| 0 <= i < |literals| && OccursFolded(literals[i], Window(chunks, k));
      assert FoundInWindows(chunks, literals[i]);
    }
    if i :| 0 <= i < |literals| && FoundInWindows(chunks, literals[i]) {
      var k :| 0 <= k < |chunks| && OccursFolded(literals[i], Window(chunks, k));
      assert SomeOccurs(literals, Searched(Window(chunks, k), false));
    }
  }
}
