/** One manifest of all the sources: every file under its source's path. */
module CombinedManifest {
  import opened ManifestText

  /** The files of one source directory, by path relative to it. */
  datatype Snapshot = Snapshot(source: string, files: seq<Item>)

  function Key(source: string, relative: string): string {
    source + "/" + relative
  }

  function Renamed(source: string, files: seq<Item>): (r: seq<Item>)
    ensures |r| == |files|
    ensures forall i :: 0 <= i < |files| ==> r[i] == Item(Key(source, files[i].name), files[i].size, files[i].digest)
  {
    seq(|files|, i requires 0 <= i < |files| => Item(Key(source, files[i].name), files[i].size, files[i].digest))
  }

  function Pairs(snapshots: seq<Snapshot>): seq<Item> {
    if snapshots == [] then []
    else Renamed(snapshots[0].source, snapshots[0].files) + Pairs(snapshots[1..])
  }

  /** A dictionary made from pairs: a repeated name keeps its place and takes the last value. */
  function FromPairs(pairs: seq<Item>): seq<Item> {
    if pairs == [] then [] else Put(FromPairs(pairs[..|pairs| - 1]), pairs[|pairs| - 1])
  }

  function Put(items: seq<Item>, x: Item): seq<Item> {
    if items == [] then [x]
    else if items[0].name == x.name then [x] + items[1..]
    else [items[0]] + Put(items[1..], x)
  }

  function CombinedFileManifest(snapshots: seq<Snapshot>): seq<Item> {
    FromPairs(SortItems(Pairs(snapshots)))
  }

  function TotalSize(items: seq<Item>): nat {
    if items == [] then 0 else items[0].size + TotalSize(items[1..])
  }

  function FileCounts(snapshots: seq<Snapshot>): nat {
    if snapshots == [] then 0 else |snapshots[0].files| + FileCounts(snapshots[1..])
  }

  function SizeTotals(snapshots: seq<Snapshot>): nat {
    if snapshots == [] then 0 else TotalSize(snapshots[0].files) + SizeTotals(snapshots[1..])
  }

  /** One path is the other or lies above it. */
  predicate Nested(a: string, b: string) {
    a == b || a + "/" <= b || b + "/" <= a
  }

  ghost predicate NonNested(snapshots: seq<Snapshot>) {
    forall i, j :: 0 <= i < j < |snapshots| ==> !Nested(snapshots[i].source, snapshots[j].source)
  }

  ghost predicate ProperFiles(snapshots: seq<Snapshot>) {
    forall i :: 0 <= i < |snapshots| ==> DistinctNames(snapshots[i].files)
  }

  // ----- Keys -----

  lemma KeyInjective(source: string, a: string, b: string)
    requires Key(source, a) == Key(source, b)
    ensures a == b
  {
    assert Key(source, a)[|source| + 1..] == a && Key(source, b)[|source| + 1..] == b;
  }

  lemma CollisionIsNesting(a: string, r: string, b: string, s: string)
    requires Key(a, r) == Key(b, s) && |a| <= |b|
    ensures a == b || a + "/" <= b
  {
    var k := Key(a, r);
    assert a == k[..|a|] && b == k[..|b|] && k[|a|] == '/';
    if |a| < |b| {
      assert b[..|a| + 1] == k[..|a| + 1] == a + "/";
    }
  }

  /** A relative path as text: no component is empty. */
  predicate PathText(s: string) {
    && s != "" && s[0] != '/' && s[|s| - 1] != '/'
    && forall i :: 0 < i < |s| ==> s[i - 1] != '/' || s[i] != '/'
  }

  /** Two sources can have files of the same key exactly when one contains the other. */
  lemma KeysCollideIffNested(a: string, b: string)
    requires PathText(a) && PathText(b)
    ensures (exists r, s :: PathText(r) && PathText(s) && Key(a, r) == Key(b, s)) <==> Nested(a, b)
  {
    if r, s :| PathText(r) && PathText(s) && Key(a, r) == Key(b, s) {
      if |a| <= |b| { CollisionIsNesting(a, r, b, s); } else { CollisionIsNesting(b, s, a, r); }
    }
    assert PathText("f");
    if a == b {
      assert Key(a, "f") == Key(b, "f");
    } else if a + "/" <= b {
      var r := FileBelow(a, b);
      assert Key(a, r) == Key(b, "f");
    } else if b + "/" <= a {
      var s := FileBelow(b, a);
      assert Key(a, "f") == Key(b, s);
    }
  }

  /** A file of the inner source, as the outer one names it. */
  lemma FileBelow(outer: string, inner: string) returns (r: string)
    requires PathText(inner) && outer + "/" <= inner
    ensures PathText(r) && Key(outer, r) == Key(inner, "f")
  {
    var rest := inner[|outer| + 1..];
    assert inner[|outer|] == (outer + "/")[|outer|] == '/';
    assert inner == outer + "/" + rest;
    assert rest != "" by { assert inner[|inner| - 1] != '/'; }
    forall i | 0 < i < |rest| ensures rest[i - 1] != '/' || rest[i] != '/' {
      assert rest[i - 1] == inner[|outer| + i] && rest[i] == inner[|outer| + 1 + i];
    }
    assert rest[0] == inner[|outer| + 1] && rest[|rest| - 1] == inner[|inner| - 1];
    r := rest + "/f";
  }

  lemma KeysDiffer(a: string, r: string, b: string, s: string)
    requires !Nested(a, b)
    ensures Key(a, r) != Key(b, s)
  {
    if Key(a, r) == Key(b, s) {
      if |a| <= |b| { CollisionIsNesting(a, r, b, s); } else { CollisionIsNesting(b, s, a, r); }
    }
  }

  lemma {:induction false} PairSource(snapshots: seq<Snapshot>, k: nat) returns (i: nat, f: nat)
    requires k < |Pairs(snapshots)|
    ensures i < |snapshots| && f < |snapshots[i].files|
    ensures Pairs(snapshots)[k].name == Key(snapshots[i].source, snapshots[i].files[f].name)
  {
    var n := |snapshots[0].files|;
    if k < n {
      i, f := 0, k;
    } else {
      i, f := PairSource(snapshots[1..], k - n);
      i := i + 1;
    }
  }

  lemma {:induction false} PairsDistinct(snapshots: seq<Snapshot>)
    requires NonNested(snapshots) && ProperFiles(snapshots)
    ensures DistinctNames(Pairs(snapshots))
  {
    if snapshots != [] {
      var first, rest := snapshots[0], snapshots[1..];
      PairsDistinct(rest);
      var head, tail := Renamed(first.source, first.files), Pairs(rest);
      forall i, j | 0 <= i < j < |head| ensures head[i].name != head[j].name {
        if head[i].name == head[j].name { KeyInjective(first.source, first.files[i].name, first.files[j].name); }
      }
      forall i, j | 0 <= i < |head| && 0 <= j < |tail| ensures head[i].name != tail[j].name {
        var s, f := PairSource(rest, j);
        assert !Nested(snapshots[0].source, snapshots[s + 1].source);
        KeysDiffer(first.source, first.files[i].name, rest[s].source, rest[s].files[f].name);
      }
    }
  }

  // ----- Dictionaries and sums -----

  lemma {:induction false} PutNew(items: seq<Item>, x: Item)
    requires forall i :: 0 <= i < |items| ==> items[i].name != x.name
    ensures Put(items, x) == items + [x]
  {
    if items != [] { PutNew(items[1..], x); }
  }

  lemma {:induction false} DistinctPairsKept(pairs: seq<Item>)
    requires DistinctNames(pairs)
    ensures FromPairs(pairs) == pairs
  {
    if pairs != [] {
      DistinctPairsKept(pairs[..|pairs| - 1]);
      PutNew(pairs[..|pairs| - 1], pairs[|pairs| - 1]);
    }
  }

  lemma {:induction false} InsertSize(x: Item, items: seq<Item>)
    ensures TotalSize(Insert(x, items)) == x.size + TotalSize(items)
  {
    if items != [] && Precedes(items[0], x) { InsertSize(x, items[1..]); }
  }

  lemma {:induction false} SortSize(items: seq<Item>)
    ensures TotalSize(SortItems(items)) == TotalSize(items)
  {
    if items != [] {
      SortSize(items[1..]);
      InsertSize(items[0], SortItems(items[1..]));
    }
  }

  lemma {:induction false} AppendSize(a: seq<Item>, b: seq<Item>)
    ensures TotalSize(a + b) == TotalSize(a) + TotalSize(b)
  {
    if a == [] {
      assert a + b == b;
    } else {
      assert (a + b)[1..] == a[1..] + b;
      AppendSize(a[1..], b);
    }
  }

  lemma {:induction false} RenamedSize(source: string, files: seq<Item>)
    ensures TotalSize(Renamed(source, files)) == TotalSize(files)
  {
    if files != [] {
      assert Renamed(source, files)[1..] == Renamed(source, files[1..]);
      RenamedSize(source, files[1..]);
    }
  }

  lemma {:induction false} PairsSums(snapshots: seq<Snapshot>)
    ensures |Pairs(snapshots)| == FileCounts(snapshots)
    ensures TotalSize(Pairs(snapshots)) == SizeTotals(snapshots)
  {
    if snapshots != [] {
      PairsSums(snapshots[1..]);
      RenamedSize(snapshots[0].source, snapshots[0].files);
      AppendSize(Renamed(snapshots[0].source, snapshots[0].files), Pairs(snapshots[1..]));
    }
  }

  /** The combined manifest of non-nested sources holds every file once: nothing collides, and its file
      count and total size are the sums over the sources. */
  lemma CombinedManifestIsTheSum(snapshots: seq<Snapshot>)
    requires NonNested(snapshots) && ProperFiles(snapshots)
    ensures var m := CombinedFileManifest(snapshots);
            && DistinctNames(m)
            && multiset(m) == multiset(Pairs(snapshots))
            && |m| == FileCounts(snapshots)
            && TotalSize(m) == SizeTotals(snapshots)
  {
    var pairs := Pairs(snapshots);
    PairsDistinct(snapshots);
    SortKeepsItems(pairs);
    SortAscends(pairs);
    AscendingDistinct(SortItems(pairs));
    DistinctPairsKept(SortItems(pairs));
    SortSize(pairs);
    PairsSums(snapshots);
    assert |SortItems(pairs)| == |multiset(SortItems(pairs))| == |multiset(pairs)| == |pairs|;
  }

  lemma AscendingDistinct(items: seq<Item>)
    requires Ascending(items)
    ensures DistinctNames(items)
  {
    forall i, j | 0 <= i < j < |items| ensures items[i].name != items[j].name {
      BeforeIrreflexive(items[i].name);
    }
  }

  // ----- When the count is the sum -----

  ghost predicate HasName(items: seq<Item>, name: string) {
    exists i :: 0 <= i < |items| && items[i].name == name
  }

  lemma HasNameStep(head: Item, rest: seq<Item>, name: string)
    ensures HasName([head] + rest, name) <==> head.name == name || HasName(rest, name)
  {
    var all := [head] + rest;
    assert all[0] == head;
    if i :| 0 <= i < |rest| && rest[i].name == name { assert all[i + 1].name == name; }
    if i :| 0 <= i < |all| && all[i].name == name { assert i > 0 ==> rest[i - 1].name == name; }
  }

  /** A dictionary grows by one exactly for a new name. */
  lemma {:induction false} PutGrows(items: seq<Item>, x: Item, name: string)
    ensures HasName(Put(items, x), name) <==> HasName(items, name) || name == x.name
    ensures |Put(items, x)| == |items| + (if HasName(items, x.name) then 0 else 1)
  {
    if items == [] {
      HasNameStep(x, [], name);
      assert [x] + [] == [x];
    } else {
      var head, rest := items[0], items[1..];
      assert items == [head] + rest;
      HasNameStep(head, rest, name);
      HasNameStep(head, rest, x.name);
      if head.name == x.name {
        HasNameStep(x, rest, name);
      } else {
        PutGrows(rest, x, name);
        HasNameStep(head, Put(rest, x), name);
      }
    }
  }

  lemma DistinctStep(before: seq<Item>, x: Item)
    ensures DistinctNames(before + [x]) <==> DistinctNames(before) && !HasName(before, x.name)
  {
    var all := before + [x];
    assert all[|before|] == x;
    if DistinctNames(all) {
      forall i, j | 0 <= i < j < |before| ensures before[i].name != before[j].name {
        assert all[i].name != all[j].name;
      }
      forall i | 0 <= i < |before| ensures before[i].name != x.name {
        assert all[i].name != all[|before|].name;
      }
    }
  }

  lemma {:induction false} FromPairsCount(pairs: seq<Item>, name: string)
    ensures HasName(FromPairs(pairs), name) <==> HasName(pairs, name)
    ensures |FromPairs(pairs)| <= |pairs|
    ensures |FromPairs(pairs)| == |pairs| <==> DistinctNames(pairs)
  {
    if pairs != [] {
      var before, x := pairs[..|pairs| - 1], pairs[|pairs| - 1];
      assert pairs == before + [x];
      FromPairsCount(before, name);
      FromPairsCount(before, x.name);
      PutGrows(FromPairs(before), x, name);
      DistinctStep(before, x);
      NameOfLast(before, x, name);
    }
  }

  lemma NameOfLast(before: seq<Item>, x: Item, name: string)
    ensures HasName(before + [x], name) <==> HasName(before, name) || x.name == name
  {
    var all := before + [x];
    assert all[|before|] == x;
    if i :| 0 <= i < |before| && before[i].name == name { assert all[i].name == name; }
    if i :| 0 <= i < |all| && all[i].name == name { assert i < |before| ==> before[i].name == name; }
  }

  /** Putting an element somewhere keeps names distinct exactly when its name is new. */
  lemma DistinctAround(a: seq<Item>, x: Item, b: seq<Item>)
    requires DistinctNames(a + b) && !HasName(a + b, x.name)
    ensures DistinctNames(a + [x] + b)
  {
    var all, rest := a + [x] + b, a + b;
    forall i | 0 <= i < |all| && i != |a| ensures all[i] == rest[if i < |a| then i else i - 1] {}
    forall i, j | 0 <= i < j < |all| ensures all[i].name != all[j].name {
      if i == |a| {
        assert all[j] == rest[j - 1];
      } else if j == |a| {
        assert all[i] == rest[i];
      } else {
        assert rest[if i < |a| then i else i - 1].name != rest[if j < |a| then j else j - 1].name;
      }
    }
  }

  lemma {:induction false} DistinctPermutation(a: seq<Item>, b: seq<Item>)
    requires multiset(a) == multiset(b) && DistinctNames(a)
    ensures DistinctNames(b)
  {
    if a == [] {
      assert |b| == |multiset(b)| == |multiset(a)| == 0;
    } else {
      var k := FirstInPermutation(a, b);
      var rest := b[..k] + b[k + 1..];
      DistinctPermutation(a[1..], rest);
      forall i | 0 <= i < |rest| ensures rest[i].name != a[0].name {
        assert rest[i] in multiset(a[1..]);
      }
      DistinctAround(b[..k], b[k], b[k + 1..]);
      assert b == b[..k] + [b[k]] + b[k + 1..];
    }
  }

  /** Whatever the sources, the manifest has at most as many files as they hold, and exactly as many if and
      only if no two files share a key. */
  lemma CountIsTheSumIffKeysDistinct(snapshots: seq<Snapshot>)
    ensures |CombinedFileManifest(snapshots)| <= FileCounts(snapshots)
    ensures |CombinedFileManifest(snapshots)| == FileCounts(snapshots) <==> DistinctNames(Pairs(snapshots))
  {
    var pairs, sorted := Pairs(snapshots), SortItems(Pairs(snapshots));
    PairsSums(snapshots);
    SortKeepsItems(pairs);
    assert |sorted| == |multiset(sorted)| == |multiset(pairs)| == |pairs|;
    FromPairsCount(sorted, "");
    if DistinctNames(pairs) { DistinctPermutation(pairs, sorted); }
    if DistinctNames(sorted) { DistinctPermutation(sorted, pairs); }
  }

  /** The order in which the sources are listed does not show in the manifest, whatever they hold. */
  lemma SourceOrderDoesNotMatter(a: seq<Snapshot>, b: seq<Snapshot>)
    requires multiset(a) == multiset(b)
    ensures CombinedFileManifest(a) == CombinedFileManifest(b)
  {
    PairsFollowSnapshots(a, b);
    SortDependsOnItems(Pairs(a), Pairs(b));
  }

  lemma TakeOut<T>(b: seq<T>, k: nat)
    requires k < |b|
    ensures multiset(b) == multiset{b[k]} + multiset(b[..k] + b[k + 1..])
  {
    assert b == b[..k] + [b[k]] + b[k + 1..];
  }

  /** Where the first element of `a` is in its permutation `b`. */
  lemma FirstInPermutation<T>(a: seq<T>, b: seq<T>) returns (k: nat)
    requires multiset(a) == multiset(b) && a != []
    ensures k < |b| && b[k] == a[0] && multiset(a[1..]) == multiset(b[..k] + b[k + 1..])
  {
    assert a[0] in multiset(b);
    k :| 0 <= k < |b| && b[k] == a[0];
    TakeOut(b, k);
    RestOf(a);
    Cancel(a[0], multiset(a[1..]), multiset(b[..k] + b[k + 1..]));
  }

  lemma Cancel<T>(x: T, m: multiset<T>, n: multiset<T>)
    requires multiset{x} + m == multiset{x} + n
    ensures m == n
  {
    assert m == multiset{x} + m - multiset{x};
    assert n == multiset{x} + n - multiset{x};
  }

  lemma RestOf<T>(a: seq<T>)
    requires a != []
    ensures multiset(a) == multiset{a[0]} + multiset(a[1..])
  {
    assert a == [a[0]] + a[1..];
  }

  lemma {:induction false} PairsFollowSnapshots(a: seq<Snapshot>, b: seq<Snapshot>)
    requires multiset(a) == multiset(b)
    ensures multiset(Pairs(a)) == multiset(Pairs(b))
  {
    if a == [] {
      assert |b| == |multiset(b)| == |multiset(a)| == 0;
    } else {
      var k := FirstInPermutation(a, b);
      PairsFollowSnapshots(a[1..], b[..k] + b[k + 1..]);
      PairsTakeOut(b, k);
    }
  }

  lemma {:induction false} PairsTakeOut(b: seq<Snapshot>, k: nat)
    requires k < |b|
    ensures multiset(Pairs(b)) == multiset(Renamed(b[k].source, b[k].files)) + multiset(Pairs(b[..k] + b[k + 1..]))
  {
    if k == 0 {
      assert b[..0] + b[1..] == b[1..];
    } else {
      PairsTakeOut(b[1..], k - 1);
      var rest := b[..k] + b[k + 1..];
      assert rest[0] == b[0] && rest[1..] == b[1..][..k - 1] + b[1..][k..];
      assert b[1..][k - 1] == b[k];
    }
  }

  // ----- Which file a shared key keeps -----

  lemma {:induction false} PutReplaces(items: seq<Item>, x: Item, y: Item)
    requires DistinctNames(items)
    ensures DistinctNames(Put(items, x))
    ensures y in Put(items, x) <==> y == x || (y in items && y.name != x.name)
  {
    if items == [] {
    } else if items[0].name == x.name {
      assert items == [items[0]] + items[1..];
      assert y in items[1..] ==> y.name != x.name;
    } else {
      var rest := items[1..];
      PutReplaces(rest, x, y);
      assert items == [items[0]] + rest;
      forall k | 0 <= k < |Put(rest, x)| ensures Put(rest, x)[k].name != items[0].name {
        PutReplaces(rest, x, Put(rest, x)[k]);
      }
    }
  }

  /** A dictionary has the last pair of every name. */
  lemma {:induction false} DictionaryKeepsLast(pairs: seq<Item>, x: Item)
    ensures DistinctNames(FromPairs(pairs))
    ensures x in FromPairs(pairs) <==>
      exists k :: 0 <= k < |pairs| && pairs[k] == x && forall j :: k < j < |pairs| ==> pairs[j].name != x.name
  {
    if pairs != [] {
      var before, last := pairs[..|pairs| - 1], pairs[|pairs| - 1];
      DictionaryKeepsLast(before, x);
      PutReplaces(FromPairs(before), last, x);
      if x in FromPairs(pairs) && x != last {
        var k :| 0 <= k < |before| && before[k] == x && forall j :: k < j < |before| ==> before[j].name != x.name;
        assert pairs[k] == x && forall j :: k < j < |pairs| ==> pairs[j].name != x.name;
      }
      if k :| 0 <= k < |pairs| && pairs[k] == x && forall j :: k < j < |pairs| ==> pairs[j].name != x.name {
        if k < |before| {
          assert pairs[|pairs| - 1].name != x.name;
          assert before[k] == x && forall j :: k < j < |before| ==> before[j].name != x.name;
        }
      }
    }
  }

  /** No file with the same key is larger. */
  ghost predicate Largest(x: Item, pairs: seq<Item>) {
    forall y :: y in pairs && y.name == x.name ==>
      y.size < x.size || (y.size == x.size && (y.digest == x.digest || Before(y.digest, x.digest)))
  }

  lemma SameElements(pairs: seq<Item>, y: Item)
    ensures y in pairs <==> y in SortItems(pairs)
    ensures |SortItems(pairs)| == |pairs|
  {
    SortKeepsItems(pairs);
    assert |SortItems(pairs)| == |multiset(SortItems(pairs))| == |multiset(pairs)|;
    assert y in pairs <==> y in multiset(pairs);
    assert y in SortItems(pairs) <==> y in multiset(SortItems(pairs));
  }

  lemma LastIsLargest(pairs: seq<Item>, k: nat)
    requires var sorted := SortItems(pairs);
             k < |sorted| && forall j :: k < j < |sorted| ==> sorted[j].name != sorted[k].name
    ensures Largest(SortItems(pairs)[k], pairs)
  {
    var sorted := SortItems(pairs);
    var x := sorted[k];
    SameElements(pairs, x);
    forall y | y in pairs && y.name == x.name
      ensures y.size < x.size || (y.size == x.size && (y.digest == x.digest || Before(y.digest, x.digest)))
    {
      SameElements(pairs, y);
      var j :| 0 <= j < |sorted| && sorted[j] == y;
      if j < k { SortMeaning(pairs, j, k); }
      BeforeTotal(y.digest, x.digest);
    }
  }

  lemma LargestIsLast(pairs: seq<Item>, x: Item, k: nat)
    requires x in pairs && Largest(x, pairs)
    requires var sorted := SortItems(pairs);
             && k < |sorted| && sorted[k].name == x.name
             && forall j :: k < j < |sorted| ==> sorted[j].name != x.name
    ensures SortItems(pairs)[k] == x
  {
    var sorted := SortItems(pairs);
    SameElements(pairs, x);
    SameElements(pairs, sorted[k]);
    var j :| 0 <= j < |sorted| && sorted[j] == x;
    if j < k { SortMeaning(pairs, j, k); }
  }

  /** Whatever the sources, the manifest names every key once, and for a key that several files share it keeps
      the one that is largest in size, and then in digest. */
  lemma SharedKeyKeepsLargest(snapshots: seq<Snapshot>, x: Item)
    ensures DistinctNames(CombinedFileManifest(snapshots))
    ensures x in CombinedFileManifest(snapshots) <==> x in Pairs(snapshots) && Largest(x, Pairs(snapshots))
  {
    var pairs, sorted := Pairs(snapshots), SortItems(Pairs(snapshots));
    DictionaryKeepsLast(sorted, x);
    SameElements(pairs, x);
    if x in CombinedFileManifest(snapshots) {
      var k :| 0 <= k < |sorted| && sorted[k] == x && forall j :: k < j < |sorted| ==> sorted[j].name != x.name;
      LastIsLargest(pairs, k);
    }
    if x in pairs && Largest(x, pairs) {
      var k := LastOfName(sorted, x);
      LargestIsLast(pairs, x, k);
    }
  }

  /** The last element with the name of one that is there; if that is not the element, it comes after it. */
  lemma LastOfName(items: seq<Item>, x: Item) returns (k: nat)
    requires x in items
    ensures k < |items| && items[k].name == x.name
    ensures forall j :: k < j < |items| ==> items[j].name != x.name
  {
    k := |items| - 1;
    while items[k].name != x.name
      invariant 0 <= k < |items| && x in items[..k + 1]
      invariant forall j :: k < j < |items| ==> items[j].name != x.name
      decreases k
    {
      assert items[..k + 1] == items[..k] + [items[k]];
      k := k - 1;
    }
  }

  /** With nested sources two files can share a key, and the manifest then counts one of them. */
  lemma NestedSourcesLoseAFile()
    ensures var snapshots := [Snapshot("a", [Item("b/c", 1, "x")]), Snapshot("a/b", [Item("c", 1, "x")])];
            FileCounts(snapshots) == 2 && |CombinedFileManifest(snapshots)| == 1
  {
    var snapshots := [Snapshot("a", [Item("b/c", 1, "x")]), Snapshot("a/b", [Item("c", 1, "x")])];
    var item := Item("a/b/c", 1, "x");
    assert Key("a", "b/c") == item.name && Key("a/b", "c") == item.name;
    assert Renamed("a", snapshots[0].files) == [item] && Renamed("a/b", snapshots[1].files) == [item];
    assert Pairs(snapshots[1..]) == [item] + Pairs([]) == [item];
    assert Pairs(snapshots) == [item, item];
    BeforeIrreflexive(item.name);
    BeforeIrreflexive(item.digest);
    assert SortItems([item]) == [item] && SortItems([item, item][1..]) == [item];
    assert SortItems([item, item]) == [item, item];
    assert [item, item][..1] == [item] && FromPairs([item]) == [item];
    assert FromPairs([item, item]) == [item];
  }
}
