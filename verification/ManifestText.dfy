/** The combined manifest of an archive and the text its digest is taken of. */
module ManifestText {

  /** One file: its name, size and digest. A dictionary is the sequence of its items, in insertion order. */
  datatype Item = Item(name: string, size: nat, digest: string)

  ghost predicate DistinctNames(items: seq<Item>) {
    forall i, j :: 0 <= i < j < |items| ==> items[i].name != items[j].name
  }

  // ----- Order on names -----

  /** Strictly before, by code points. */
  predicate Before(a: string, b: string) {
    if b == "" then false
    else if a == "" then true
    else if a[0] != b[0] then a[0] < b[0]
    else Before(a[1..], b[1..])
  }

  /** A text comes before another exactly when it is a proper beginning of it, or has the smaller character where
      they first differ. */
  lemma {:induction false} BeforeMeaning(a: string, b: string)
    ensures Before(a, b) <==> (a <= b && a != b) || (exists n: nat :: SmallerAt(a, b, n))
  {
    if a != "" && b != "" && a[0] == b[0] {
      BeforeMeaning(a[1..], b[1..]);
      assert a == [a[0]] + a[1..] && b == [b[0]] + b[1..];
      assert a <= b <==> a[1..] <= b[1..];
      if n: nat :| SmallerAt(a[1..], b[1..], n) {
        assert a[..n + 1] == [a[0]] + a[1..][..n] && b[..n + 1] == [b[0]] + b[1..][..n];
        assert SmallerAt(a, b, n + 1);
      }
      if n: nat :| SmallerAt(a, b, n) {
        assert a[1..][..n - 1] == a[..n][1..] && b[1..][..n - 1] == b[..n][1..];
        assert SmallerAt(a[1..], b[1..], n - 1);
      }
    } else if a != "" && b != "" {
      assert a[0] < b[0] ==> SmallerAt(a, b, 0);
      if n: nat :| SmallerAt(a, b, n) {
        assert n > 0 ==> a[..n][0] == b[..n][0];
      }
    }
  }

  ghost predicate SmallerAt(a: string, b: string, n: nat) {
    n < |a| && n < |b| && a[..n] == b[..n] && a[n] < b[n]
  }

  /** The sorted payload has its names in that order, and items of one name by size and then digest. */
  lemma SortMeaning(items: seq<Item>, i: nat, j: nat)
    requires i < j < |items|
    ensures var s := SortItems(items);
            && |s| == |items| && multiset(s) == multiset(items)
            && !Before(s[j].name, s[i].name)
            && (s[i].name == s[j].name ==> s[i].size <= s[j].size)
            && (s[i].name == s[j].name && s[i].size == s[j].size ==> !Before(s[j].digest, s[i].digest))
  {
    SortKeepsItems(items);
    SortOrdered(items);
    var s := SortItems(items);
    assert |s| == |multiset(s)| == |multiset(items)| == |items|;
    assert !Precedes(s[j], s[i]);
  }

  lemma {:induction false} BeforeTotal(a: string, b: string)
    ensures Before(a, b) || Before(b, a) || a == b
  {
    if a != "" && b != "" && a[0] == b[0] {
      BeforeTotal(a[1..], b[1..]);
      assert a == [a[0]] + a[1..] && b == [b[0]] + b[1..];
    }
  }

  lemma {:induction false} BeforeTransitive(a: string, b: string, c: string)
    requires Before(a, b) && Before(b, c)
    ensures Before(a, c)
  {
    if a != "" && a[0] == b[0] == c[0] { BeforeTransitive(a[1..], b[1..], c[1..]); }
  }

  lemma {:induction false} BeforeIrreflexive(a: string)
    ensures !Before(a, a)
  {
    if a != "" { BeforeIrreflexive(a[1..]); }
  }

  // ----- Sorting -----

  /** The order of the name and details pairs: by name, then size, then digest. */
  predicate Precedes(a: Item, b: Item) {
    || Before(a.name, b.name)
    || (a.name == b.name && (a.size < b.size || (a.size == b.size && Before(a.digest, b.digest))))
  }

  function Insert(x: Item, items: seq<Item>): seq<Item> {
    if items == [] || !Precedes(items[0], x) then [x] + items else [items[0]] + Insert(x, items[1..])
  }

  function SortItems(items: seq<Item>): seq<Item> {
    if items == [] then [] else Insert(items[0], SortItems(items[1..]))
  }

  /** Strictly increasing names. */
  ghost predicate Ascending(items: seq<Item>) {
    forall i, j :: 0 <= i < j < |items| ==> Before(items[i].name, items[j].name)
  }

  lemma {:induction false} InsertKeepsItems(x: Item, items: seq<Item>)
    ensures multiset(Insert(x, items)) == multiset{x} + multiset(items)
  {
    if items != [] && Precedes(items[0], x) {
      InsertKeepsItems(x, items[1..]);
      assert items == [items[0]] + items[1..];
    }
  }

  lemma {:induction false} SortKeepsItems(items: seq<Item>)
    ensures multiset(SortItems(items)) == multiset(items)
  {
    if items != [] {
      SortKeepsItems(items[1..]);
      InsertKeepsItems(items[0], SortItems(items[1..]));
      assert items == [items[0]] + items[1..];
    }
  }

  lemma {:induction false} InsertAscends(x: Item, items: seq<Item>)
    requires Ascending(items) && forall i :: 0 <= i < |items| ==> items[i].name != x.name
    ensures Ascending(Insert(x, items))
  {
    if items != [] {
      var rest := items[1..];
      if Precedes(items[0], x) {
        InsertAscends(x, rest);
        InsertKeepsItems(x, rest);
        forall j | 0 <= j < |Insert(x, rest)| ensures Before(items[0].name, Insert(x, rest)[j].name) {
          assert Insert(x, rest)[j] in multiset(Insert(x, rest));
        }
      } else {
        BeforeTotal(items[0].name, x.name);
        forall j | 0 < j < |items| ensures Before(x.name, items[j].name) {
          BeforeTransitive(x.name, items[0].name, items[j].name);
        }
      }
    }
  }

  lemma {:induction false} SortAscends(items: seq<Item>)
    requires DistinctNames(items)
    ensures Ascending(SortItems(items))
  {
    if items != [] {
      SortAscends(items[1..]);
      SortKeepsItems(items[1..]);
      forall i | 0 <= i < |SortItems(items[1..])| ensures SortItems(items[1..])[i].name != items[0].name {
        assert SortItems(items[1..])[i] in multiset(items[1..]);
      }
      InsertAscends(items[0], SortItems(items[1..]));
    }
  }

  lemma PrecedesTotal(a: Item, b: Item)
    ensures Precedes(a, b) || Precedes(b, a) || a == b
  {
    BeforeTotal(a.name, b.name);
    BeforeTotal(a.digest, b.digest);
  }

  lemma PrecedesTransitive(a: Item, b: Item, c: Item)
    requires Precedes(a, b) && Precedes(b, c)
    ensures Precedes(a, c)
  {
    if Before(a.name, b.name) && Before(b.name, c.name) { BeforeTransitive(a.name, b.name, c.name); }
    if Before(a.digest, b.digest) && Before(b.digest, c.digest) { BeforeTransitive(a.digest, b.digest, c.digest); }
  }

  lemma PrecedesIrreflexive(a: Item)
    ensures !Precedes(a, a)
  {
    BeforeIrreflexive(a.name);
    BeforeIrreflexive(a.digest);
  }

  /** No item precedes one to its left. */
  ghost predicate Ordered(items: seq<Item>) {
    forall i, j :: 0 <= i < j < |items| ==> !Precedes(items[j], items[i])
  }

  lemma NotBeforeHead(x: Item, head: Item)
    requires Precedes(head, x)
    ensures !Precedes(x, head)
  {
    if Precedes(x, head) {
      PrecedesTransitive(x, head, x);
      PrecedesIrreflexive(x);
    }
  }

  lemma NoneBeforeNew(x: Item, items: seq<Item>, j: nat)
    requires Ordered(items) && j < |items| && !Precedes(items[0], x)
    ensures !Precedes(items[j], x)
  {
    PrecedesTotal(items[0], x);
    if Precedes(items[j], x) && Precedes(x, items[0]) { PrecedesTransitive(items[j], x, items[0]); }
  }

  lemma OrderedWithHead(head: Item, rest: seq<Item>)
    requires Ordered(rest) && forall j :: 0 <= j < |rest| ==> !Precedes(rest[j], head)
    ensures Ordered([head] + rest)
  {}

  lemma {:induction false} InsertOrdered(x: Item, items: seq<Item>)
    requires Ordered(items)
    ensures Ordered(Insert(x, items))
  {
    if items != [] {
      var head, rest := items[0], items[1..];
      if Precedes(head, x) {
        InsertOrdered(x, rest);
        InsertKeepsItems(x, rest);
        NotBeforeHead(x, head);
        forall j | 0 <= j < |Insert(x, rest)| ensures !Precedes(Insert(x, rest)[j], head) {
          assert Insert(x, rest)[j] in multiset(Insert(x, rest));
        }
        OrderedWithHead(head, Insert(x, rest));
      } else {
        forall j | 0 <= j < |items| ensures !Precedes(items[j], x) {
          NoneBeforeNew(x, items, j);
        }
        OrderedWithHead(x, items);
      }
    }
  }

  lemma {:induction false} SortOrdered(items: seq<Item>)
    ensures Ordered(SortItems(items))
  {
    if items != [] {
      SortOrdered(items[1..]);
      InsertOrdered(items[0], SortItems(items[1..]));
    }
  }

  /** An ordered sequence is determined by its items. */
  lemma {:induction false} OrderedUnique(a: seq<Item>, b: seq<Item>)
    requires Ordered(a) && Ordered(b) && multiset(a) == multiset(b)
    ensures a == b
  {
    assert |a| == |multiset(a)| == |multiset(b)| == |b|;
    if a != [] {
      SameHead(a, b);
      TailItems(a);
      TailItems(b);
      OrderedUnique(a[1..], b[1..]);
      assert a == [a[0]] + a[1..] && b == [b[0]] + b[1..];
    }
  }

  lemma SameHead(a: seq<Item>, b: seq<Item>)
    requires Ordered(a) && Ordered(b) && multiset(a) == multiset(b) && a != [] && b != []
    ensures a[0] == b[0]
  {
    assert a[0] in multiset(b) && b[0] in multiset(a);
    PrecedesTotal(a[0], b[0]);
  }

  lemma TailItems(a: seq<Item>)
    requires a != []
    ensures multiset(a[1..]) == multiset(a) - multiset{a[0]}
  {
    assert a == [a[0]] + a[1..];
  }

  /** Sorting depends on the items alone, not on their order. */
  lemma SortDependsOnItems(a: seq<Item>, b: seq<Item>)
    ensures multiset(a) == multiset(b) <==> SortItems(a) == SortItems(b)
  {
    SortKeepsItems(a);
    SortKeepsItems(b);
    SortOrdered(a);
    SortOrdered(b);
    if multiset(a) == multiset(b) { OrderedUnique(SortItems(a), SortItems(b)); }
  }

  // ----- The text -----

  function Digit(n: nat): char
    requires n < 10
  {
    "0123456789"[n]
  }

  function Decimal(n: nat): string {
    if n < 10 then [Digit(n)] else Decimal(n / 10) + [Digit(n % 10)]
  }

  function Line(item: Item): string {
    item.name + "\t" + Decimal(item.size) + "\t" + item.digest
  }

  function JoinLines(items: seq<Item>): string {
    if items == [] then ""
    else if |items| == 1 then Line(items[0])
    else Line(items[0]) + "\n" + JoinLines(items[1..])
  }

  /** The payload of the manifest digest. */
  function Payload(items: seq<Item>): string {
    JoinLines(SortItems(items))
  }

  /** No tab or newline. */
  predicate Plain(s: string) {
    '\t' !in s && '\n' !in s
  }

  /** A digest is a hexadecimal text. */
  predicate PlainDigests(items: seq<Item>) {
    forall i :: 0 <= i < |items| ==> Plain(items[i].digest)
  }

  // ----- Reading a line back -----

  /** What comes before the last `c`, or nothing. */
  function UntilLast(s: string, c: char): string {
    if s == "" then "" else if s[|s| - 1] == c then s[..|s| - 1] else UntilLast(s[..|s| - 1], c)
  }

  /** What comes after the last `c`, or everything. */
  function AfterLast(s: string, c: char): string {
    if s == "" || s[|s| - 1] == c then "" else AfterLast(s[..|s| - 1], c) + [s[|s| - 1]]
  }

  function DigitValue(c: char): nat {
    if '0' <= c <= '9' then c as int - '0' as int else 0
  }

  function ParseDecimal(s: string): nat {
    if s == "" then 0 else 10 * ParseDecimal(s[..|s| - 1]) + DigitValue(s[|s| - 1])
  }

  /** Cuts at the last two tabs. */
  function ParseLine(line: string): Item {
    var rest := UntilLast(line, '\t');
    Item(UntilLast(rest, '\t'), ParseDecimal(AfterLast(rest, '\t')), AfterLast(line, '\t'))
  }

  lemma {:induction false} LastSeparator(a: string, c: char, b: string)
    requires c !in b
    ensures UntilLast(a + [c] + b, c) == a && AfterLast(a + [c] + b, c) == b
  {
    var s := a + [c] + b;
    if b == "" {
      assert s[..|s| - 1] == a;
    } else {
      assert s[..|s| - 1] == a + [c] + b[..|b| - 1];
      LastSeparator(a, c, b[..|b| - 1]);
    }
  }

  lemma {:induction false} DecimalReadsBack(n: nat)
    ensures ParseDecimal(Decimal(n)) == n && Plain(Decimal(n))
  {
    assert forall k: nat :: k < 10 ==> DigitValue(Digit(k)) == k && Digit(k) != '\t' && Digit(k) != '\n';
    if n < 10 {
      assert ParseDecimal(Decimal(n)[..0]) == 0;
    } else {
      DecimalReadsBack(n / 10);
      assert Decimal(n)[..|Decimal(n)| - 1] == Decimal(n / 10);
    }
  }

  /** A line reads back as its item, whatever the name. */
  lemma LineReadsBack(item: Item)
    requires Plain(item.digest)
    ensures ParseLine(Line(item)) == item
  {
    DecimalReadsBack(item.size);
    var rest := item.name + "\t" + Decimal(item.size);
    assert Line(item) == rest + "\t" + item.digest;
    LastSeparator(rest, '\t', item.digest);
    LastSeparator(item.name, '\t', Decimal(item.size));
  }

  // ----- Reading a payload back -----

  function IndexOf(s: string, c: char): (n: nat)
    ensures n <= |s|
  {
    if s == "" || s[0] == c then 0 else 1 + IndexOf(s[1..], c)
  }

  function ParseLines(text: string): seq<Item> {
    var n := IndexOf(text, '\n');
    if n == |text| then [ParseLine(text)] else [ParseLine(text[..n])] + ParseLines(text[n + 1..])
  }

  function Parse(text: string): seq<Item> {
    if text == "" then [] else ParseLines(text)
  }

  lemma {:induction false} IndexOfFirst(a: string, c: char, b: string)
    requires c !in a && (b == "" || b[0] == c)
    ensures IndexOf(a + b, c) == |a|
  {
    if a == "" {
      assert a + b == b;
    } else {
      assert (a + b)[1..] == a[1..] + b;
      IndexOfFirst(a[1..], c, b);
    }
  }

  ghost predicate OneLineNames(items: seq<Item>) {
    forall i :: 0 <= i < |items| ==> '\n' !in items[i].name
  }

  lemma FirstLineEnds(items: seq<Item>)
    requires items != [] && OneLineNames(items) && PlainDigests(items)
    ensures var text, line := JoinLines(items), Line(items[0]);
            && text != "" && line <= text && IndexOf(text, '\n') == |line|
            && (items[1..] == [] ==> |text| == |line|)
            && (items[1..] != [] ==> |text| > |line| && text[|line| + 1..] == JoinLines(items[1..]))
  {
    DetailsHaveNoNewline(items[0]);
    JoinIsLineAndFollowing(items);
    IndexOfFirst(Line(items[0]), '\n', Following(items[1..]));
  }

  lemma ParseOne(text: string, line: string)
    requires line == text && IndexOf(text, '\n') == |line|
    ensures ParseLines(text) == [ParseLine(line)]
  {
    assert text[..|line|] == line;
  }

  lemma ParseMore(text: string, line: string, rest: string)
    requires line <= text && IndexOf(text, '\n') == |line| < |text| && text[|line| + 1..] == rest
    ensures ParseLines(text) == [ParseLine(line)] + ParseLines(rest)
  {
    assert text[..|line|] == line;
  }

  lemma {:induction false} LinesReadBack(items: seq<Item>)
    requires items != [] && OneLineNames(items) && PlainDigests(items)
    ensures ParseLines(JoinLines(items)) == items
  {
    var text, line, rest := JoinLines(items), Line(items[0]), items[1..];
    FirstLineEnds(items);
    LineReadsBack(items[0]);
    assert items == [items[0]] + rest;
    if rest == [] {
      ParseOne(text, line);
    } else {
      LinesReadBack(rest);
      ParseMore(text, line, JoinLines(rest));
    }
  }

  /** The payload of names without a newline reads back as the manifest in order. */
  lemma PayloadReadsBack(items: seq<Item>)
    requires OneLineNames(items) && PlainDigests(items)
    ensures Parse(Payload(items)) == SortItems(items)
  {
    SortKeepsItems(items);
    var sorted := SortItems(items);
    forall i | 0 <= i < |sorted| ensures '\n' !in sorted[i].name && Plain(sorted[i].digest) {
      assert sorted[i] in multiset(items);
    }
    if sorted != [] {
      LinesReadBack(sorted);
      FirstLineEnds(sorted);
    }
  }

  // ----- Which names make the payload ambiguous -----

  /** The name starts with a line of its own and a newline. */
  ghost predicate Splits(name: string, item: Item, rest: string) {
    Plain(item.digest) && name == Line(item) + "\n" + rest
  }

  /** Wherever the name could be split into a line and another name, those two are in descending order, and
      so cannot be lines of a sorted payload. */
  ghost predicate Clear(name: string) {
    forall item, rest :: Splits(name, item, rest) ==> Before(rest, item.name)
  }

  ghost predicate ClearNames(items: seq<Item>) {
    forall i :: 0 <= i < |items| ==> Clear(items[i].name)
  }

  /** A name without a newline, or without two tabs before one, is clear; file names on the target platform
      contain neither. */
  lemma SimpleNamesAreClear(name: string)
    requires '\n' !in name || '\t' !in name
    ensures Clear(name)
  {
    forall item, rest ensures !Splits(name, item, rest) {
      SplitNamesHaveBoth(name, item, rest);
    }
  }

  lemma SplitNamesHaveBoth(name: string, item: Item, rest: string)
    ensures Splits(name, item, rest) ==> '\n' in name && '\t' in name
  {
    if Splits(name, item, rest) {
      assert name[|Line(item)|] == '\n' && name[|item.name|] == '\t';
    }
  }

  lemma ClearAt(name: string, item: Item, rest: string)
    requires Clear(name) && Splits(name, item, rest)
    ensures Before(rest, item.name)
  {}

  function Following(items: seq<Item>): string {
    if items == [] then "" else "\n" + JoinLines(items)
  }

  lemma JoinIsLineAndFollowing(items: seq<Item>)
    requires items != []
    ensures JoinLines(items) == Line(items[0]) + Following(items[1..])
  {}

  lemma {:induction false} PrefixBefore(a: string, b: string)
    requires a <= b && a != b
    ensures Before(a, b)
  {
    if a != "" { PrefixBefore(a[1..], b[1..]); }
  }

  /** What follows the name in a line. */
  function Details(item: Item): string {
    "\t" + Decimal(item.size) + "\t" + item.digest
  }

  lemma DetailsHaveNoNewline(item: Item)
    requires Plain(item.digest)
    ensures Line(item) == item.name + Details(item) && '\n' !in Details(item)
  {
    DecimalReadsBack(item.size);
  }

  /** A newline in a text that starts with a name and plain details is in the name or after the details. */
  lemma NewlineInName(name: string, details: string, rest: string, n: nat)
    requires '\n' !in details && n < |name + details| && (name + details + rest)[n] == '\n'
    ensures n < |name|
  {
    assert forall k :: |name| <= k < |name + details| ==> (name + details + rest)[k] == details[k - |name|];
  }

  lemma CutName(name: string, tail: string, line: string, after: string)
    requires |line| < |name| && name + tail == line + "\n" + after
    ensures name == line + "\n" + name[|line| + 1..] && after == name[|line| + 1..] + tail
  {
    var n, text := |line|, name + tail;
    assert line == text[..n] == name[..n] && text[n] == '\n' == name[n];
    assert after == text[n + 1..];
  }

  /** Where a line ends at a newline inside a longer line, it ends inside the longer line's name. */
  lemma LineEndsInName(x: Item, y: Item, after: string, rest: string)
    requires Plain(x.digest) && Plain(y.digest) && |Line(x)| < |Line(y)|
    requires Line(x) + "\n" + after == Line(y) + rest
    ensures |Line(x)| < |y.name| && Splits(y.name, x, y.name[|Line(x)| + 1..])
    ensures after == Line(Item(y.name[|Line(x)| + 1..], y.size, y.digest)) + rest
  {
    DetailsHaveNoNewline(y);
    assert (Line(x) + "\n" + after)[|Line(x)|] == '\n';
    NewlineInName(y.name, Details(y), rest, |Line(x)|);
    assert y.name + Details(y) + rest == y.name + (Details(y) + rest);
    CutName(y.name, Details(y) + rest, Line(x), after);
    var r := Item(y.name[|Line(x)| + 1..], y.size, y.digest);
    DetailsHaveNoNewline(r);
    assert r.name + Details(r) + rest == r.name + (Details(y) + rest);
  }

  ghost predicate NoneBefore(items: seq<Item>, bound: string) {
    forall i :: 0 <= i < |items| ==> !Before(items[i].name, bound)
  }

  /** No two readings overlap for ever: a reading that starts inside a line of the other with a smaller name
      than both have still to come does not exist. */
  lemma {:induction false} NoOverlap(x: seq<Item>, y: seq<Item>, open: Item, xBound: string, yBound: string)
    requires PlainDigests(x) && PlainDigests(y) && Plain(open.digest) && ClearNames(x) && ClearNames(y)
    requires NoneBefore(x, xBound) && NoneBefore(y, yBound)
    requires Before(open.name, xBound) && Before(open.name, yBound)
    requires x != [] && JoinLines(x) == Line(open) + Following(y)
    ensures false
    decreases |x| + |y|
  {
    JoinIsLineAndFollowing(x);
    if |Line(x[0])| == |Line(open)| {
      SameLength(x[0], open, Following(x[1..]), Following(y));
    } else if |Line(x[0])| < |Line(open)| {
      ShortIsBefore(x[0], open, Following(x[1..]), Following(y), xBound);
    } else {
      var r := LongOpens(x[0], open, Following(y), Following(x[1..]), xBound, yBound);
      NoOverlap(y, x[1..], Item(r, x[0].size, x[0].digest), yBound, xBound);
    }
  }

  lemma SameLength(first: Item, open: Item, after: string, rest: string)
    requires Plain(first.digest) && Plain(open.digest) && |Line(first)| == |Line(open)|
    requires Line(first) + after == Line(open) + rest
    ensures first == open
  {
    assert Line(first) == (Line(first) + after)[..|Line(open)|] == (Line(open) + rest)[..|Line(open)|] == Line(open);
    LineReadsBack(first);
    LineReadsBack(open);
  }

  lemma ShortIsBefore(first: Item, open: Item, after: string, rest: string, bound: string)
    requires Plain(first.digest) && Plain(open.digest) && |Line(first)| < |Line(open)| && Before(open.name, bound)
    requires Line(first) + after == Line(open) + rest && (after == "" || after[0] == '\n')
    ensures Before(first.name, bound)
  {
    ShorterFirst(first, open, after, rest);
    var n := |Line(first)|;
    assert first.name <= open.name[..n] <= open.name;
    PrefixBefore(first.name, open.name);
    BeforeTransitive(first.name, open.name, bound);
  }

  lemma LongOpens(first: Item, open: Item, after: string, rest: string, xBound: string, yBound: string)
    returns (r: string)
    requires Plain(first.digest) && Plain(open.digest) && |Line(open)| < |Line(first)| && Clear(first.name)
    requires Before(open.name, xBound) && Before(open.name, yBound)
    requires Line(open) + after == Line(first) + rest && (after == "" || after[0] == '\n')
    ensures after != "" && after[1..] == Line(Item(r, first.size, first.digest)) + rest
    ensures Before(r, xBound) && Before(r, yBound)
  {
    ShorterFirst(open, first, after, rest);
    r := first.name[|Line(open)| + 1..];
    ClearAt(first.name, open, r);
    BeforeTransitive(r, open.name, xBound);
    BeforeTransitive(r, open.name, yBound);
  }

  /** The shorter of two lines that start a text ends inside the name of the longer. */
  lemma ShorterFirst(x: Item, y: Item, after: string, rest: string)
    requires Plain(x.digest) && Plain(y.digest) && |Line(x)| < |Line(y)|
    requires Line(x) + after == Line(y) + rest && (after == "" || after[0] == '\n')
    ensures after != "" && |Line(x)| < |y.name| && Splits(y.name, x, y.name[|Line(x)| + 1..])
    ensures after[1..] == Line(Item(y.name[|Line(x)| + 1..], y.size, y.digest)) + rest
  {
    assert |Line(x) + after| == |Line(x)| + |after| && |Line(y) + rest| == |Line(y)| + |rest|;
    assert after == "\n" + after[1..];
    assert Line(x) + "\n" + after[1..] == Line(x) + after;
    LineEndsInName(x, y, after[1..], rest);
  }

  ghost predicate Readable(items: seq<Item>) {
    PlainDigests(items) && ClearNames(items) && Ordered(items)
  }

  lemma TailReadable(items: seq<Item>)
    requires Readable(items) && items != []
    ensures Readable(items[1..]) && NoneBefore(items[1..], items[0].name)
  {
    forall i | 0 <= i < |items[1..]| ensures !Before(items[1..][i].name, items[0].name) {
      assert !Precedes(items[i + 1], items[0]);
    }
  }

  /** With clear names the text of an ordered manifest determines it. */
  lemma {:induction false} JoinDetermines(x: seq<Item>, y: seq<Item>)
    requires Readable(x) && Readable(y) && JoinLines(x) == JoinLines(y)
    ensures x == y
  {
    if x != [] && y != [] {
      FirstLinesAgree(x, y);
      FirstLinesAgree(y, x);
      SameFirstLine(x, y);
      TailReadable(x);
      TailReadable(y);
      JoinDetermines(x[1..], y[1..]);
      assert x == [x[0]] + x[1..] && y == [y[0]] + y[1..];
    } else if x != [] {
      JoinIsLineAndFollowing(x);
    } else if y != [] {
      JoinIsLineAndFollowing(y);
    }
  }

  lemma SameFirstLine(x: seq<Item>, y: seq<Item>)
    requires PlainDigests(x) && PlainDigests(y) && x != [] && y != []
    requires JoinLines(x) == JoinLines(y) && |Line(x[0])| == |Line(y[0])|
    ensures x[0] == y[0] && JoinLines(x[1..]) == JoinLines(y[1..])
  {
    JoinIsLineAndFollowing(x);
    JoinIsLineAndFollowing(y);
    var n := |Line(x[0])|;
    assert Line(x[0]) == JoinLines(x)[..n] == JoinLines(y)[..n] == Line(y[0]);
    assert Following(x[1..]) == JoinLines(x)[n..] == JoinLines(y)[n..] == Following(y[1..]);
    LineReadsBack(x[0]);
    LineReadsBack(y[0]);
    assert x[1..] != [] ==> Following(x[1..])[1..] == JoinLines(x[1..]);
    assert y[1..] != [] ==> Following(y[1..])[1..] == JoinLines(y[1..]);
  }

  /** What is left of a longer first line has a smaller name than both first items. */
  lemma OpenLine(x: seq<Item>, y: seq<Item>) returns (open: Item)
    requires Readable(x) && Readable(y)
    requires x != [] && y != [] && JoinLines(x) == JoinLines(y) && |Line(x[0])| < |Line(y[0])|
    ensures x[1..] != [] && JoinLines(x[1..]) == Line(open) + Following(y[1..]) && Plain(open.digest)
    ensures Before(open.name, x[0].name) && Before(open.name, y[0].name)
  {
    JoinIsLineAndFollowing(x);
    JoinIsLineAndFollowing(y);
    ShorterFirst(x[0], y[0], Following(x[1..]), Following(y[1..]));
    var r := y[0].name[|Line(x[0])| + 1..];
    ClearAt(y[0].name, x[0], r);
    assert x[0].name <= Line(x[0]) <= y[0].name;
    PrefixBefore(x[0].name, y[0].name);
    BeforeTransitive(r, x[0].name, y[0].name);
    open := Item(r, y[0].size, y[0].digest);
  }

  /** Neither reading's first line ends inside the other's. */
  lemma FirstLinesAgree(x: seq<Item>, y: seq<Item>)
    requires Readable(x) && Readable(y)
    requires x != [] && y != [] && JoinLines(x) == JoinLines(y)
    ensures |Line(x[0])| >= |Line(y[0])|
  {
    if |Line(x[0])| < |Line(y[0])| {
      var open := OpenLine(x, y);
      TailReadable(x);
      TailReadable(y);
      NoOverlap(x[1..], y[1..], open, x[0].name, y[0].name);
    }
  }

  /** The payload depends on the items alone; with clear names, two manifests have the same payload exactly
      when they hold the same items. */
  lemma PayloadDeterminesManifest(a: seq<Item>, b: seq<Item>)
    ensures multiset(a) == multiset(b) ==> Payload(a) == Payload(b)
    ensures PlainDigests(a) && PlainDigests(b) && ClearNames(a) && ClearNames(b) ==>
      (Payload(a) == Payload(b) <==> multiset(a) == multiset(b))
  {
    SortDependsOnItems(a, b);
    if PlainDigests(a) && PlainDigests(b) && ClearNames(a) && ClearNames(b) && Payload(a) == Payload(b) {
      SortReadable(a);
      SortReadable(b);
      JoinDetermines(SortItems(a), SortItems(b));
    }
  }

  lemma SortReadable(items: seq<Item>)
    requires PlainDigests(items) && ClearNames(items)
    ensures Readable(SortItems(items))
  {
    SortKeepsItems(items);
    SortOrdered(items);
    forall i | 0 <= i < |SortItems(items)|
      ensures Plain(SortItems(items)[i].digest) && Clear(SortItems(items)[i].name)
    {
      assert SortItems(items)[i] in multiset(items);
    }
  }

  /** No other manifest shares the payload of a file of this name alone. */
  ghost predicate NeverConfused(name: string) {
    forall size: nat, digest, other ::
      Plain(digest) && PlainDigests(other) && SharesPayload(name, size, digest, other) ==>
        other == [Item(name, size, digest)]
  }

  ghost predicate SharesPayload(name: string, size: nat, digest: string, other: seq<Item>) {
    Payload(other) == Payload([Item(name, size, digest)])
  }

  /** Clear names are exactly those that are never confused. */
  lemma ClearIffNeverConfused(name: string)
    ensures Clear(name) <==> NeverConfused(name)
  {
    if Clear(name) {
      forall size: nat, digest, other | Plain(digest) && PlainDigests(other) && SharesPayload(name, size, digest, other)
        ensures other == [Item(name, size, digest)]
      {
        ClearIsNotConfused(Item(name, size, digest), other);
      }
    } else {
      var item, rest :| Splits(name, item, rest) && !Before(rest, item.name);
      var second := Item(rest, item.size + 1, "");
      SplitNamesCollide(name, item, second);
      assert SharesPayload(name, second.size, second.digest, [item, second]);
    }
  }

  /** A name that splits into a line and another name in order shares its payload with those two files. */
  lemma SplitNamesCollide(name: string, item: Item, second: Item)
    requires Splits(name, item, second.name) && !Precedes(second, item)
    ensures Payload([Item(name, second.size, second.digest)]) == Payload([item, second])
  {
    var whole := Item(name, second.size, second.digest);
    SortOne(whole);
    SortTwo(item, second);
    assert JoinLines([item, second][1..]) == Line(second);
    assert Line(whole) == Line(item) + "\n" + Line(second);
  }

  lemma ClearIsNotConfused(x: Item, other: seq<Item>)
    requires Clear(x.name) && Plain(x.digest) && PlainDigests(other) && Payload(other) == Payload([x])
    ensures other == [x]
  {
    SortOne(x);
    SortOrdered(other);
    SortKeepsItems(other);
    var y := SortItems(other);
    forall i | 0 <= i < |y| ensures Plain(y[i].digest) { assert y[i] in multiset(other); }
    AloneIsRead(x, y);
    assert |other| == |multiset(other)| == |multiset(y)| == 1;
    assert other[0] in multiset(y);
  }

  /** An ordered manifest with the text of one clear line is that line. */
  lemma AloneIsRead(x: Item, y: seq<Item>)
    requires Clear(x.name) && Plain(x.digest) && PlainDigests(y) && Ordered(y) && JoinLines(y) == Line(x)
    ensures y == [x]
  {
    assert Line(x)[|x.name|] == '\t';
    JoinIsLineAndFollowing(y);
    LineReadsBack(x);
    LineReadsBack(y[0]);
    assert Line(x) + "" == Line(x);
    if y[1..] != [] {
      ShorterFirst(y[0], x, Following(y[1..]), "");
      var r := x.name[|Line(y[0])| + 1..];
      assert Splits(x.name, y[0], r);
      assert JoinLines(y[1..]) == Following(y[1..])[1..] == Line(Item(r, x.size, x.digest));
      SecondNameIsSmaller(y, Item(r, x.size, x.digest));
    }
  }

  lemma FirstNameIsSmaller(rest: seq<Item>, open: Item)
    requires rest != [] && PlainDigests(rest) && Plain(open.digest) && JoinLines(rest) == Line(open)
    ensures rest[0].name == open.name || Before(rest[0].name, open.name)
  {
    JoinIsLineAndFollowing(rest);
    assert Line(open) + "" == Line(open);
    if rest[1..] != [] {
      ShorterFirst(rest[0], open, Following(rest[1..]), "");
      assert rest[0].name <= Line(rest[0]) <= open.name;
      PrefixBefore(rest[0].name, open.name);
    } else {
      LineReadsBack(rest[0]);
      LineReadsBack(open);
    }
  }

  lemma SecondNameIsSmaller(y: seq<Item>, open: Item)
    requires |y| > 1 && PlainDigests(y) && Plain(open.digest) && Ordered(y)
    requires JoinLines(y[1..]) == Line(open)
    ensures !Before(open.name, y[0].name)
  {
    FirstNameIsSmaller(y[1..], open);
    assert !Precedes(y[1], y[0]);
    NotBeforeLarger(y[1].name, open.name, y[0].name);
  }

  lemma NotBeforeLarger(a: string, b: string, c: string)
    requires (a == b || Before(a, b)) && !Before(a, c)
    ensures !Before(b, c)
  {
    if a != b && Before(b, c) { BeforeTransitive(a, b, c); }
  }

  /** With two tabs and a newline in a name, two different manifests share a payload. */
  lemma PayloadNeedsClearNames()
    ensures var one := [Item("a\t1\tx\nb", 2, "y")];
            var two := [Item("a", 1, "x"), Item("b", 2, "y")];
            Payload(one) == Payload(two) && multiset(one) != multiset(two)
  {
    var item, second := Item("a", 1, "x"), Item("b", 2, "y");
    assert Decimal(1) == "1";
    assert Line(item) == "a" + "\t" + "1" + "\t" + "x" == "a\t1\tx";
    SplitNamesCollide("a\t1\tx\nb", item, second);
    var one: seq<Item>, two: seq<Item> := [Item("a\t1\tx\nb", 2, "y")], [item, second];
    assert |multiset(one)| == 1 && |multiset(two)| == 2;
  }

  lemma SortOne(x: Item)
    ensures SortItems([x]) == [x]
  {
    assert SortItems([x][1..]) == [];
  }

  lemma SortTwo(x: Item, y: Item)
    requires !Precedes(y, x)
    ensures SortItems([x, y]) == [x, y]
  {
    SortOne(y);
    assert [x, y][1..] == [y];
  }
}
