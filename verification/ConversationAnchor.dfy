/** Placement of the conversation capsule beside its anchor: an ordered candidate search, and a binary
    search over the percentages of the preferred size when that does not fit. */
module ConversationAnchor {
  import opened Wrappers

  datatype Rect = Rect(x: int, y: int, width: int, height: int)
  {
    function Right(): int { x + width }
    function Bottom(): int { y + height }
  }

  datatype Side = Upper | Below | Left | Right

  datatype Candidate = Candidate(side: Side, x: int, y: int)

  datatype Placement =
    | Placed(side: Side, rect: Rect, reduced: bool)
    | Unavailable

  /** The twelve aligned positions, in order of preference. Division by two rounds down. */
  function OrderedCandidates(anchor: Rect, area: Rect, w: int, h: int): seq<Candidate> {
    var xs := [anchor.Right() - w, anchor.x + anchor.width / 2 - w / 2, anchor.x];
    var ys := [anchor.Bottom() - h, anchor.y + anchor.height / 2 - h / 2, anchor.y];
    var left := [Candidate(Left, anchor.x - w, ys[0]), Candidate(Left, anchor.x - w, ys[1]),
                 Candidate(Left, anchor.x - w, ys[2])];
    var right := [Candidate(Side.Right, anchor.Right(), ys[0]), Candidate(Side.Right, anchor.Right(), ys[1]),
                  Candidate(Side.Right, anchor.Right(), ys[2])];
    [Candidate(Upper, xs[0], anchor.y - h), Candidate(Upper, xs[1], anchor.y - h),
     Candidate(Upper, xs[2], anchor.y - h)]
    + [Candidate(Below, xs[0], anchor.Bottom()), Candidate(Below, xs[1], anchor.Bottom()),
       Candidate(Below, xs[2], anchor.Bottom())]
    + if anchor.x - area.x > area.Right() - anchor.Right() then left + right else right + left
  }

  /** The capsule `(x, y, w, h)` touches the given side of the anchor from outside. */
  predicate Touches(anchor: Rect, side: Side, x: int, y: int, w: int, h: int) {
    match side
    case Upper => y + h == anchor.y
    case Below => y == anchor.Bottom()
    case Left => x + w == anchor.x
    case Right => x == anchor.Right()
  }

  /** Three intervals of the given length against another: far edges equal, centres equal when both lengths
      are made even by dropping a unit, near edges equal. */
  predicate Aligned(far: int, centre: int, near: int, length: int, start: int, other: int) {
    && far + length == start + other
    && 2 * centre + (length - length % 2) == 2 * start + (other - other % 2)
    && near == start
  }

  /** The order: three above, three below, three at the side with more room (the right one on a tie), three
      at the other; each three align the far edges, then the centres, then the near edges. */
  lemma CandidatesInOrder(anchor: Rect, area: Rect, w: int, h: int)
    ensures var cs := OrderedCandidates(anchor, area, w, h);
            var roomier := if anchor.x - area.x > area.Right() - anchor.Right() then Left else Side.Right;
            && |cs| == 12
            && (forall i :: 0 <= i < 12 ==> Touches(anchor, cs[i].side, cs[i].x, cs[i].y, w, h))
            && (forall i :: 0 <= i < 12 ==> (cs[i].side == Upper <==> i < 3) && (cs[i].side == Below <==> 3 <= i < 6)
                                            && (cs[i].side == roomier <==> 6 <= i < 9))
            && Aligned(cs[0].x, cs[1].x, cs[2].x, w, anchor.x, anchor.width)
            && Aligned(cs[3].x, cs[4].x, cs[5].x, w, anchor.x, anchor.width)
            && Aligned(cs[6].y, cs[7].y, cs[8].y, h, anchor.y, anchor.height)
            && Aligned(cs[9].y, cs[10].y, cs[11].y, h, anchor.y, anchor.height)
  {}

  predicate IsValid(c: Candidate, anchor: Rect, area: Rect, w: int, h: int) {
    && area.x <= c.x && area.y <= c.y
    && c.x + w <= area.Right() && c.y + h <= area.Bottom()
    && (c.x + w <= anchor.x || anchor.Right() <= c.x || c.y + h <= anchor.y || anchor.Bottom() <= c.y)
  }

  /** Some candidate is legal at this size. */
  predicate Feasible(anchor: Rect, area: Rect, w: int, h: int) {
    var cs := OrderedCandidates(anchor, area, w, h);
    exists i :: 0 <= i < |cs| && IsValid(cs[i], anchor, area, w, h)
  }

  /** The rectangle lies in the work area and meets the anchor in no point. */
  ghost predicate Legal(r: Rect, anchor: Rect, area: Rect) {
    && (forall x, y :: r.x <= x < r.Right() && r.y <= y < r.Bottom() ==> Covers(area, x, y) && !Covers(anchor, x, y))
  }

  predicate Covers(r: Rect, x: int, y: int) {
    r.x <= x < r.Right() && r.y <= y < r.Bottom()
  }

  /** The candidate test is exactly that the rectangle lies in the work area and meets the anchor nowhere. */
  lemma ValidIffLegal(c: Candidate, anchor: Rect, area: Rect, w: int, h: int)
    requires w > 0 && h > 0 && anchor.width > 0 && anchor.height > 0
    ensures IsValid(c, anchor, area, w, h) <==> Legal(Rect(c.x, c.y, w, h), anchor, area)
  {
    var r := Rect(c.x, c.y, w, h);
    if Legal(r, anchor, area) {
      assert Covers(area, c.x, c.y) && Covers(area, c.x + w - 1, c.y + h - 1);
      var x, y := if anchor.x < c.x then c.x else anchor.x, if anchor.y < c.y then c.y else anchor.y;
      assert !(Covers(r, x, y) && Covers(anchor, x, y));
    }
  }

  ghost predicate LegalAt(i: nat, anchor: Rect, area: Rect, w: int, h: int) {
    var cs := OrderedCandidates(anchor, area, w, h);
    i < |cs| && Legal(Rect(cs[i].x, cs[i].y, w, h), anchor, area)
  }

  /** The i-th candidate is the first one that is legal. */
  ghost predicate FirstLegal(i: nat, anchor: Rect, area: Rect, w: int, h: int) {
    LegalAt(i, anchor, area, w, h) && forall j: nat :: j < i ==> !LegalAt(j, anchor, area, w, h)
  }

  lemma FeasibleIffLegal(anchor: Rect, area: Rect, w: int, h: int)
    requires w > 0 && h > 0 && anchor.width > 0 && anchor.height > 0
    ensures Feasible(anchor, area, w, h) <==> exists i: nat :: LegalAt(i, anchor, area, w, h)
  {
    var cs := OrderedCandidates(anchor, area, w, h);
    forall i: nat | i < |cs| ensures IsValid(cs[i], anchor, area, w, h) <==> LegalAt(i, anchor, area, w, h) {
      ValidIffLegal(cs[i], anchor, area, w, h);
    }
  }

  lemma FirstIsFirstLegal(c: Candidate, anchor: Rect, area: Rect, w: int, h: int) returns (i: nat)
    requires w > 0 && h > 0 && anchor.width > 0 && anchor.height > 0 && IsFirst(c, anchor, area, w, h)
    ensures i < 12 && OrderedCandidates(anchor, area, w, h)[i] == c && FirstLegal(i, anchor, area, w, h)
  {
    var cs := OrderedCandidates(anchor, area, w, h);
    i :| 0 <= i < |cs| && cs[i] == c && IsValid(c, anchor, area, w, h)
         && forall j :: 0 <= j < i ==> !IsValid(cs[j], anchor, area, w, h);
    forall j: nat | j < |cs| ensures IsValid(cs[j], anchor, area, w, h) <==> LegalAt(j, anchor, area, w, h) {
      ValidIffLegal(cs[j], anchor, area, w, h);
    }
  }

  /** The first legal candidate in order of preference. */
  ghost predicate IsFirst(c: Candidate, anchor: Rect, area: Rect, w: int, h: int) {
    var cs := OrderedCandidates(anchor, area, w, h);
    exists i :: 0 <= i < |cs| && cs[i] == c && IsValid(c, anchor, area, w, h)
                && forall j :: 0 <= j < i ==> !IsValid(cs[j], anchor, area, w, h)
  }

  method FirstValidCandidate(anchor: Rect, area: Rect, w: int, h: int) returns (found: Option<Candidate>)
    ensures found.None? <==> !Feasible(anchor, area, w, h)
    ensures found.Some? ==> IsFirst(found.value, anchor, area, w, h)
  {
    var cs := OrderedCandidates(anchor, area, w, h);
    for i := 0 to |cs|
      invariant forall j :: 0 <= j < i ==> !IsValid(cs[j], anchor, area, w, h)
    {
      if IsValid(cs[i], anchor, area, w, h) { return Some(cs[i]); }
    }
    found := None;
  }

  // ----- Feasibility is monotone -----

  /** A smaller capsule has a legal candidate wherever a larger one has: the one with the same place in the order. */
  lemma SmallerIsFeasible(anchor: Rect, area: Rect, w: int, h: int, v: int, g: int)
    requires 0 < v <= w && 0 < g <= h && Feasible(anchor, area, w, h)
    ensures Feasible(anchor, area, v, g)
  {
    var cs, ds := OrderedCandidates(anchor, area, w, h), OrderedCandidates(anchor, area, v, g);
    var i :| 0 <= i < |cs| && IsValid(cs[i], anchor, area, w, h);
    SmallerKeepsInside(anchor, area, w, h, v, g, i);
    assert IsValid(ds[i], anchor, area, v, g);
  }

  /** The candidate with the same place in the order lies inside the larger one. */
  lemma SmallerLiesInside(anchor: Rect, area: Rect, w: int, h: int, v: int, g: int, i: nat)
    requires 0 < v <= w && 0 < g <= h && i < 12
    ensures var c, d := OrderedCandidates(anchor, area, w, h)[i], OrderedCandidates(anchor, area, v, g)[i];
            && c.x <= d.x && c.y <= d.y && d.x + v <= c.x + w && d.y + g <= c.y + h
  {
    assert v / 2 <= w / 2 && g / 2 <= h / 2 && v - v / 2 <= w - w / 2 && g - g / 2 <= h - h / 2;
  }

  lemma SmallerKeepsInside(anchor: Rect, area: Rect, w: int, h: int, v: int, g: int, i: nat)
    requires 0 < v <= w && 0 < g <= h && i < 12
    requires IsValid(OrderedCandidates(anchor, area, w, h)[i], anchor, area, w, h)
    ensures IsValid(OrderedCandidates(anchor, area, v, g)[i], anchor, area, v, g)
  {
    SmallerLiesInside(anchor, area, w, h, v, g, i);
    CandidatesInOrder(anchor, area, v, g);
    var d := OrderedCandidates(anchor, area, v, g)[i];
    assert Touches(anchor, d.side, d.x, d.y, v, g);
  }

  // ----- Scaling -----

  function Scaled(length: int, percent: int): int {
    var s := (length * percent) / 100;
    if s < 1 then 1 else s
  }

  /** The percentage of the length, rounded down, but at least one. */
  lemma ScaledMeaning(length: int, percent: int)
    ensures Scaled(length, percent) >= 1
    ensures length * percent >= 100 ==>
      100 * Scaled(length, percent) <= length * percent < 100 * (Scaled(length, percent) + 1)
    ensures length * percent < 100 ==> Scaled(length, percent) == 1
  {}

  /** The bound is the largest percentage up to 100 at which the unrounded size is no wider and no higher than
      the work area; one if there is none. */
  lemma MaxScalePercentMeaning(w: int, h: int, area: Rect, p: int)
    requires w > 0 && h > 0 && area.width > 0 && area.height > 0 && 1 <= p <= 100
    ensures p <= MaxScalePercent(w, h, area) <==> p == 1 || (w * p <= 100 * area.width && h * p <= 100 * area.height)
  {
    QuotientBound(100 * area.width, w, p);
    QuotientBound(100 * area.height, h, p);
  }

  lemma QuotientBound(n: int, d: int, p: int)
    requires d > 0
    ensures p <= n / d <==> d * p <= n
  {
    var q := n / d;
    assert n == d * q + n % d;
    if p <= q { assert d * p <= d * q; }
    if p > q { assert d * p >= d * (q + 1); }
  }

  predicate FeasibleAt(anchor: Rect, area: Rect, w: int, h: int, percent: int) {
    Feasible(anchor, area, Scaled(w, percent), Scaled(h, percent))
  }

  function Min(a: int, b: int): int { if a < b then a else b }

  function MaxScalePercent(w: int, h: int, area: Rect): (p: int)
    requires w > 0 && h > 0
    ensures 1 <= p <= 100
  {
    var p := Min(100, Min((area.width * 100) / w, (area.height * 100) / h));
    if p < 1 then 1 else p
  }

  lemma ScaledGrows(length: int, p: int, q: int)
    requires 0 < length && 0 < p <= q
    ensures 1 <= Scaled(length, p) <= Scaled(length, q)
  {
    assert length * p <= length * q;
  }

  lemma FullSizeIsHundredPercent(length: int)
    requires length > 0
    ensures Scaled(length, 100) == length
  {}

  /** What fits at one percentage fits at every smaller one. */
  lemma FeasibleBelow(anchor: Rect, area: Rect, w: int, h: int, p: int, q: int)
    requires 0 < w && 0 < h && 0 < p <= q && FeasibleAt(anchor, area, w, h, q)
    ensures FeasibleAt(anchor, area, w, h, p)
  {
    ScaledGrows(w, p, q);
    ScaledGrows(h, p, q);
    SmallerIsFeasible(anchor, area, Scaled(w, q), Scaled(h, q), Scaled(w, p), Scaled(h, p));
  }

  lemma NothingFeasibleAbove(anchor: Rect, area: Rect, w: int, h: int, p: int)
    requires 0 < w && 0 < h && 0 < p && !FeasibleAt(anchor, area, w, h, p)
    ensures forall q :: p <= q ==> !FeasibleAt(anchor, area, w, h, q)
  {
    forall q | p <= q ensures !FeasibleAt(anchor, area, w, h, q) {
      if FeasibleAt(anchor, area, w, h, q) { FeasibleBelow(anchor, area, w, h, p, q); }
    }
  }

  predicate PositiveSizes(size: (int, int), area: Rect) {
    size.0 > 0 && size.1 > 0 && area.width > 0 && area.height > 0
  }

  /** `p` is the largest percentage up to `bound` at which the capsule fits. */
  ghost predicate LargestFeasible(anchor: Rect, area: Rect, size: (int, int), bound: int, p: int) {
    && 1 <= p <= bound && FeasibleAt(anchor, area, size.0, size.1, p)
    && forall q :: p < q <= bound ==> !FeasibleAt(anchor, area, size.0, size.1, q)
  }

  /** The binary search: the first candidate at the largest feasible percentage up to the bound. */
  method SearchReduced(anchor: Rect, size: (int, int), area: Rect, bound: int)
    returns (best: Option<Candidate>, bestSize: (int, int), ghost percent: int)
    requires PositiveSizes(size, area) && bound >= 1
    ensures best.None? <==> !FeasibleAt(anchor, area, size.0, size.1, 1)
    ensures best.Some? ==> LargestFeasible(anchor, area, size, bound, percent)
    ensures best.Some? ==> bestSize == (Scaled(size.0, percent), Scaled(size.1, percent))
    ensures best.Some? ==> IsFirst(best.value, anchor, area, bestSize.0, bestSize.1)
  {
    var low, high := 1, bound;
    best, bestSize := None, (0, 0);
    while low <= high
      invariant 1 <= low <= high + 1 <= bound + 1
      invariant forall q :: high < q <= bound ==> !FeasibleAt(anchor, area, size.0, size.1, q)
      invariant best.None? ==> low == 1
      invariant best.Some? ==> low > 1 && FeasibleAt(anchor, area, size.0, size.1, low - 1)
      invariant best.Some? ==> bestSize == (Scaled(size.0, low - 1), Scaled(size.1, low - 1))
      invariant best.Some? ==> IsFirst(best.value, anchor, area, bestSize.0, bestSize.1)
    {
      var mid := (low + high) / 2;
      var reduced := (Scaled(size.0, mid), Scaled(size.1, mid));
      var candidate := FirstValidCandidate(anchor, area, reduced.0, reduced.1);
      if candidate.None? {
        NothingFeasibleAbove(anchor, area, size.0, size.1, mid);
        high := mid - 1;
      } else {
        best, bestSize, low := candidate, reduced, mid + 1;
      }
    }
    percent := low - 1;
    if best.Some? { FeasibleBelow(anchor, area, size.0, size.1, 1, percent); }
  }

  lemma FirstIsLegal(c: Candidate, anchor: Rect, area: Rect, w: int, h: int)
    requires IsFirst(c, anchor, area, w, h)
    ensures Legal(Rect(c.x, c.y, w, h), anchor, area)
  {}

  /** The first legal candidate at the preferred size; failing that, the first one at the largest feasible
      percentage up to the bound. It is unavailable exactly when a size is not positive or not even one
      percent fits; any rectangle returned is legal. */
  method PlaceConversationCapsule(anchor: Rect, size: (int, int), area: Rect) returns (p: Placement)
    ensures p.Unavailable? <==>
      || size.0 <= 0 || size.1 <= 0 || area.width <= 0 || area.height <= 0
      || !FeasibleAt(anchor, area, size.0, size.1, 1)
    ensures p.Placed? ==>
      && Legal(p.rect, anchor, area)
      && IsFirst(Candidate(p.side, p.rect.x, p.rect.y), anchor, area, p.rect.width, p.rect.height)
      && (p.reduced <==> !Feasible(anchor, area, size.0, size.1))
    ensures p.Placed? && !p.reduced ==> (p.rect.width, p.rect.height) == size
    ensures p.Placed? && p.reduced ==> exists percent ::
      && LargestFeasible(anchor, area, size, MaxScalePercent(size.0, size.1, area), percent)
      && (p.rect.width, p.rect.height) == (Scaled(size.0, percent), Scaled(size.1, percent))
    ensures size.0 > 0 && size.1 > 0 && area.width > 0 && area.height > 0 && anchor.width > 0 && anchor.height > 0 ==>
      (p.Unavailable? <==> !exists i: nat :: LegalAt(i, anchor, area, Scaled(size.0, 1), Scaled(size.1, 1)))
    ensures p.Placed? && anchor.width > 0 && anchor.height > 0 ==>
      && (p.reduced <==> !exists i: nat :: LegalAt(i, anchor, area, size.0, size.1))
      && exists i: nat ::
           && FirstLegal(i, anchor, area, p.rect.width, p.rect.height)
           && OrderedCandidates(anchor, area, p.rect.width, p.rect.height)[i] == Candidate(p.side, p.rect.x, p.rect.y)
  {
    p := PlaceValid(anchor, size, area);
    if PositiveSizes(size, area) && anchor.width > 0 && anchor.height > 0 {
      ScaledGrows(size.0, 1, 1);
      ScaledGrows(size.1, 1, 1);
      FeasibleIffLegal(anchor, area, Scaled(size.0, 1), Scaled(size.1, 1));
      if p.Placed? {
        FeasibleIffLegal(anchor, area, size.0, size.1);
        var i := FirstIsFirstLegal(Candidate(p.side, p.rect.x, p.rect.y), anchor, area, p.rect.width, p.rect.height);
      }
    }
  }

  /** The same, in terms of the candidate test. */
  method PlaceValid(anchor: Rect, size: (int, int), area: Rect) returns (p: Placement)
    ensures p.Unavailable? <==> !PositiveSizes(size, area) || !FeasibleAt(anchor, area, size.0, size.1, 1)
    ensures p.Placed? ==>
      && Legal(p.rect, anchor, area)
      && p.rect.width > 0 && p.rect.height > 0
      && IsFirst(Candidate(p.side, p.rect.x, p.rect.y), anchor, area, p.rect.width, p.rect.height)
      && (p.reduced <==> !Feasible(anchor, area, size.0, size.1))
    ensures p.Placed? && !p.reduced ==> (p.rect.width, p.rect.height) == size
    ensures p.Placed? && p.reduced ==> exists percent ::
      && LargestFeasible(anchor, area, size, MaxScalePercent(size.0, size.1, area), percent)
      && (p.rect.width, p.rect.height) == (Scaled(size.0, percent), Scaled(size.1, percent))
  {
    if !PositiveSizes(size, area) { return Unavailable; }
    var candidate := FirstValidCandidate(anchor, area, size.0, size.1);
    if candidate.Some? {
      FullSizeIsHundredPercent(size.0);
      FullSizeIsHundredPercent(size.1);
      FeasibleBelow(anchor, area, size.0, size.1, 1, 100);
      FirstIsLegal(candidate.value, anchor, area, size.0, size.1);
      return Placed(candidate.value.side, Rect(candidate.value.x, candidate.value.y, size.0, size.1), false);
    }
    var bound := MaxScalePercent(size.0, size.1, area);
    ghost var percent;
    var best, bestSize;
    best, bestSize, percent := SearchReduced(anchor, size, area, bound);
    if best.None? { return Unavailable; }
    FirstIsLegal(best.value, anchor, area, bestSize.0, bestSize.1);
    p := Placed(best.value.side, Rect(best.value.x, best.value.y, bestSize.0, bestSize.1), true);
  }

  // ----- The bound is not the last word -----

  /** No percentage up to 100 that fits gives a wider or a higher capsule than `p`. */
  ghost predicate LargestSize(anchor: Rect, area: Rect, size: (int, int), p: int) {
    forall q :: 1 <= q <= 100 && FeasibleAt(anchor, area, size.0, size.1, q) ==>
      Scaled(size.0, q) <= Scaled(size.0, p) && Scaled(size.1, q) <= Scaled(size.1, p)
  }

  predicate SameSize(size: (int, int), p: int, q: int) {
    Scaled(size.0, p) == Scaled(size.0, q) && Scaled(size.1, p) == Scaled(size.1, q)
  }

  /** The documentation promises the largest reduced size. The search, which looks no further than its
      bound, keeps that promise exactly when every percentage above the bound that fits rounds to the size
      at the bound. */
  lemma LargestSizeIffNoLargerFitsAboveBound(anchor: Rect, area: Rect, size: (int, int), p: int)
    requires PositiveSizes(size, area)
    requires LargestFeasible(anchor, area, size, MaxScalePercent(size.0, size.1, area), p)
    ensures var bound := MaxScalePercent(size.0, size.1, area);
            LargestSize(anchor, area, size, p)
            <==> forall q :: bound < q <= 100 && FeasibleAt(anchor, area, size.0, size.1, q) ==>
              SameSize(size, q, bound)
  {
    var bound := MaxScalePercent(size.0, size.1, area);
    forall q | 1 <= q <= 100 && FeasibleAt(anchor, area, size.0, size.1, q)
      ensures q > bound ==>
        p == bound && Scaled(size.0, p) <= Scaled(size.0, q) && Scaled(size.1, p) <= Scaled(size.1, q)
      ensures q <= bound ==> Scaled(size.0, q) <= Scaled(size.0, p) && Scaled(size.1, q) <= Scaled(size.1, p)
    {
      if q > bound {
        FeasibleBelow(anchor, area, size.0, size.1, bound, q);
        ScaledGrows(size.0, bound, q);
        ScaledGrows(size.1, bound, q);
      } else {
        ScaledGrows(size.0, q, p);
        ScaledGrows(size.1, q, p);
      }
    }
  }

  /** In percentages: the result is the largest up to 100 exactly when the one just above the bound does
      not fit. */
  lemma LargestOverallIffNextPercentDoesNotFit(anchor: Rect, area: Rect, size: (int, int), p: int)
    requires PositiveSizes(size, area)
    requires LargestFeasible(anchor, area, size, MaxScalePercent(size.0, size.1, area), p)
    ensures var bound := MaxScalePercent(size.0, size.1, area);
            LargestFeasible(anchor, area, size, 100, p)
            <==> bound == 100 || !FeasibleAt(anchor, area, size.0, size.1, bound + 1)
  {
    var bound := MaxScalePercent(size.0, size.1, area);
    if bound < 100 && !FeasibleAt(anchor, area, size.0, size.1, bound + 1) {
      NothingFeasibleAbove(anchor, area, size.0, size.1, bound + 1);
    }
  }

  /** A capsule of width 150 in an area of width 100 is held to 66 percent, a width of 99, although 67
      percent, a width of 100, fits. */
  lemma BoundExcludesALargerSize()
    ensures var anchor, area, size := Rect(0, 50, 100, 10), Rect(0, 0, 100, 100), (150, 10);
            && MaxScalePercent(size.0, size.1, area) == 66
            && LargestFeasible(anchor, area, size, 66, 66)
            && FeasibleAt(anchor, area, size.0, size.1, 67)
            && !LargestSize(anchor, area, size, 66)
  {
    var anchor, area := Rect(0, 50, 100, 10), Rect(0, 0, 100, 100);
    assert (150 * 66) / 100 == 99 && (10 * 66) / 100 == 6 && (150 * 67) / 100 == 100 && (10 * 67) / 100 == 6;
    UpperRightFits(anchor, area, 99, 6);
    UpperRightFits(anchor, area, 100, 6);
    assert FeasibleAt(anchor, area, 150, 10, 67) && Scaled(150, 67) > Scaled(150, 66);
  }

  lemma UpperRightFits(anchor: Rect, area: Rect, w: int, h: int)
    requires area.x <= anchor.Right() - w && anchor.Right() <= area.Right()
    requires area.y <= anchor.y - h && anchor.y <= area.Bottom()
    ensures Feasible(anchor, area, w, h)
  {
    assert IsValid(OrderedCandidates(anchor, area, w, h)[0], anchor, area, w, h);
  }
}
