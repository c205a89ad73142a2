/** A file system as a map from paths to nodes, and what moving a directory does to it. */
module FileTree {
  type Name = string
  type Path = seq<Name>

  datatype Node = Dir | File(size: nat, digest: string)

  type Tree = map<Path, Node>

  predicate IsDirectory(t: Tree, p: Path) {
    p in t && t[p] == Dir
  }

  /** Neither path is at or below the other. */
  predicate Apart(p: Path, q: Path) {
    !(p <= q) && !(q <= p)
  }

  /** Every entry has a directory for its parent. */
  ghost predicate Closed(t: Tree) {
    forall p {:trigger HasParent(t, p)} :: p in t ==> HasParent(t, p)
  }

  predicate HasParent(t: Tree, p: Path) {
    p == [] || IsDirectory(t, p[..|p| - 1])
  }

  /** The entries at and below `root`, named relative to it; it is also what a truthful snapshot of the
      directory holds. */
  function Subtree(t: Tree, root: Path): (s: Tree)
    ensures forall r {:trigger r in s} :: r in s <==> root + r in t
    ensures forall r {:trigger s[r]} :: r in s ==> s[r] == t[root + r]
  {
    var tails := set p | p in t && root <= p :: p[|root|..];
    assert forall p :: p in t && root <= p ==> root + p[|root|..] == p;
    assert forall r :: root + r in t ==> (root + r)[|root|..] == r && root <= root + r;
    map r | r in tails :: t[root + r]
  }

  predicate NothingAt(t: Tree, root: Path) {
    forall p :: p in t ==> !(root <= p)
  }

  /** The tree after renaming `a` to `b`. */
  function Move(t: Tree, a: Path, b: Path): Tree {
    Without(t, a) + Graft(Subtree(t, a), b)
  }

  /** The tree without the entries at and below `a`. */
  function Without(t: Tree, a: Path): (w: Tree)
    ensures forall p {:trigger p in w} :: p in w <==> p in t && !(a <= p)
    ensures forall p {:trigger w[p]} :: p in w ==> w[p] == t[p]
  {
    t - (set p | p in t && a <= p)
  }

  /** The entries of `s`, named below `b`. */
  function Graft(s: Tree, b: Path): (g: Tree)
    ensures forall p {:trigger p in g} :: p in g <==> b <= p && p[|b|..] in s
    ensures forall p {:trigger g[p]} :: p in g ==> g[p] == s[p[|b|..]]
  {
    assert forall r :: r in s ==> b <= b + r && (b + r)[|b|..] == r;
    assert forall p :: b <= p ==> b + p[|b|..] == p;
    map p | p in (set r | r in s :: b + r) :: s[p[|b|..]]
  }

  /** Two paths above the same path are nested. */
  lemma PrefixesNest(a: Path, b: Path, p: Path)
    ensures a <= p && b <= p ==> a <= b || b <= a
  {
    if a <= p && b <= p {
      assert |a| <= |b| ==> p[..|b|][..|a|] == p[..|a|];
      assert |b| <= |a| ==> p[..|a|][..|b|] == p[..|b|];
    }
  }

  lemma ApartBelow(p: Path, q: Path, r: Path, s: Path)
    requires Apart(p, q)
    ensures Apart(p + r, q + s)
  {
    assert p <= p + r && q <= q + s;
    PrefixesNest(p, q, q + s);
    PrefixesNest(p, q, p + r);
    assert p + r <= q + s ==> p <= q + s;
    assert q + s <= p + r ==> q <= p + r;
  }

  lemma SameBase(base: Path, p: Path, q: Path)
    ensures base + p <= base + q <==> p <= q
  {
    assert (base + q)[|base|..] == q && (base + p)[|base|..] == p;
    if base + p <= base + q {
      assert p == (base + q)[..|base + p|][|base|..];
    }
  }

  lemma SubtreeOfUnion(u: Tree, v: Tree, q: Path)
    ensures NothingAt(v, q) ==> Subtree(u + v, q) == Subtree(u, q)
    ensures NothingAt(u, q) ==> Subtree(u + v, q) == Subtree(v, q)
  {
    forall r ensures q <= q + r {}
  }

  lemma SubtreeOfWithout(t: Tree, a: Path, q: Path)
    requires Apart(q, a)
    ensures Subtree(Without(t, a), q) == Subtree(t, q)
  {
    forall r ensures !(a <= q + r) {
      assert q <= q + r;
      PrefixesNest(a, q, q + r);
    }
  }

  /** A move leaves every tree apart from both ends as it was. */
  lemma MoveElsewhere(t: Tree, a: Path, b: Path, q: Path)
    requires Apart(q, a) && Apart(q, b)
    ensures Subtree(Move(t, a, b), q) == Subtree(t, q)
  {
    var g := Graft(Subtree(t, a), b);
    forall p | p in g ensures !(q <= p) { PrefixesNest(b, q, p); }
    SubtreeOfUnion(Without(t, a), g, q);
    SubtreeOfWithout(t, a, q);
  }

  lemma SubtreeOfSubtree(t: Tree, a: Path, x: Path)
    ensures Subtree(Subtree(t, a), x) == Subtree(t, a + x)
  {
    forall r ensures r in Subtree(Subtree(t, a), x) <==> r in Subtree(t, a + x) {
      assert a + (x + r) == (a + x) + r;
    }
    forall r | r in Subtree(t, a + x) ensures Subtree(Subtree(t, a), x)[r] == Subtree(t, a + x)[r] {
      assert a + (x + r) == (a + x) + r;
    }
  }

  lemma SubtreeOfGraft(s: Tree, b: Path, x: Path)
    ensures Subtree(Graft(s, b), b + x) == Subtree(s, x)
  {
    forall r ensures b <= (b + x) + r && ((b + x) + r)[|b|..] == x + r {}
  }

  /** A move carries everything below its source along. */
  lemma MoveCarries(t: Tree, a: Path, b: Path, x: Path)
    requires NothingAt(t, b)
    ensures Subtree(Move(t, a, b), b + x) == Subtree(t, a + x)
  {
    assert NothingAt(Without(t, a), b + x) by {
      forall p | p in t ensures !(b + x <= p) { assert b + x <= p ==> b <= p; }
    }
    SubtreeOfUnion(Without(t, a), Graft(Subtree(t, a), b), b + x);
    SubtreeOfGraft(Subtree(t, a), b, x);
    SubtreeOfSubtree(t, a, x);
  }

  /** A move leaves nothing at its source. */
  lemma MoveEmpties(t: Tree, a: Path, b: Path)
    requires NothingAt(t, b) && Apart(a, b)
    ensures NothingAt(Move(t, a, b), a)
  {
    forall p | p in Move(t, a, b) ensures !(a <= p) {
      PrefixesNest(a, b, p);
    }
  }

  lemma MoveKeepsOthers(t: Tree, a: Path, b: Path, p: Path)
    requires !(a <= p) && !(b <= p)
    ensures p in Move(t, a, b) <==> p in t
    ensures p in t ==> Move(t, a, b)[p] == t[p]
  {}

  function ParentOf(p: Path): Path
    requires p != []
  {
    p[..|p| - 1]
  }

  lemma ParentStays(t: Tree, a: Path, b: Path, p: Path)
    requires p != [] && IsDirectory(t, ParentOf(p)) && !(a <= p) && !(b <= ParentOf(p))
    ensures IsDirectory(Move(t, a, b), ParentOf(p))
  {
    assert a <= ParentOf(p) ==> a <= p;
    MoveKeepsOthers(t, a, b, ParentOf(p));
  }

  lemma GraftedParent(s: Tree, b: Path, r: Path)
    requires r != [] && IsDirectory(s, ParentOf(r))
    ensures IsDirectory(Graft(s, b), ParentOf(b + r))
  {
    var q := b + ParentOf(r);
    assert ParentOf(b + r) == q && q[|b|..] == ParentOf(r);
  }

  lemma SubtreeClosed(t: Tree, a: Path, r: Path)
    requires Closed(t) && r != [] && r in Subtree(t, a)
    ensures IsDirectory(Subtree(t, a), ParentOf(r))
  {
    assert HasParent(t, a + r);
    assert ParentOf(a + r) == a + ParentOf(r);
  }

  lemma GraftedStays(t: Tree, a: Path, b: Path, q: Path)
    requires IsDirectory(Graft(Subtree(t, a), b), q)
    ensures IsDirectory(Move(t, a, b), q)
  {}

  lemma EntryHasParent(t: Tree, a: Path, b: Path, p: Path, r: Path)
    requires Closed(t) && b != [] && IsDirectory(t, ParentOf(b)) && !(a <= b)
    requires p != [] && if b <= p then p == b + r && r in Subtree(t, a) else p in t && !(a <= p)
    ensures IsDirectory(Move(t, a, b), ParentOf(p))
  {
    if !(b <= p) {
      assert HasParent(t, p);
      assert b <= ParentOf(p) ==> b <= p;
      ParentStays(t, a, b, p);
    } else if r == [] {
      assert p == b;
      ParentStays(t, a, b, b);
    } else {
      SubtreeClosed(t, a, r);
      GraftedParent(Subtree(t, a), b, r);
      GraftedStays(t, a, b, ParentOf(b + r));
    }
  }

  lemma InMove(t: Tree, a: Path, b: Path, p: Path)
    requires p in Move(t, a, b) && NothingAt(t, b)
    ensures b <= p ==> p[|b|..] in Subtree(t, a) && p == b + p[|b|..]
    ensures !(b <= p) ==> p in t && !(a <= p)
  {}

  /** A rename to a place in a directory leaves every entry in a directory. */
  lemma MoveClosed(t: Tree, a: Path, b: Path)
    requires Closed(t) && b != [] && IsDirectory(t, ParentOf(b)) && !(a <= b) && NothingAt(t, b)
    ensures Closed(Move(t, a, b))
  {
    var m := Move(t, a, b);
    forall p | p in m ensures HasParent(m, p) {
      if p != [] {
        InMove(t, a, b, p);
        EntryHasParent(t, a, b, p, if b <= p then p[|b|..] else []);
      }
    }
  }

  lemma NothingAtIsEmpty(t: Tree, root: Path)
    ensures NothingAt(t, root) <==> Subtree(t, root) == map[]
  {
    forall p | p in t && root <= p ensures p[|root|..] in Subtree(t, root) {
      assert root + p[|root|..] == p;
    }
    forall r | r in Subtree(t, root) ensures root <= root + r {}
  }

  lemma {:induction false} AncestorExists(t: Tree, p: Path, q: Path)
    requires Closed(t) && p in t && q <= p
    ensures q in t
    decreases |p|
  {
    if q != p {
      assert q <= p[..|p| - 1];
      assert HasParent(t, p);
      AncestorExists(t, p[..|p| - 1], q);
    }
  }

  lemma MissingIsEmpty(t: Tree, q: Path)
    requires Closed(t) && q !in t
    ensures NothingAt(t, q)
  {
    forall p | p in t ensures !(q <= p) {
      if q <= p { AncestorExists(t, p, q); }
    }
  }

  /** An entry added where its parent is. */
  lemma AddClosed(t: Tree, p: Path, n: Node)
    requires Closed(t) && HasParent(t, p) && p !in t
    ensures Closed(t[p := n])
  {
    var u := t[p := n];
    forall q | q in u ensures HasParent(u, q) {
      assert q in t ==> HasParent(t, q);
    }
  }

  /** `u` adds entries at or above `p` and changes nothing else. */
  ghost predicate OnlyAncestorsAdded(t: Tree, u: Tree, p: Path) {
    && (forall q :: q in t ==> q in u && u[q] == t[q])
    && (forall q :: q in u && q !in t ==> q <= p)
  }

  lemma AncestorsElsewhere(t: Tree, u: Tree, p: Path, q: Path)
    requires OnlyAncestorsAdded(t, u, p) && !(q <= p)
    ensures Subtree(u, q) == Subtree(t, q)
  {
    forall r ensures q + r in u <==> q + r in t {
      assert q + r <= p ==> q <= p;
    }
  }
}
