/** Where each source of an archive transaction can be, and what the moves do to that. */
module ArchiveLayout {
  import opened FileTree

  const MANIFEST_NAME: Name := "archive_manifest.json"

  datatype Place = Home | Staged | Published

  /** The paths of one transaction: the sources' own paths, their paths below the staging and archive
      directories, and those two directories. */
  datatype Layout = Layout(homes: seq<Path>, targets: seq<Path>, staging: Path, archive: Path)
  {
    function Spot(i: nat, place: Place): Path
      requires i < |homes| && i < |targets|
    {
      match place
      case Home => homes[i]
      case Staged => staging + targets[i]
      case Published => archive + targets[i]
    }
  }

  ghost predicate Separated(l: Layout) {
    && |l.homes| == |l.targets|
    && (forall i, j :: 0 <= i < j < |l.homes| ==> Apart(l.homes[i], l.homes[j]) && Apart(l.targets[i], l.targets[j]))
    && (forall i :: 0 <= i < |l.homes| ==> Apart(l.homes[i], l.staging) && Apart(l.homes[i], l.archive))
    && (forall i :: 0 <= i < |l.targets| ==> Apart(l.targets[i], [MANIFEST_NAME]))
    && Apart(l.staging, l.archive)
  }

  /** Source `i` is, unchanged, at its spot for `place`, and there is nothing at its two other spots. */
  ghost predicate Placed(l: Layout, t: Tree, originals: seq<Tree>, i: nat, place: Place)
    requires i < |l.homes| == |l.targets| == |originals|
  {
    forall at: Place {:trigger Subtree(t, l.Spot(i, at))} ::
      Subtree(t, l.Spot(i, at)) == if at == place then originals[i] else map[]
  }

  ghost predicate AllPlaced(l: Layout, t: Tree, originals: seq<Tree>, places: seq<Place>) {
    && |l.homes| == |l.targets| == |originals| == |places|
    && forall i {:trigger Placed(l, t, originals, i, places[i])} :: 0 <= i < |places| ==>
         Placed(l, t, originals, i, places[i])
  }

  /** Every original is a directory. */
  ghost predicate Rooted(originals: seq<Tree>) {
    forall i :: 0 <= i < |originals| ==> [] in originals[i] && originals[i][[]] == Dir
  }

  lemma SpotsApart(l: Layout, i: nat, at: Place, j: nat, there: Place)
    requires Separated(l) && i < |l.homes| && j < |l.homes| && (i != j || at != there)
    ensures Apart(l.Spot(i, at), l.Spot(j, there))
  {
    if at == Home && there == Home {
    } else if at == Home || there == Home {
      var h, k := if at == Home then i else j, if at == Home then j else i;
      var base := if at == Staged || there == Staged then l.staging else l.archive;
      ApartBelow(l.homes[h], base, [], l.targets[k]);
      assert l.homes[h] + [] == l.homes[h];
    } else if at == there {
      var base := if at == Staged then l.staging else l.archive;
      SameBase(base, l.targets[i], l.targets[j]);
      SameBase(base, l.targets[j], l.targets[i]);
    } else {
      ApartBelow(l.staging, l.archive, l.targets[i], l.targets[j]);
      ApartBelow(l.staging, l.archive, l.targets[j], l.targets[i]);
    }
  }

  /** Moving one source between two of its spots moves that source and no other. */
  lemma MoveOne(l: Layout, t: Tree, originals: seq<Tree>, places: seq<Place>, k: nat, to: Place)
    requires Separated(l) && AllPlaced(l, t, originals, places)
    requires k < |places| && places[k] != to && NothingAt(t, l.Spot(k, to))
    ensures AllPlaced(l, Move(t, l.Spot(k, places[k]), l.Spot(k, to)), originals, places[k := to])
  {
    var a, b := l.Spot(k, places[k]), l.Spot(k, to);
    var m := Move(t, a, b);
    forall i, at: Place | 0 <= i < |places|
      ensures Subtree(m, l.Spot(i, at)) == if at == places[k := to][i] then originals[i] else map[]
    {
      assert Placed(l, t, originals, i, places[i]);
      if i == k && at == to {
        MoveCarries(t, a, b, []);
        assert a + [] == a && b + [] == b;
      } else if i == k && at == places[k] {
        SpotsApart(l, k, places[k], k, to);
        MoveEmpties(t, a, b);
        NothingAtIsEmpty(m, a);
      } else {
        SpotsApart(l, i, at, k, places[k]);
        SpotsApart(l, i, at, k, to);
        MoveElsewhere(t, a, b, l.Spot(i, at));
      }
    }
  }

  function Uniform(n: nat, place: Place): seq<Place> {
    seq(n, _ => place)
  }

  /** What renaming the staging directory to the archive does to the three spots of a source. */
  lemma PublishedSpots(l: Layout, t: Tree, i: nat)
    requires Separated(l) && NothingAt(t, l.archive) && i < |l.homes|
    ensures var m := Move(t, l.staging, l.archive);
            && Subtree(m, l.homes[i]) == Subtree(t, l.homes[i])
            && Subtree(m, l.staging + l.targets[i]) == map[]
            && Subtree(m, l.archive + l.targets[i]) == Subtree(t, l.staging + l.targets[i])
  {
    MoveElsewhere(t, l.staging, l.archive, l.homes[i]);
    MoveCarries(t, l.staging, l.archive, l.targets[i]);
    MoveEmpties(t, l.staging, l.archive);
    BelowNothing(Move(t, l.staging, l.archive), l.staging, l.targets[i]);
  }

  lemma PlacedBySpots(l: Layout, t: Tree, m: Tree, originals: seq<Tree>, i: nat)
    requires i < |l.homes| == |l.targets| == |originals| && Placed(l, t, originals, i, Staged)
    requires Subtree(m, l.homes[i]) == Subtree(t, l.homes[i])
    requires Subtree(m, l.staging + l.targets[i]) == map[]
    requires Subtree(m, l.archive + l.targets[i]) == Subtree(t, l.staging + l.targets[i])
    ensures Placed(l, m, originals, i, Published)
  {
    assert Subtree(t, l.Spot(i, Home)) == map[] && Subtree(t, l.Spot(i, Staged)) == originals[i];
    forall at: Place
      ensures Subtree(m, l.Spot(i, at)) == if at == Published then originals[i] else map[]
    {
      match at
      case Home => assert l.Spot(i, at) == l.homes[i];
      case Staged => assert l.Spot(i, at) == l.staging + l.targets[i];
      case Published => assert l.Spot(i, at) == l.archive + l.targets[i];
    }
  }

  lemma PublishOne(l: Layout, t: Tree, originals: seq<Tree>, i: nat)
    requires Separated(l) && NothingAt(t, l.archive)
    requires i < |l.homes| == |originals| && Placed(l, t, originals, i, Staged)
    ensures Placed(l, Move(t, l.staging, l.archive), originals, i, Published)
  {
    PublishedSpots(l, t, i);
    PlacedBySpots(l, t, Move(t, l.staging, l.archive), originals, i);
  }

  /** Renaming the staging directory to the archive publishes every source at once. */
  lemma PublishAll(l: Layout, t: Tree, originals: seq<Tree>)
    requires Separated(l) && AllPlaced(l, t, originals, Uniform(|originals|, Staged))
    requires NothingAt(t, l.archive)
    ensures AllPlaced(l, Move(t, l.staging, l.archive), originals, Uniform(|originals|, Published))
  {
    forall i | 0 <= i < |originals|
      ensures Placed(l, Move(t, l.staging, l.archive), originals, i, Uniform(|originals|, Published)[i])
    {
      assert Placed(l, t, originals, i, Uniform(|originals|, Staged)[i]);
      PublishOne(l, t, originals, i);
    }
  }

  lemma BelowNothing(t: Tree, base: Path, x: Path)
    requires NothingAt(t, base)
    ensures Subtree(t, base + x) == map[]
  {
    forall p | p in t ensures !(base + x <= p) {
      assert base + x <= p ==> base <= p;
    }
    NothingAtIsEmpty(t, base + x);
  }

  /** Adding directories above a path that is above no spot changes no source. */
  lemma AncestorsKeepPlaces(l: Layout, t: Tree, u: Tree, originals: seq<Tree>, places: seq<Place>, p: Path)
    requires AllPlaced(l, t, originals, places) && OnlyAncestorsAdded(t, u, p)
    requires forall i, at: Place :: 0 <= i < |l.homes| ==> !(l.Spot(i, at) <= p)
    ensures AllPlaced(l, u, originals, places)
  {
    forall i, at: Place | 0 <= i < |places| ensures Subtree(u, l.Spot(i, at)) == Subtree(t, l.Spot(i, at)) {
      AncestorsElsewhere(t, u, p, l.Spot(i, at));
    }
    forall i | 0 <= i < |places| ensures Placed(l, u, originals, i, places[i]) {
      assert Placed(l, t, originals, i, places[i]);
    }
  }

  /** A source whose home exists is at home; one whose spot does not exist is not there. */
  lemma PlaceOfExisting(l: Layout, t: Tree, originals: seq<Tree>, places: seq<Place>, i: nat, at: Place)
    requires AllPlaced(l, t, originals, places) && Rooted(originals) && i < |places|
    ensures l.Spot(i, at) in t <==> places[i] == at
    ensures places[i] == at ==> t[l.Spot(i, at)] == Dir
    ensures places[i] != at ==> NothingAt(t, l.Spot(i, at))
  {
    assert Placed(l, t, originals, i, places[i]);
    var spot := l.Spot(i, at);
    assert spot + [] == spot;
    assert [] in Subtree(t, spot) <==> spot + [] in t;
    NothingAtIsEmpty(t, spot);
  }
}
