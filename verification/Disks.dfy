/** A disk whose every operation may fail at any time, and whose snapshots may be wrong.

    A failing rename has no effect; the others may stop part of the way. `faults` counts the operations
    that failed and the snapshots that did not show the tree as it is; `misread` holds the paths of the
    latter, `raised` the errors of the former in order, `checks` counts the checks made and
    `refusals` those that said no, `lookups` the paths resolved and directories listed, and `blunders` the
    failed operations that could not have succeeded. */
module Disks {
  import opened Wrappers
  import opened FileTree

  datatype Category =
    | DestinationExists
    | SourceMissing
    | AccessDenied
    | SharingViolation
    | PathNotFound
    | RenameFailed
    | ManifestMismatch
    | RollbackFailed
    | UnexpectedFilesystemError

  datatype ErrorKind = PermissionKind | ExistsKind | MissingKind | OtherKind

  datatype OsError =
    | StateError(category: Category)
    | Native(winerror: Option<int>, errno: Option<int>, kind: ErrorKind)

  datatype Try<+T> = Success(value: T) | Failure(error: OsError)

  /** The errors raised by a step that ended with the error: its own, unless that was a check of the caller's. */
  ghost predicate RaisedBy(before: seq<OsError>, after: seq<OsError>, error: Option<OsError>) {
    after == if error.Some? && error.value.Native? then before + [error.value] else before
  }

  /** The rename would succeed: the source is there, and the target free, in a directory, and not inside it. */
  predicate CanRename(t: Tree, a: Path, b: Path) {
    a in t && NothingAt(t, b) && !(a <= b) && b != [] && IsDirectory(t, ParentOf(b))
  }

  /** The path is free, in a directory. */
  predicate CanCreate(t: Tree, p: Path) {
    p !in t && p != [] && IsDirectory(t, ParentOf(p))
  }

  class Disk {
    var tree: Tree
    ghost var faults: nat
    ghost var misread: multiset<Path>
    ghost var raised: seq<OsError>
    ghost var refusals: nat
    ghost var checks: nat
    ghost var lookups: nat
    ghost var blunders: nat

    static method AnyError() returns (e: OsError)
      ensures e.Native?
    {
      var winerror: Option<int> := *;
      var errno: Option<int> := *;
      var kind: ErrorKind := *;
      e := Native(winerror, errno, kind);
    }

    /** A check that may say no, such as whether a path is on a volume or free of reparse points. */
    method Permits() returns (permitted: bool)
      modifies `refusals, `checks
      ensures refusals == old(refusals) + (if permitted then 0 else 1) && checks == old(checks) + 1
    {
      permitted, checks := *, checks + 1;
      if !permitted { refusals := refusals + 1; }
    }

    /** A step that only reads, such as resolving a path or listing a directory. */
    method Resolve() returns (error: Option<OsError>)
      modifies `faults, `raised, `lookups
      ensures lookups == old(lookups) + 1
      ensures faults == old(faults) + (if error.Some? then 1 else 0)
      ensures error.Some? ==> error.value.Native?
      ensures RaisedBy(old(raised), raised, error)
    {
      var allowed: bool := *;
      lookups := lookups + 1;
      if allowed { return None; }
      var e := AnyError();
      faults, raised := faults + 1, raised + [e];
      error := Some(e);
    }

    /** Renames a directory to a path that is free, has its parent, and is not inside the directory. */
    method Rename(a: Path, b: Path) returns (error: Option<OsError>)
      modifies `tree, `faults, `raised, `blunders
      ensures error.None? ==> CanRename(old(tree), a, b) && Apart(a, b) && tree == Move(old(tree), a, b)
      ensures error.Some? ==> tree == old(tree)
      ensures blunders == old(blunders) + (if error.Some? && !CanRename(old(tree), a, b) then 1 else 0)
      ensures old(Closed(tree)) ==> Closed(tree)
      ensures faults == old(faults) + (if error.Some? then 1 else 0)
      ensures error.Some? ==> error.value.Native?
      ensures RaisedBy(old(raised), raised, error)
    {
      var allowed: bool := *;
      if allowed && CanRename(tree, a, b) {
        if Closed(tree) { MoveClosed(tree, a, b); }
        tree := Move(tree, a, b);
        return None;
      }
      var e := AnyError();
      faults, raised := faults + 1, raised + [e];
      blunders := if CanRename(tree, a, b) then blunders else blunders + 1;
      error := Some(e);
    }

    /** The snapshot shows the directory as it is. */
    ghost predicate Truthful(p: Path, r: Try<Tree>)
      reads this
    {
      IsDirectory(tree, p) && r == Success(Subtree(tree, p))
    }

    /** Any result at all; a wrong one is a fault, and one that is not an error is a misreading. */
    method Snapshot(p: Path) returns (r: Try<Tree>)
      modifies `faults, `misread, `raised
      ensures faults == old(faults) + (if Truthful(p, r) then 0 else 1)
      ensures r.Failure? ==> r.error.Native?
      ensures RaisedBy(old(raised), raised, if r.Failure? then Some(r.error) else None)
      ensures misread == old(misread) + (if r.Failure? || Truthful(p, r) then multiset{} else multiset{p})
    {
      var fails: bool := *;
      var shown: Tree := *;
      if fails {
        var e := AnyError();
        r, raised := Failure(e), raised + [e];
      } else {
        r := Success(shown);
        misread := if Truthful(p, r) then misread else misread + multiset{p};
      }
      faults := if Truthful(p, r) then faults else faults + 1;
    }

    method Mkdir(p: Path) returns (error: Option<OsError>)
      modifies `tree, `faults, `raised, `blunders
      ensures error.None? ==> p !in old(tree) && tree == old(tree)[p := Dir]
      ensures error.Some? ==> tree == old(tree)
      ensures blunders == old(blunders) + (if error.Some? && !CanCreate(old(tree), p) then 1 else 0)
      ensures old(Closed(tree)) ==> Closed(tree)
      ensures faults == old(faults) + (if error.Some? then 1 else 0)
      ensures error.Some? ==> error.value.Native?
      ensures RaisedBy(old(raised), raised, error)
    {
      var allowed: bool := *;
      if allowed && CanCreate(tree, p) {
        if Closed(tree) { AddClosed(tree, p, Dir); }
        tree := tree[p := Dir];
        return None;
      }
      var e := AnyError();
      faults, raised := faults + 1, raised + [e];
      blunders := if CanCreate(tree, p) then blunders else blunders + 1;
      error := Some(e);
    }

    /** Creates the missing directories on the way to `p`, in order, until one of them fails. */
    method MkdirParents(p: Path) returns (error: Option<OsError>)
      modifies `tree, `faults, `raised
      ensures OnlyAncestorsAdded(old(tree), tree, p)
      ensures old(Closed(tree)) ==> Closed(tree)
      ensures error.None? ==> IsDirectory(tree, p)
      ensures faults == old(faults) + (if error.Some? then 1 else 0)
      ensures error.Some? ==> error.value.Native?
      ensures RaisedBy(old(raised), raised, error)
    {
      for i := 0 to |p| + 1
        invariant OnlyAncestorsAdded(old(tree), tree, p)
        invariant old(Closed(tree)) ==> Closed(tree)
        invariant forall j :: 0 <= j < i ==> IsDirectory(tree, p[..j])
        invariant faults == old(faults) && raised == old(raised)
      {
        var ancestor := p[..i];
        var allowed: bool := *;
        if !allowed || (ancestor in tree && tree[ancestor] != Dir) {
          var e := AnyError();
          faults, raised := faults + 1, raised + [e];
          return Some(e);
        }
        if ancestor !in tree {
          assert i > 0 ==> ancestor[..i - 1] == p[..i - 1];
          if Closed(tree) { AddClosed(tree, ancestor, Dir); }
          tree := tree[ancestor := Dir];
        }
      }
      assert p[..|p|] == p;
      error := None;
    }

    /** Writes a file that must not exist; a failed write may leave part of it. */
    method WriteNew(p: Path, content: Node) returns (error: Option<OsError>)
      modifies `tree, `faults, `raised, `blunders
      ensures tree == old(tree) || (p !in old(tree) && p in tree && tree == old(tree)[p := tree[p]])
      ensures error.None? ==> p !in old(tree) && tree == old(tree)[p := content]
      ensures blunders == old(blunders) + (if error.Some? && !CanCreate(old(tree), p) then 1 else 0)
      ensures old(Closed(tree)) ==> Closed(tree)
      ensures faults == old(faults) + (if error.Some? then 1 else 0)
      ensures error.Some? ==> error.value.Native?
      ensures RaisedBy(old(raised), raised, error)
    {
      var created: bool := *;
      blunders := if CanCreate(tree, p) then blunders else blunders + 1;
      if created && CanCreate(tree, p) {
        var written: bool := *;
        if Closed(tree) { AddClosed(tree, p, content); }
        if written {
          tree := tree[p := content];
          return None;
        }
        var partial: Node := *;
        if Closed(tree) { AddClosed(tree, p, partial); }
        tree := tree[p := partial];
      }
      var e := AnyError();
      faults, raised := faults + 1, raised + [e];
      error := Some(e);
    }
  }
}
