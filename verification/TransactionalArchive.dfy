/** The archive transaction: move every source into staging, verify, publish, verify again, and on any
    failure move everything back. */
module TransactionalArchive {
  import opened Wrappers
  import opened FileTree
  import opened Disks
  import opened ArchiveLayout
  import opened ArchiveSteps

  datatype Diagnostic = Diagnostic(
    stage: Stage,
    sourceClass: Option<string>,
    category: Category,
    numericCode: Option<int>,
    rollbackAttempted: bool,
    rollbackCompleted: bool,
    originalSourcesRestored: bool,
    failedPartPreserved: bool)

  datatype Outcome = Complete | Failed(diagnostic: Diagnostic)

  /** What happened, for the contract: whether this call created the staging directory, where each source
      ended, and what the `try` block had done when it ended, with the moved sources at `at`. */
  datatype History = History(engaged: bool, places: seq<Place>, reached: Progress, at: Place, error: Option<OsError>)

  function ExceptionCategory(error: OsError, stage: Stage): Category {
    if error.StateError? then error.category
    else if error.winerror in {Some(32), Some(33)} then SharingViolation
    else match error.kind
      case PermissionKind => AccessDenied
      case ExistsKind => DestinationExists
      case MissingKind => if stage == Preflight then SourceMissing else PathNotFound
      case OtherKind => if stage in {MoveSource, Publish} then RenameFailed else UnexpectedFilesystemError
  }

  function NumericCode(error: OsError): Option<int> {
    if error.StateError? then None
    else if error.winerror.Some? && error.winerror.value != 0 then error.winerror
    else error.errno
  }

  /** Which category each error gets. A native error is named after its Windows code for a sharing violation,
      else after its kind, and for the other kinds after the stage. */
  lemma CategoryMeaning(error: OsError, stage: Stage)
    ensures error.StateError? ==> ExceptionCategory(error, stage) == error.category && NumericCode(error) == None
    ensures error.Native? ==>
      var c, sharing := ExceptionCategory(error, stage), error.winerror == Some(32) || error.winerror == Some(33);
      && (c == SharingViolation <==> sharing)
      && (c == AccessDenied <==> !sharing && error.kind == PermissionKind)
      && (c == DestinationExists <==> !sharing && error.kind == ExistsKind)
      && (c == SourceMissing <==> !sharing && error.kind == MissingKind && stage == Preflight)
      && (c == PathNotFound <==> !sharing && error.kind == MissingKind && stage != Preflight)
      && (c == RenameFailed <==> !sharing && error.kind == OtherKind && (stage == MoveSource || stage == Publish))
      && (c == UnexpectedFilesystemError
          <==> !sharing && error.kind == OtherKind && stage != MoveSource && stage != Publish)
    ensures error.Native? ==>
      && (error.winerror.Some? && error.winerror.value != 0 ==> NumericCode(error) == error.winerror)
      && (error.winerror.None? || error.winerror.value == 0 ==> NumericCode(error) == error.errno)
  {}

  // ----- Rolling back -----

  function Base(l: Layout, at: Place): Path {
    if at == Published then l.archive else l.staging
  }

  /** The sources that are not at home are at `at`, whose directory exists; before publishing there is no
      archive. */
  ghost predicate Based(l: Layout, t: Tree, originals: seq<Tree>, places: seq<Place>, at: Place) {
    && at != Home
    && Separated(l) && Rooted(originals)
    && AllPlaced(l, t, originals, places)
    && Base(l, at) in t
    && (at == Staged ==> l.archive !in t)
  }

  lemma PublishedIsBased(l: Layout, t: Tree, originals: seq<Tree>)
    requires StagingReady(l, t, originals, MovedPlaces(|originals|, |originals|, Staged))
    ensures Based(l, Move(t, l.staging, l.archive), originals, MovedPlaces(|originals|, |originals|, Published),
                  Published)
  {
    var n := |originals|;
    AllMovedYet(n, Staged);
    AllMovedYet(n, Published);
    PublishAll(l, t, originals);
    MoveCarries(t, l.staging, l.archive, []);
    var m := Move(t, l.staging, l.archive);
    assert l.staging + [] == l.staging && l.archive + [] == l.archive;
    assert [] in Subtree(t, l.staging + []) && [] in Subtree(m, l.archive + []);
  }

  /** Making the parents of a home again changes nothing that matters. */
  lemma ParentsKeepBased(l: Layout, t: Tree, u: Tree, originals: seq<Tree>, places: seq<Place>, at: Place, k: nat)
    requires Based(l, t, originals, places, at) && k < |l.homes| && l.homes[k] != []
    requires OnlyAncestorsAdded(t, u, l.homes[k][..|l.homes[k]| - 1])
    ensures Based(l, u, originals, places, at)
  {
    var home := l.homes[k];
    var p := home[..|home| - 1];
    forall i, spot: Place | 0 <= i < |l.homes| ensures !(l.Spot(i, spot) <= p) {
      var q := l.Spot(i, spot);
      assert q <= p ==> q <= home && |q| < |home|;
      if i != k || spot != Home { SpotsApart(l, i, spot, k, Home); }
    }
    AncestorsKeepPlaces(l, t, u, originals, places, p);
    assert l.archive <= p ==> l.archive <= home;
  }

  /** Moving source `k` back home leaves the ones before it where they were. */
  lemma MoveHomeKeepsBased(l: Layout, t: Tree, originals: seq<Tree>, at: Place, k: nat)
    requires k < |originals| && Based(l, t, originals, MovedPlaces(|originals|, k + 1, at), at)
    requires NothingAt(t, l.homes[k])
    ensures Based(l, Move(t, l.Spot(k, at), l.homes[k]), originals, MovedPlaces(|originals|, k, at), at)
  {
    var places := MovedPlaces(|originals|, k + 1, at);
    MoveOne(l, t, originals, places, k, Home);
    assert places[k := Home] == MovedPlaces(|originals|, k, at);
    assert l.targets[k] != [] by { assert [] <= [MANIFEST_NAME]; }
    MoveKeepsOthers(t, l.Spot(k, at), l.homes[k], Base(l, at));
    if at == Staged {
      ApartBelow(l.staging, l.archive, l.targets[k], []);
      assert l.archive + [] == l.archive;
      MoveKeepsOthers(t, l.Spot(k, at), l.homes[k], l.archive);
    }
  }

  /** The first `k` sources are at `at` and the others at home, if the caller has seen to the paths. */
  ghost predicate Away(job: Job, t: Tree, originals: seq<Tree>, k: nat, at: Place) {
    job.WellSeparated() ==> Based(job.Layout(), t, originals, MovedPlaces(|originals|, k, at), at)
  }

  /** `base` is the directory that holds the sources that are not at home. */
  ghost predicate IsBase(job: Job, base: Path, at: Place) {
    job.WellSeparated() ==> base == Base(job.Layout(), at)
  }

  /** Source `k` is at `base` and its home is free. */
  lemma ReadyToMoveBack(job: Job, t: Tree, originals: seq<Tree>, k: nat, base: Path, at: Place)
    requires k < |job.sources| == |originals|
    requires Away(job, t, originals, k + 1, at) && IsBase(job, base, at)
    ensures job.WellSeparated() ==>
      job.Home(job.sources[k]) !in t && base + job.sources[k].target.parts in t
  {
    if job.WellSeparated() {
      var l, places := job.Layout(), MovedPlaces(|originals|, k + 1, at);
      PlaceOfExisting(l, t, originals, places, k, at);
      PlaceOfExisting(l, t, originals, places, k, Home);
      assert l.Spot(k, at) == base + job.sources[k].target.parts && l.homes[k] == job.Home(job.sources[k]);
    }
  }

  /** The directory that a path is in; the root is in itself. */
  function Above(p: Path): Path { if p == [] then [] else ParentOf(p) }

  lemma ParentsKeepAway(job: Job, t: Tree, u: Tree, originals: seq<Tree>, k: nat, at: Place)
    requires k < |job.sources| == |originals|
    requires Away(job, t, originals, k + 1, at) && OnlyAncestorsAdded(t, u, Above(job.Home(job.sources[k])))
    ensures Away(job, u, originals, k + 1, at)
  {
    if job.WellSeparated() {
      var l := job.Layout();
      assert l.homes[k] == job.Home(job.sources[k]);
      assert l.homes[k] != [] by { assert [] <= job.Parent(); }
      ParentsKeepBased(l, t, u, originals, MovedPlaces(|originals|, k + 1, at), at, k);
    }
  }

  lemma MovedBack(job: Job, t: Tree, originals: seq<Tree>, k: nat, base: Path, at: Place)
    requires k < |job.sources| == |originals|
    requires Away(job, t, originals, k + 1, at) && IsBase(job, base, at) && NothingAt(t, job.Home(job.sources[k]))
    ensures Away(job, Move(t, base + job.sources[k].target.parts, job.Home(job.sources[k])), originals, k, at)
  {
    if job.WellSeparated() { MoveHomeKeepsBased(job.Layout(), t, originals, at, k); }
  }

  /** Once its parents exist, source `k` can be moved back. */
  lemma CanMoveBack(job: Job, t: Tree, originals: seq<Tree>, k: nat, base: Path, at: Place)
    requires k < |job.sources| == |originals|
    requires Away(job, t, originals, k + 1, at) && IsBase(job, base, at)
    requires IsDirectory(t, Above(job.Home(job.sources[k])))
    ensures job.WellSeparated() ==> CanRename(t, base + job.sources[k].target.parts, job.Home(job.sources[k]))
  {
    if job.WellSeparated() {
      var l, places := job.Layout(), MovedPlaces(|originals|, k + 1, at);
      assert l.Spot(k, at) == base + job.sources[k].target.parts && l.homes[k] == job.Home(job.sources[k]);
      PlaceOfExisting(l, t, originals, places, k, at);
      PlaceOfExisting(l, t, originals, places, k, Home);
      SpotsApart(l, k, at, k, Home);
      assert l.homes[k] != [] by { assert [] <= job.Parent(); }
    }
  }

  /** Moves source `k` back if it is at `base` and not at home. */
  method MoveOneBack(disk: Disk, job: Job, k: nat, base: Path, ghost originals: seq<Tree>, ghost at: Place)
    returns (error: Option<OsError>)
    requires k < |job.sources| == |originals|
    requires Away(job, disk.tree, originals, k + 1, at) && IsBase(job, base, at)
    modifies disk`tree, disk`faults, disk`raised, disk`blunders
    ensures job.WellSeparated() ==> disk.blunders == old(disk.blunders)
    ensures RaisedBy(old(disk.raised), disk.raised, error) && (error.Some? ==> error.value.Native?)
    ensures Away(job, disk.tree, originals, if error.None? then k else k + 1, at)
    ensures old(Closed(disk.tree)) ==> Closed(disk.tree)
    ensures disk.faults == old(disk.faults) + (if error.Some? then 1 else 0)
  {
    var archived, original := base + job.sources[k].target.parts, job.Home(job.sources[k]);
    ReadyToMoveBack(job, disk.tree, originals, k, base, at);
    if !(archived in disk.tree && original !in disk.tree) { return None; }
    error := disk.MkdirParents(Above(original));
    ParentsKeepAway(job, old(disk.tree), disk.tree, originals, k, at);
    if error.Some? { return; }
    ghost var before := disk.tree;
    CanMoveBack(job, before, originals, k, base, at);
    error := disk.Rename(archived, original);
    if error.None? { MovedBack(job, before, originals, k, base, at); }
  }

  /** Moves the sources back in reverse order; without an error they are all at home. */
  method MoveBack(disk: Disk, job: Job, moved: seq<Source>, base: Path, ghost originals: seq<Tree>, ghost at: Place)
    returns (error: Option<OsError>, ghost left: nat)
    requires moved <= job.sources && |originals| == |job.sources|
    requires Away(job, disk.tree, originals, |moved|, at) && IsBase(job, base, at)
    modifies disk`tree, disk`faults, disk`raised, disk`blunders
    ensures job.WellSeparated() ==> disk.blunders == old(disk.blunders)
    ensures RaisedBy(old(disk.raised), disk.raised, error) && (error.Some? ==> error.value.Native?)
    ensures Away(job, disk.tree, originals, left, at)
    ensures old(Closed(disk.tree)) ==> Closed(disk.tree)
    ensures error.None? ==> left == 0
    ensures disk.faults == old(disk.faults) + (if error.Some? then 1 else 0)
  {
    for k := |moved| downto 0
      invariant job.WellSeparated() ==> disk.blunders == old(disk.blunders)
      invariant Away(job, disk.tree, originals, k, at)
      invariant disk.faults == old(disk.faults) && disk.raised == old(disk.raised)
      invariant old(Closed(disk.tree)) ==> Closed(disk.tree)
    {
      error := MoveOneBack(disk, job, k, base, originals, at);
      if error.Some? { return error, k + 1; }
    }
    error, left := None, 0;
  }

  /** Whether every source is a directory at its own path and looks as it did in preflight. */
  method AllRestored(disk: Disk, job: Job, snapshots: seq<Tree>) returns (error: Option<OsError>, restored: bool)
    requires |snapshots| == |job.sources|
    modifies disk`faults, disk`misread, disk`raised
    ensures RaisedBy(old(disk.raised), disk.raised, error) && (error.Some? ==> error.value.Native?)
    ensures disk.faults >= old(disk.faults)
    ensures disk.faults == old(disk.faults) ==> disk.misread == old(disk.misread)
    ensures error.Some? ==> !restored && disk.faults > old(disk.faults)
    ensures restored ==> forall i :: 0 <= i < |job.sources| ==> IsDirectory(disk.tree, job.Home(job.sources[i]))
    ensures disk.faults == old(disk.faults)
      && (forall i :: 0 <= i < |job.sources| ==> IsDirectory(disk.tree, job.Home(job.sources[i]))
                                                 && Subtree(disk.tree, job.Home(job.sources[i])) == snapshots[i])
      ==> error.None? && restored
    ensures disk.faults == old(disk.faults) && restored ==>
      forall i :: 0 <= i < |job.sources| ==> Subtree(disk.tree, job.Home(job.sources[i])) == snapshots[i]
  {
    for k := 0 to |job.sources|
      invariant disk.faults >= old(disk.faults) && disk.raised == old(disk.raised)
      invariant disk.faults == old(disk.faults) ==> disk.misread == old(disk.misread)
      invariant forall i :: 0 <= i < k ==> IsDirectory(disk.tree, job.Home(job.sources[i]))
      invariant disk.faults == old(disk.faults) ==>
        forall i :: 0 <= i < k ==> Subtree(disk.tree, job.Home(job.sources[i])) == snapshots[i]
    {
      var home := job.Home(job.sources[k]);
      if !IsDirectory(disk.tree, home) { return None, false; }
      var r := disk.Snapshot(home);
      if r.Failure? { return Some(r.error), false; }
      if r.value != snapshots[k] { return None, false; }
    }
    error, restored := None, true;
  }

  // ----- The transaction -----

  /** The checks that can fail in each stage. */
  predicate StageCategory(stage: Stage, c: Category) {
    match stage
    case Preflight => c in {UnexpectedFilesystemError, SourceMissing, DestinationExists, RenameFailed}
    case CreatePart => c in {AccessDenied, DestinationExists}
    case MoveSource => false
    case VerifyPart => c == ManifestMismatch
    case Publish => c == ManifestMismatch
    case Rollback => c == RollbackFailed
  }

  /** What the call demands before it moves anything: what preflight admits, and a free staging name. */
  ghost predicate Startable(job: Job, t: Tree) {
    Admitted(job, t) && job.Child(job.stagingName) !in t
  }

  /** What is known of a call that failed with the error before it created the staging directory; `clean` says
      that there was no fault. */
  ghost predicate Unstarted(job: Job, t: Tree, p: Progress, error: OsError, clean: bool) {
    && (p.target.Some? ==> p.target.value == job.Child(job.archiveName))
    && (p.staging.Some? ==> p.staging.value == job.Child(job.stagingName))
    && (p.stalePart ==> HasPart(t, job.Parent()) && error == StateError(DestinationExists))
    && (p.staging.Some? && p.staging.value in t ==> error == StateError(DestinationExists))
    && (error == StateError(DestinationExists) ==>
          p.stalePart || (p.staging.Some? && p.staging.value in t) || job.Child(job.archiveName) in t)
    && (clean ==> error.StateError? && p.target.Some?)
  }

  /** No source is at home, and unless there was a fault every one is in the archive as it was. */
  ghost predicate VerifiedArchive(job: Job, t: Tree, snapshots: seq<Tree>, clean: bool)
    requires |snapshots| == |job.sources|
  {
    && (forall s :: s in job.sources ==> job.Home(s) !in t)
    && (clean ==> Matches(job, t, job.Child(job.archiveName), snapshots))
  }

  /** With well-separated paths the manifest is in the archive. */
  ghost predicate PublishesManifest(job: Job, t: Tree, manifest: Node) {
    job.WellSeparated() ==> HoldsManifest(job, t, job.archiveName, manifest)
  }

  /** What the stage in which the `try` block ended says of the sources it had moved, of the one it was at, and
      of the directory they are in. */
  ghost predicate StageMeans(job: Job, p: Progress, at: Place, error: Option<OsError>) {
    && (p.stage in {Preflight, CreatePart} ==> p.moved == [] && at == Staged)
    && (p.stage == CreatePart ==> p.sourceClass == None)
    && (p.stage == MoveSource ==>
          |p.moved| < |job.sources| && p.sourceClass == Some(job.sources[|p.moved|].sourceClass) && at == Staged)
    && (p.stage in {VerifyPart, Publish} ==> p.moved == job.sources)
    && (p.stage == VerifyPart ==> at == Staged && p.sourceClass.Some?)
    && (p.stage == Publish ==> (at == Published <==> p.sourceClass.Some?))
    && (p.stage == Publish && at == Staged ==> error.Some? && error.value.Native?)
  }

  /** The call stopped at something that it does not accept. */
  ghost predicate StoppedAtStart(job: Job, t: Tree, stage: Stage, category: Category, sourceClass: Option<string>) {
    && !Startable(job, t) && NotAccepted(job, t, category, sourceClass)
    && (stage == CreatePart <==> Admitted(job, t))
  }

  /** The call stopped at the check of that number, the last of which is made in the second stage. */
  predicate RefusedAt(job: Job, check: int, stage: Stage, category: Category) {
    && check >= 0 && category == RefusalCategory(job, check)
    && (stage == CreatePart <==> check == |job.sources| + 2)
  }

  /** The diagnostic has the stage and the source class of where the `try` block ended, or those of a rollback
      that failed; a rollback was attempted exactly if something had been moved. */
  ghost predicate Traced(job: Job, p: Progress, d: Diagnostic) {
    && p.moved <= job.sources && (d.rollbackAttempted <==> p.moved != [])
    && if d.stage == Rollback then p.moved != [] && d.sourceClass == Some(p.moved[|p.moved| - 1].sourceClass)
       else d.stage == p.stage && d.sourceClass == p.sourceClass
  }

  /** The `try` block. `at` is where the moved sources are when it ends. */
  method Forward(disk: Disk, job: Job, manifest: Node, ghost originals: seq<Tree>)
    returns (error: Option<OsError>, p: Progress, ghost engaged: bool, ghost at: Place)
    requires Closed(disk.tree) && originals == Originals(disk.tree, job.Layout())
    modifies disk
    ensures RaisedBy(old(disk.raised), disk.raised, error) && disk.refusals >= old(disk.refusals)
    ensures error.None? ==> disk.refusals == old(disk.refusals)
    ensures error.Some? && error.value.StateError? ==> StageCategory(p.stage, error.value.category)
    ensures job.WellSeparated() ==> disk.blunders == old(disk.blunders)
    ensures error.None? ==> disk.checks == old(disk.checks) + |job.sources| + 2
    ensures engaged ==> disk.lookups == old(disk.lookups) + (if job.Parent() in old(disk.tree) then 2 else 1)
    ensures error.None? ==> Startable(job, old(disk.tree)) && PublishesManifest(job, disk.tree, manifest)
    ensures error.None? ==> VerifiedArchive(job, disk.tree, originals, disk.faults == old(disk.faults))
    ensures job.WellSeparated() && error.Some? && disk.faults == old(disk.faults)
            && disk.refusals == old(disk.refusals) ==>
      error.value.StateError?
      && StoppedAtStart(job, old(disk.tree), p.stage, error.value.category, p.sourceClass)
    ensures disk.refusals > old(disk.refusals) ==>
      && error.Some? && error.value.StateError? && !engaged
      && RefusedAt(job, disk.checks - old(disk.checks), p.stage, error.value.category)
    ensures job.WellSeparated() && error.None? && !HomesRead(job, old(disk.misread), disk.misread) ==>
      disk.faults >= old(disk.faults) + 3
    ensures disk.faults >= old(disk.faults)
    ensures p.moved <= job.sources
    ensures error.None? ==> engaged && at == Published && p.moved == job.sources
    ensures p.stage != Rollback
    ensures StageMeans(job, p, at, error)
    ensures !engaged ==> error.Some? && p.moved == [] && NothingLost(old(disk.tree), disk.tree)
    ensures !engaged ==> Untouched(job, disk.tree, originals)
    ensures !engaged ==> Unstarted(job, disk.tree, p, error.value, disk.faults == old(disk.faults))
    ensures engaged ==> |p.snapshots| == |job.sources| && !p.stalePart && p.target == Some(job.Child(job.archiveName))
    ensures engaged ==> p.staging == if at == Staged then Some(job.Child(job.stagingName)) else None
    ensures Closed(disk.tree)
    ensures at != Home
    ensures engaged ==> Away(job, disk.tree, originals, |p.moved|, at)
    ensures p.stage in {Preflight, CreatePart} ==> p.moved == []
    ensures job.WellSeparated() && disk.faults == old(disk.faults) && error.Some? ==> p.stage in {Preflight, CreatePart}
    ensures job.WellSeparated() && p.moved != [] ==>
      (HomesRead(job, old(disk.misread), disk.misread) <==> p.snapshots == originals)
    ensures job.WellSeparated() && p.moved != [] && p.snapshots == originals ==>
      disk.faults == old(disk.faults) + (if error.Some? then 1 else 0)
  {
    at, engaged := Staged, false;
    error, p := RunPreflight(disk, job);
    if error.Some? { return; }
    ghost var checked := disk.misread;
    error, p, engaged, at := Transfer(disk, job, manifest, p, originals);
    if job.WellSeparated() { HomesReadAfter(job, old(disk.misread), checked, disk.misread); }
  }

  /** The `try` block after preflight. */
  method Transfer(disk: Disk, job: Job, manifest: Node, before: Progress, ghost originals: seq<Tree>)
    returns (error: Option<OsError>, p: Progress, ghost engaged: bool, ghost at: Place)
    requires Closed(disk.tree) && Checked(job, disk.tree) && originals == Originals(disk.tree, job.Layout())
    requires |before.snapshots| == |job.sources| && before.target == Some(job.Child(job.archiveName))
    requires before.moved == [] && !before.stalePart && job.sources != []
    modifies disk
    ensures disk.lookups == old(disk.lookups)
    ensures RaisedBy(old(disk.raised), disk.raised, error) && disk.refusals >= old(disk.refusals)
    ensures error.None? ==> disk.refusals == old(disk.refusals)
    ensures error.Some? && error.value.StateError? ==> StageCategory(p.stage, error.value.category)
    ensures job.WellSeparated() ==> disk.blunders == old(disk.blunders)
    ensures error.None? ==> disk.checks == old(disk.checks) + 1
    ensures error.None? ==> job.Child(job.stagingName) !in old(disk.tree) && PublishesManifest(job, disk.tree, manifest)
    ensures error.None? ==> VerifiedArchive(job, disk.tree, before.snapshots, disk.faults == old(disk.faults))
    ensures (job.WellSeparated() && error.Some? && p.stage == CreatePart
             && disk.faults == old(disk.faults) && disk.refusals == old(disk.refusals)) ==>
      job.Child(job.stagingName) in old(disk.tree) && error == Some(StateError(DestinationExists))
    ensures StageMeans(job, p, at, error)
    ensures disk.refusals > old(disk.refusals) ==>
      && error == Some(StateError(AccessDenied)) && disk.checks == old(disk.checks) + 1
      && !engaged && p.stage == CreatePart
    ensures job.WellSeparated() && error.None? && before.snapshots != originals ==> disk.faults >= old(disk.faults) + 2
    ensures disk.faults >= old(disk.faults)
    ensures job.WellSeparated() ==> HomesRead(job, old(disk.misread), disk.misread)
    ensures Closed(disk.tree)
    ensures p.moved <= job.sources && p.snapshots == before.snapshots && p.target == before.target && !p.stalePart
    ensures error.None? ==> engaged && at == Published && p.moved == job.sources
    ensures p.stage in {CreatePart, MoveSource, VerifyPart, Publish} && (p.stage == CreatePart ==> p.moved == [])
    ensures !engaged ==> error.Some? && p.moved == [] && NothingLost(old(disk.tree), disk.tree)
    ensures !engaged ==> Untouched(job, disk.tree, originals)
    ensures !engaged ==> Unstarted(job, disk.tree, p, error.value, disk.faults == old(disk.faults))
    ensures at != Home
    ensures engaged ==> p.staging == if at == Staged then Some(job.Child(job.stagingName)) else None
    ensures engaged ==> Away(job, disk.tree, originals, |p.moved|, at)
    ensures job.WellSeparated() && p.stage != CreatePart && before.snapshots == originals ==>
      disk.faults == old(disk.faults) + (if error.Some? then 1 else 0)
  {
    at, p := Staged, before.(stage := CreatePart, sourceClass := None);
    var staging;
    error, staging, engaged := MakePart(disk, job, manifest, originals);
    p := p.(staging := staging);
    if engaged { PartIsAway(job, disk.tree, originals); }
    if error.Some? { return; }
    assert KeepsManifest(job, disk.tree, manifest);
    p := p.(stage := MoveSource);
    var moved, sourceClass := [], None;
    error, moved, sourceClass := MoveSources(disk, job, staging.value, originals, manifest);
    p := p.(moved := moved, sourceClass := sourceClass);
    MovedIsAway(job, disk.tree, originals, |moved|);
    if error.Some? { return; }
    error, p, at := VerifyAndPublish(disk, job, p, originals, manifest);
  }

  lemma PartIsAway(job: Job, t: Tree, originals: seq<Tree>)
    requires PartReady(job, t, originals) && |originals| == |job.sources|
    ensures Away(job, t, originals, 0, Staged)
  {
    NothingMovedYet(|originals|, Staged);
  }

  /** Every source is below `base` as it was, and none is at home. */
  ghost predicate MovedTo(job: Job, t: Tree, originals: seq<Tree>, base: Path)
    requires |originals| == |job.sources|
  {
    Matches(job, t, base, originals) && forall s :: s in job.sources ==> job.Home(s) !in t
  }

  lemma AllMoved(job: Job, t: Tree, originals: seq<Tree>, at: Place)
    requires |originals| == |job.sources| && Away(job, t, originals, |originals|, at)
    ensures job.WellSeparated() ==> MovedTo(job, t, originals, Base(job.Layout(), at))
  {
    if job.WellSeparated() {
      var l, places := job.Layout(), MovedPlaces(|originals|, |originals|, at);
      forall k | 0 <= k < |job.sources|
        ensures Subtree(t, Base(l, at) + job.sources[k].target.parts) == originals[k] && job.Home(job.sources[k]) !in t
        ensures IsDirectory(t, Base(l, at) + job.sources[k].target.parts)
      {
        assert Placed(l, t, originals, k, places[k]);
        assert l.Spot(k, at) == Base(l, at) + job.sources[k].target.parts;
        PlaceOfExisting(l, t, originals, places, k, Home);
        PlaceOfExisting(l, t, originals, places, k, at);
      }
    }
  }

  /** Compares the moved sources: it stops at the first fault, and misreads no source's own path. */
  method VerifyMoved(disk: Disk, job: Job, base: Path, snapshots: seq<Tree>, ghost originals: seq<Tree>,
                     ghost at: Place)
    returns (error: Option<OsError>, sourceClass: Option<string>)
    requires |snapshots| == |job.sources| == |originals|
    requires Away(job, disk.tree, originals, |originals|, at) && IsBase(job, base, at)
    modifies disk`faults, disk`misread, disk`raised
    ensures RaisedBy(old(disk.raised), disk.raised, error)
    ensures error.Some? && error.value.StateError? ==> error.value.category == ManifestMismatch
    ensures job.sources != [] ==> sourceClass.Some?
    ensures error.None? && disk.faults == old(disk.faults) ==> Matches(job, disk.tree, base, snapshots)
    ensures job.WellSeparated() && error.None? && snapshots != originals ==> disk.faults > old(disk.faults)
    ensures disk.faults >= old(disk.faults)
    ensures job.WellSeparated() ==> HomesRead(job, old(disk.misread), disk.misread)
    ensures job.WellSeparated() ==> MovedTo(job, disk.tree, originals, base)
    ensures job.WellSeparated() && snapshots == originals ==>
      disk.faults == old(disk.faults) + (if error.Some? then 1 else 0)
  {
    AllMoved(job, disk.tree, originals, at);
    error, sourceClass := Verify(disk, job, base, snapshots);
    if job.WellSeparated() {
      MovedApart(job, disk.tree, originals, base, old(disk.misread), disk.misread);
      OnlyOneMatch(job, disk.tree, base, originals, snapshots);
    }
  }

  lemma OnlyOneMatch(job: Job, t: Tree, base: Path, a: seq<Tree>, b: seq<Tree>)
    requires |a| == |b| == |job.sources| && Matches(job, t, base, a)
    ensures Matches(job, t, base, b) <==> a == b
  {}

  lemma MovedApart(job: Job, t: Tree, originals: seq<Tree>, base: Path, a: multiset<Path>, b: multiset<Path>)
    requires |originals| == |job.sources| && MovedTo(job, t, originals, base) && OnlyBelow(job, base, a, b)
    ensures HomesRead(job, a, b)
  {
    forall i | 0 <= i < |job.sources| ensures b[job.Home(job.sources[i])] == a[job.Home(job.sources[i])] {
      assert job.Home(job.sources[i]) !in t;
    }
  }

  /** The end of the `try` block, once every source is in the staging directory. */
  method VerifyAndPublish(disk: Disk, job: Job, before: Progress, ghost originals: seq<Tree>, ghost manifest: Node)
    returns (error: Option<OsError>, p: Progress, ghost at: Place)
    requires |before.snapshots| == |job.sources| == |originals|
    requires before.staging == Some(job.Child(job.stagingName)) && before.target == Some(job.Child(job.archiveName))
    requires MovedSoFar(job, disk.tree, originals, |originals|) && KeepsManifest(job, disk.tree, manifest)
    requires Closed(disk.tree) && before.moved == job.sources && job.sources != []
    modifies disk`tree, disk`faults, disk`misread, disk`raised, disk`blunders
    ensures job.WellSeparated() ==> disk.blunders == old(disk.blunders)
    ensures StageMeans(job, p, at, error)
    ensures RaisedBy(old(disk.raised), disk.raised, error)
    ensures error.Some? && error.value.StateError? ==> error.value.category == ManifestMismatch
    ensures error.None? ==> PublishesManifest(job, disk.tree, manifest)
    ensures error.None? ==> VerifiedArchive(job, disk.tree, before.snapshots, disk.faults == old(disk.faults))
    ensures job.WellSeparated() && error.None? && before.snapshots != originals ==> disk.faults >= old(disk.faults) + 2
    ensures disk.faults >= old(disk.faults)
    ensures job.WellSeparated() ==> HomesRead(job, old(disk.misread), disk.misread)
    ensures error.None? ==> at == Published
    ensures p == before.(stage := p.stage, sourceClass := p.sourceClass, staging := p.staging)
    ensures p.stage in {VerifyPart, Publish}
    ensures at != Home && p.staging == (if at == Staged then before.staging else None)
    ensures Closed(disk.tree)
    ensures Away(job, disk.tree, originals, |originals|, at)
    ensures job.WellSeparated() && before.snapshots == originals ==>
      disk.faults == old(disk.faults) + (if error.Some? then 1 else 0)
  {
    var staging, target := before.staging.value, before.target.value;
    p, at := before.(stage := VerifyPart), Staged;
    MovedIsAway(job, disk.tree, originals, |originals|);
    var sourceClass;
    error, sourceClass := VerifyMoved(disk, job, staging, p.snapshots, originals, Staged);
    p := p.(sourceClass := sourceClass);
    if error.Some? { return; }
    p := p.(stage := Publish, sourceClass := None);
    ghost var read := disk.misread;
    error, at := PublishPart(disk, job, staging, target, originals, manifest);
    if error.Some? { return; }
    p := p.(staging := None);
    error, sourceClass := VerifyPublished(disk, job, target, p.snapshots, originals);
    if job.WellSeparated() { HomesReadAfter(job, old(disk.misread), read, disk.misread); }
    p := p.(sourceClass := sourceClass);
  }

  method PublishPart(disk: Disk, job: Job, staging: Path, target: Path, ghost originals: seq<Tree>,
                     ghost manifest: Node)
    returns (error: Option<OsError>, ghost at: Place)
    requires staging == job.Child(job.stagingName) && target == job.Child(job.archiveName)
    requires MovedSoFar(job, disk.tree, originals, |originals|) && KeepsManifest(job, disk.tree, manifest)
    requires Closed(disk.tree)
    modifies disk`tree, disk`faults, disk`raised, disk`blunders
    ensures job.WellSeparated() ==> disk.blunders == old(disk.blunders)
    ensures RaisedBy(old(disk.raised), disk.raised, error) && (error.Some? ==> error.value.Native?)
    ensures disk.faults == old(disk.faults) + (if error.Some? then 1 else 0)
    ensures error.None? ==> PublishesManifest(job, disk.tree, manifest)
    ensures at == (if error.None? then Published else Staged) && Away(job, disk.tree, originals, |originals|, at)
    ensures Closed(disk.tree)
  {
    CanPublish(job, disk.tree, originals);
    MovedIsAway(job, disk.tree, originals, |originals|);
    error := disk.Rename(staging, target);
    if error.Some? { return error, Staged; }
    at := Published;
    Publication(job, old(disk.tree), originals);
    ManifestPublished(job, old(disk.tree), originals, manifest);
  }

  /** Compares the published sources; none of them may be at home as well. */
  method VerifyPublished(disk: Disk, job: Job, target: Path, snapshots: seq<Tree>, ghost originals: seq<Tree>)
    returns (error: Option<OsError>, sourceClass: Option<string>)
    requires |snapshots| == |job.sources| == |originals| && target == job.Child(job.archiveName)
    requires Away(job, disk.tree, originals, |originals|, Published)
    modifies disk`faults, disk`misread, disk`raised
    ensures RaisedBy(old(disk.raised), disk.raised, error)
    ensures error.Some? && error.value.StateError? ==> error.value.category == ManifestMismatch
    ensures job.sources != [] ==> sourceClass.Some?
    ensures error.None? ==> VerifiedArchive(job, disk.tree, snapshots, disk.faults == old(disk.faults))
    ensures job.WellSeparated() && error.None? && snapshots != originals ==> disk.faults > old(disk.faults)
    ensures disk.faults >= old(disk.faults)
    ensures job.WellSeparated() ==> HomesRead(job, old(disk.misread), disk.misread)
    ensures job.WellSeparated() && snapshots == originals ==>
      disk.faults == old(disk.faults) + (if error.Some? then 1 else 0)
  {
    error, sourceClass := VerifyMoved(disk, job, target, snapshots, originals, Published);
    if error.Some? { return; }
    if exists s :: s in job.sources && job.Home(s) in disk.tree {
      error := Some(StateError(ManifestMismatch));
    }
  }

  lemma CanPublish(job: Job, t: Tree, originals: seq<Tree>)
    requires Closed(t) && MovedSoFar(job, t, originals, |originals|)
    ensures job.WellSeparated() ==> CanRename(t, job.Child(job.stagingName), job.Child(job.archiveName))
  {
    if job.WellSeparated() {
      var a, b := job.Child(job.stagingName), job.Child(job.archiveName);
      assert job.Layout().staging == a && job.Layout().archive == b;
      assert HasParent(t, a);
      assert ParentOf(a) == job.Parent() == ParentOf(b);
    }
  }

  lemma MovedIsAway(job: Job, t: Tree, originals: seq<Tree>, k: nat)
    requires MovedSoFar(job, t, originals, k)
    ensures Away(job, t, originals, k, Staged)
  {}

  lemma Publication(job: Job, t: Tree, originals: seq<Tree>)
    requires MovedSoFar(job, t, originals, |originals|)
    ensures Away(job, Move(t, job.Child(job.stagingName), job.Child(job.archiveName)), originals, |originals|,
                 Published)
  {
    if job.WellSeparated() { PublishedIsBased(job.Layout(), t, originals); }
  }

  lemma ManifestPublished(job: Job, t: Tree, originals: seq<Tree>, manifest: Node)
    requires MovedSoFar(job, t, originals, |originals|) && KeepsManifest(job, t, manifest)
    ensures PublishesManifest(job, Move(t, job.Child(job.stagingName), job.Child(job.archiveName)), manifest)
  {
    if job.WellSeparated() {
      var a, b, x := job.Child(job.stagingName), job.Child(job.archiveName), [MANIFEST_NAME];
      var m := Move(t, a, b);
      assert job.Layout().staging == a && job.Layout().archive == b;
      MoveCarries(t, a, b, x);
      assert a + x + [] == a + x && b + x + [] == b + x;
      assert [] in Subtree(t, a + x) && Subtree(t, a + x)[[]] == manifest;
      assert [] in Subtree(m, b + x) && Subtree(m, b + x)[[]] == manifest;
    }
  }

  /** The rollback: whether everything is back, or the error that stopped it; `left` sources are still
      away. */
  method RollBack(disk: Disk, job: Job, p: Progress, root: Option<Path>, ghost originals: seq<Tree>, ghost at: Place)
    returns (error: Option<OsError>, restored: bool, ghost left: nat)
    requires p.moved <= job.sources && |originals| == |job.sources| == |p.snapshots|
    requires Away(job, disk.tree, originals, |p.moved|, at)
    requires job.WellSeparated() ==> root.Some? && IsBase(job, root.value, at)
    modifies disk`tree, disk`faults, disk`misread, disk`raised, disk`blunders, disk`lookups
    ensures disk.lookups == old(disk.lookups) + (if root.Some? then 1 else 0)
    ensures job.WellSeparated() ==> disk.blunders == old(disk.blunders)
    ensures RaisedBy(old(disk.raised), disk.raised, error)
    ensures error.Some? && error.value.StateError? ==> error.value.category == RollbackFailed
    ensures old(Closed(disk.tree)) ==> Closed(disk.tree)
    ensures disk.faults >= old(disk.faults)
    ensures disk.faults == old(disk.faults) ==> disk.misread == old(disk.misread)
    ensures error.Some? ==> !restored
    ensures Away(job, disk.tree, originals, left, at)
    ensures error.None? ==> left == 0
    ensures job.WellSeparated() && disk.faults == old(disk.faults) ==> left == 0
    ensures job.WellSeparated() && disk.faults == old(disk.faults) ==> (restored <==> p.snapshots == originals)
    ensures job.WellSeparated() && disk.faults == old(disk.faults) ==> error.None?
  {
    restored, left := false, |p.moved|;
    if root.None? { return Some(StateError(RollbackFailed)), restored, left; }
    error := disk.Resolve();
    if error.Some? { return; }
    error, left := MoveBack(disk, job, p.moved, root.value, originals, at);
    if error.Some? { return; }
    if job.WellSeparated() { AllHome(job, disk.tree, originals, at); }
    error, restored := AllRestored(disk, job, p.snapshots);
  }

  lemma AllHome(job: Job, t: Tree, originals: seq<Tree>, at: Place)
    requires job.WellSeparated() && Away(job, t, originals, 0, at)
    ensures forall i :: 0 <= i < |job.sources| ==>
      IsDirectory(t, job.Home(job.sources[i])) && Subtree(t, job.Home(job.sources[i])) == originals[i]
  {
    var l := job.Layout();
    NothingMovedYet(|originals|, at);
    forall i | 0 <= i < |job.sources|
      ensures IsDirectory(t, job.Home(job.sources[i])) && Subtree(t, job.Home(job.sources[i])) == originals[i]
    {
      PlaceOfExisting(l, t, originals, Uniform(|originals|, Home), i, Home);
      assert Placed(l, t, originals, i, Uniform(|originals|, Home)[i]);
      assert l.Spot(i, Home) == job.Home(job.sources[i]);
    }
  }

  /** The `except` block when nothing had been moved. */
  method ReportUnmoved(disk: Disk, job: Job, error: OsError, p: Progress) returns (d: Diagnostic)
    ensures !d.rollbackAttempted && !d.rollbackCompleted && d.stage == p.stage
    ensures d.category == ExceptionCategory(error, p.stage) && d.numericCode == NumericCode(error)
    ensures d.sourceClass == p.sourceClass
    ensures d.originalSourcesRestored <==> forall s :: s in job.sources ==> IsDirectory(disk.tree, job.Home(s))
    ensures d.failedPartPreserved == Preserved(disk, p, false)
  {
    var restored := forall s :: s in job.sources ==> IsDirectory(disk.tree, job.Home(s));
    var preserved := Preserved(disk, p, false);
    d := Diagnostic(p.stage, p.sourceClass, ExceptionCategory(error, p.stage), NumericCode(error), false, false,
                    restored, preserved);
  }

  /** Whether part of the transaction is still there to be inspected. */
  predicate Preserved(disk: Disk, p: Progress, completed: bool)
    reads disk
  {
    || p.stalePart
    || (p.staging.Some? && p.staging.value in disk.tree)
    || (p.target.Some? && p.target.value in disk.tree && !completed)
  }

  /** The directory to move back from exists, and is kept as long as the rollback is not complete. */
  lemma AwayIsPreserved(job: Job, t: Tree, originals: seq<Tree>, k: nat, at: Place)
    requires Away(job, t, originals, k, at)
    ensures job.WellSeparated() ==>
      && job.Child(if at == Published then job.archiveName else job.stagingName) in t
      && (at == Staged ==> job.Child(job.archiveName) !in t)
  {}

  /** The diagnostic has the code of the last error the disk raised. */
  ghost predicate LastRaised(disk: Disk, d: Diagnostic)
    reads disk
  {
    disk.raised != [] && d.numericCode == NumericCode(disk.raised[|disk.raised| - 1])
  }

  /** The `except` block after at least one move; `left` sources are still away when it ends. */
  method Recover(disk: Disk, job: Job, error: OsError, p: Progress, ghost originals: seq<Tree>, ghost at: Place)
    returns (d: Diagnostic, ghost left: nat)
    requires p.moved != [] && p.moved <= job.sources && |originals| == |job.sources| == |p.snapshots|
    requires at != Home && !p.stalePart
    requires p.target == Some(job.Child(job.archiveName))
    requires p.staging == if at == Staged then Some(job.Child(job.stagingName)) else None
    requires Away(job, disk.tree, originals, |p.moved|, at)
    modifies disk`tree, disk`faults, disk`misread, disk`raised, disk`blunders, disk`lookups
    ensures job.WellSeparated() ==> disk.blunders == old(disk.blunders) && disk.lookups == old(disk.lookups) + 1
    ensures d.rollbackAttempted && disk.faults >= old(disk.faults)
    ensures (d.stage == Rollback || d.stage == p.stage) && old(disk.raised) <= disk.raised
    ensures d.stage == Rollback && p.stage != Rollback ==>
      && d.category == RollbackFailed && d.sourceClass == Some(p.moved[|p.moved| - 1].sourceClass)
      && (if disk.raised == old(disk.raised) then d.numericCode == None else LastRaised(disk, d))
    ensures d.stage != Rollback ==>
      && disk.raised == old(disk.raised) && d.sourceClass == p.sourceClass
      && d.category == ExceptionCategory(error, p.stage) && d.numericCode == NumericCode(error)
    ensures d.failedPartPreserved == Preserved(disk, p, d.rollbackCompleted)
    ensures old(Closed(disk.tree)) ==> Closed(disk.tree)
    ensures disk.faults == old(disk.faults) ==> disk.misread == old(disk.misread)
    ensures Away(job, disk.tree, originals, left, at)
    ensures job.WellSeparated() && left > 0 ==>
      !d.rollbackCompleted && d.failedPartPreserved && d.stage == Rollback && d.category == RollbackFailed
    ensures job.WellSeparated() && disk.faults == old(disk.faults) ==> left == 0
    ensures job.WellSeparated() && disk.faults == old(disk.faults) ==> d.stage == p.stage
    ensures job.WellSeparated() && disk.faults == old(disk.faults) ==>
      (d.rollbackCompleted <==> p.snapshots == originals)
    ensures d.originalSourcesRestored == d.rollbackCompleted
  {
    AwayIsPreserved(job, disk.tree, originals, |p.moved|, at);
    var root := if p.target.value in disk.tree then p.target else p.staging;
    var failure, restored;
    failure, restored, left := RollBack(disk, job, p, root, originals, at);
    AwayIsPreserved(job, disk.tree, originals, left, at);
    var preserved := Preserved(disk, p, restored);
    if failure.Some? {
      d := Diagnostic(Rollback, Some(p.moved[|p.moved| - 1].sourceClass), RollbackFailed, NumericCode(failure.value),
                      true, restored, restored, preserved);
    } else {
      d := Diagnostic(p.stage, p.sourceClass, ExceptionCategory(error, p.stage), NumericCode(error),
                      true, restored, restored, preserved);
    }
  }

  lemma AllMovedYet(n: nat, at: Place)
    ensures MovedPlaces(n, n, at) == Uniform(n, at)
  {}

  /** In a job of well-separated paths, the failed part counts as preserved unless the archive had been
      published and everything is back. */
  ghost predicate PreservedExactly(job: Job, t: Tree, d: Diagnostic) {
    && (d.failedPartPreserved <==> job.Child(job.archiveName) !in t || !d.rollbackCompleted)
    && (job.Child(job.archiveName) !in t ==> job.Child(job.stagingName) in t)
  }

  lemma PreservedWhenAway(disk: Disk, job: Job, p: Progress, originals: seq<Tree>, k: nat, at: Place, d: Diagnostic)
    requires job.WellSeparated() && Away(job, disk.tree, originals, k, at) && !p.stalePart
    requires p.target == Some(job.Child(job.archiveName))
    requires p.staging == if at == Staged then Some(job.Child(job.stagingName)) else None
    requires d.failedPartPreserved == Preserved(disk, p, d.rollbackCompleted)
    ensures PreservedExactly(job, disk.tree, d)
  {
    AwayIsPreserved(job, disk.tree, originals, k, at);
  }

  /** The category and code are those of the last error the disk raised during the call; if it raised none, the
      category is one of the stage's own checks. */
  ghost predicate NamesTheError(d: Diagnostic, before: seq<OsError>, after: seq<OsError>) {
    && before <= after
    && if after == before then StageCategory(d.stage, d.category) && d.numericCode == None
       else
         var last := after[|after| - 1];
         && (d.stage == Rollback ==> d.category == RollbackFailed)
         && (d.stage != Rollback ==> after == before + [last] && d.category == ExceptionCategory(last, d.stage))
         && (d.stage != Rollback ==> d.numericCode == NumericCode(last))
  }

  /** Nothing is lost, whatever fails and however snapshots lie. With well-separated paths, once staging
      exists every source tree is, unchanged, at exactly one of its home, staging and archive path; a
      completed call has them all in the archive; a failed one that left any away from home preserves the
      failed part and does not claim a completed rollback. Without a fault a call that gets past creating the
      staging directory completes. One fault never leaves a source away from home, and the rollback
      then says that everything is back exactly when that fault is not a misreading of a source's own path.
      A completed archive holds the manifest, and was verified: if a source's own path was misread, two more
      faults hid it. Without a fault or a refusal the call completes exactly when it may start; a completed
      call made every check, and no call attempts an operation that could not succeed. The other fields of
      the diagnostic say what is on the disk and which error ended the call. */
  method Archive(disk: Disk, job: Job, manifest: Node) returns (outcome: Outcome, ghost h: History)
    requires Closed(disk.tree)
    modifies disk
    ensures !h.engaged ==>
      && outcome.Failed? && !outcome.diagnostic.rollbackAttempted
      && NothingLost(old(disk.tree), disk.tree)
      && (job.WellSeparated() ==> Originals(disk.tree, job.Layout()) == old(Originals(disk.tree, job.Layout())))
    ensures h.engaged && job.WellSeparated() ==>
      && Separated(job.Layout()) && Rooted(old(Originals(disk.tree, job.Layout())))
      && AllPlaced(job.Layout(), disk.tree, old(Originals(disk.tree, job.Layout())), h.places)
    ensures outcome.Complete? ==>
      h.engaged && (job.WellSeparated() ==> h.places == Uniform(|job.sources|, Published))
    ensures h.engaged && job.WellSeparated() && outcome.Failed? && h.places != Uniform(|job.sources|, Home) ==>
      && outcome.diagnostic.rollbackAttempted && !outcome.diagnostic.rollbackCompleted
      && outcome.diagnostic.failedPartPreserved
      && outcome.diagnostic.stage == Rollback && outcome.diagnostic.category == RollbackFailed
    ensures disk.faults >= old(disk.faults)
    ensures job.WellSeparated() && outcome.Failed? && disk.faults == old(disk.faults) ==>
      outcome.diagnostic.stage in {Preflight, CreatePart} && !outcome.diagnostic.rollbackAttempted
    ensures job.WellSeparated() && h.engaged && outcome.Failed? && disk.faults <= old(disk.faults) + 1 ==>
      h.places == Uniform(|job.sources|, Home)
    ensures (job.WellSeparated() && outcome.Failed? && outcome.diagnostic.rollbackAttempted
             && disk.faults <= old(disk.faults) + 1) ==>
      && outcome.diagnostic.stage != Rollback
      && outcome.diagnostic.originalSourcesRestored == outcome.diagnostic.rollbackCompleted
      && (outcome.diagnostic.rollbackCompleted <==> HomesRead(job, old(disk.misread), disk.misread))
    ensures Closed(disk.tree)
    ensures disk.refusals >= old(disk.refusals)
    ensures job.WellSeparated() && disk.faults == old(disk.faults) && disk.refusals == old(disk.refusals)
            && outcome.Failed? ==>
      var d := outcome.diagnostic;
      StoppedAtStart(job, old(disk.tree), d.stage, d.category, d.sourceClass)
    ensures disk.refusals > old(disk.refusals) ==>
      && outcome.Failed? && !h.engaged
      && RefusedAt(job, disk.checks - old(disk.checks), outcome.diagnostic.stage, outcome.diagnostic.category)
    ensures job.WellSeparated() && disk.faults == old(disk.faults) && disk.refusals == old(disk.refusals) ==>
      (outcome.Complete? <==> Startable(job, old(disk.tree)))
    ensures outcome.Complete? ==> Startable(job, old(disk.tree)) && disk.refusals == old(disk.refusals)
    ensures outcome.Complete? ==> PublishesManifest(job, disk.tree, manifest)
    ensures outcome.Complete? ==>
      VerifiedArchive(job, disk.tree, old(Originals(disk.tree, job.Layout())), disk.faults == old(disk.faults))
    ensures job.WellSeparated() ==> disk.blunders == old(disk.blunders)
    ensures outcome.Complete? ==> disk.checks == old(disk.checks) + |job.sources| + 2
    ensures h.engaged && job.WellSeparated() ==>
      disk.lookups == old(disk.lookups) + (if job.Parent() in old(disk.tree) then 2 else 1)
                      + (if outcome.Failed? && outcome.diagnostic.rollbackAttempted then 1 else 0)
    ensures outcome.Failed? ==> StageMeans(job, h.reached, h.at, h.error) && Traced(job, h.reached, outcome.diagnostic)
    ensures job.WellSeparated() && outcome.Complete? && !HomesRead(job, old(disk.misread), disk.misread) ==>
      disk.faults >= old(disk.faults) + 3
    ensures outcome.Complete? ==> disk.raised == old(disk.raised)
    ensures outcome.Failed? ==> NamesTheError(outcome.diagnostic, old(disk.raised), disk.raised)
    ensures outcome.Failed? && !outcome.diagnostic.rollbackAttempted ==>
      (outcome.diagnostic.originalSourcesRestored
       <==> forall s :: s in job.sources ==> IsDirectory(disk.tree, job.Home(s)))
    ensures outcome.Failed? && h.engaged && job.WellSeparated() ==> PreservedExactly(job, disk.tree, outcome.diagnostic)
    ensures !h.engaged && outcome.diagnostic.failedPartPreserved ==>
      || HasPart(disk.tree, job.Parent())
      || job.Child(job.stagingName) in disk.tree || job.Child(job.archiveName) in disk.tree
    ensures !h.engaged && disk.faults == old(disk.faults) ==>
      (outcome.diagnostic.failedPartPreserved
       <==> outcome.diagnostic.category == DestinationExists || job.Child(job.archiveName) in disk.tree)
  {
    ghost var originals := Originals(disk.tree, job.Layout());
    var error, p;
    ghost var engaged, at;
    error, p, engaged, at := Forward(disk, job, manifest, originals);
    h := History(engaged, MovedPlaces(|originals|, |p.moved|, at), p, at, error);
    NothingMovedYet(|originals|, at);
    if error.None? {
      AllMovedYet(|originals|, at);
      outcome := Complete;
    } else if p.moved == [] {
      var d := ReportUnmoved(disk, job, error.value, p);
      if h.engaged && job.WellSeparated() { PreservedWhenAway(disk, job, p, originals, 0, at, d); }
      outcome := Failed(d);
    } else {
      var d;
      ghost var left;
      d, left := Recover(disk, job, error.value, p, originals, at);
      h := h.(places := MovedPlaces(|originals|, left, at));
      if job.WellSeparated() { PreservedWhenAway(disk, job, p, originals, left, at, d); }
      outcome := Failed(d);
    }
  }
}
