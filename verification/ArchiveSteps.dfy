/** The forward steps of an archive transaction: preflight, staging, moving and verifying. */
module ArchiveSteps {
  import opened Wrappers
  import opened FileTree
  import opened Disks
  import opened ArchiveLayout

  datatype Stage = Preflight | CreatePart | MoveSource | VerifyPart | Publish | Rollback

  const SOURCE_CLASSES := {"dist", "deployment", "build_output", "temp_output", "failed_part"}

  datatype RawPath = Relative(parts: Path) | Absolute(parts: Path)

  datatype Source = Source(sourceClass: string, source: RawPath, target: RawPath)

  /** The parameters of one call; `staging` is the name the staging name factory makes. */
  datatype Job = Job(root: Path, parent: Path, archiveName: Name, sources: seq<Source>, stagingName: Name)
  {
    function Parent(): Path { root + parent }

    function Child(name: Name): Path { if name == "" then Parent() else Parent() + [name] }

    function Home(s: Source): Path { if s.source.Relative? then root + s.source.parts else s.source.parts }

    function Layout(): Layout {
      ArchiveLayout.Layout.Layout(
        seq(|sources|, i requires 0 <= i < |sources| => Home(sources[i])),
        seq(|sources|, i requires 0 <= i < |sources| => sources[i].target.parts),
        Child(stagingName),
        Child(archiveName))
    }

    /** What the caller must see to, and the code does not check: sources and destinations are pairwise
        non-nested, no destination meets the manifest, the archive is not kept inside a source, and the
        staging name is not the archive name. */
    ghost predicate WellSeparated() {
      var l := Layout();
      && (forall i, j :: 0 <= i < j < |sources| ==> Apart(l.homes[i], l.homes[j]) && Apart(l.targets[i], l.targets[j]))
      && (forall i :: 0 <= i < |sources| ==> Apart(l.targets[i], [MANIFEST_NAME]) && !(l.homes[i] <= Parent()))
      && stagingName != "" && archiveName != "" && stagingName != archiveName
    }
  }

  /** What the `try` block had done when it ended. */
  datatype Progress = Progress(
    stage: Stage,
    sourceClass: Option<string>,
    moved: seq<Source>,
    stalePart: bool,
    staging: Option<Path>,
    target: Option<Path>,
    snapshots: seq<Tree>)

  predicate ValidName(name: Name) {
    name != "" && '/' !in name
  }

  predicate PartName(name: Name) {
    name != "" && name[0] == '.' && |name| >= 5 && name[|name| - 5..] == ".part"
  }

  ghost function Originals(t: Tree, l: Layout): seq<Tree> {
    seq(|l.homes|, i requires 0 <= i < |l.homes| => Subtree(t, l.homes[i]))
  }

  /** The tree only gained entries. */
  ghost predicate NothingLost(t: Tree, u: Tree) {
    forall p :: p in t ==> p in u && u[p] == t[p]
  }

  /** Every source is at home and as it was. */
  ghost predicate Untouched(job: Job, t: Tree, originals: seq<Tree>) {
    job.WellSeparated() ==> Originals(t, job.Layout()) == originals
  }

  // ----- Preflight -----

  /** The first `n` sources have relative paths and are directories. */
  ghost predicate SourcesChecked(job: Job, t: Tree, n: nat)
    requires n <= |job.sources|
  {
    forall i :: 0 <= i < n ==>
      && job.sources[i].source.Relative? && job.sources[i].target.Relative?
      && IsDirectory(t, job.Home(job.sources[i]))
  }

  /** The sources are of known classes, with relative paths that are all different, and are directories. */
  ghost predicate Acceptable(job: Job, t: Tree) {
    && SourcesChecked(job, t, |job.sources|)
    && (forall i :: 0 <= i < |job.sources| ==> job.sources[i].sourceClass in SOURCE_CLASSES)
    && (forall i, j :: 0 <= i < j < |job.sources| ==> job.Home(job.sources[i]) != job.Home(job.sources[j]))
    && (forall i, j :: 0 <= i < j < |job.sources| ==> job.sources[i].target.parts != job.sources[j].target.parts)
  }

  /** What the call itself demands before it creates anything. */
  ghost predicate Admitted(job: Job, t: Tree) {
    && ValidName(job.archiveName) && job.sources != [] && Acceptable(job, t)
    && job.Child(job.archiveName) !in t && (job.Parent() in t ==> !HasPart(t, job.Parent()))
  }

  lemma PartNameMeaning(name: Name)
    ensures PartName(name) <==> "." <= name && exists m: Name :: name == m + ".part"
  {
    if PartName(name) { assert name == name[..|name| - 5] + ".part"; }
    if m: Name :| name == m + ".part" { assert name[|name| - 5..] == ".part"; }
  }

  lemma HasPartMeaning(t: Tree, parent: Path)
    ensures HasPart(t, parent) <==> exists name :: parent + [name] in t && PartName(name)
  {
    if q :| q in t && |q| == |parent| + 1 && parent <= q && PartName(q[|q| - 1]) {
      assert parent + [q[|q| - 1]] == q;
    }
    if name :| parent + [name] in t && PartName(name) {
      var q := parent + [name];
      assert parent <= q && q[|q| - 1] == name;
    }
  }

  /** A call is admitted with a plain archive name and at least one source, all of the five classes, with
      relative paths that differ, at existing directories, where there is neither an archive of that name
      nor a staging directory. */
  lemma AdmittedMeaning(job: Job, t: Tree)
    ensures Admitted(job, t) <==>
      && job.archiveName != "" && '/' !in job.archiveName && job.sources != []
      && (forall s :: s in job.sources ==>
            && s.source.Relative? && s.target.Relative? && IsDirectory(t, job.root + s.source.parts)
            && (|| s.sourceClass == "dist" || s.sourceClass == "deployment" || s.sourceClass == "build_output"
                || s.sourceClass == "temp_output" || s.sourceClass == "failed_part"))
      && (forall i, j :: 0 <= i < j < |job.sources| ==>
            job.sources[i].source != job.sources[j].source && job.sources[i].target != job.sources[j].target)
      && job.root + job.parent + [job.archiveName] !in t
      && !exists name: Name :: PartName(name) && job.root + job.parent in t && job.root + job.parent + [name] in t
  {
    HasPartMeaning(t, job.Parent());
    AcceptableMeaning(job, t);
  }

  lemma SameHome(job: Job, a: Source, b: Source)
    requires a.source.Relative? && b.source.Relative?
    ensures job.Home(a) == job.Home(b) <==> a.source == b.source
  {
    SameBase(job.root, a.source.parts, b.source.parts);
    SameBase(job.root, b.source.parts, a.source.parts);
  }

  lemma AcceptableMeaning(job: Job, t: Tree)
    ensures Acceptable(job, t) <==>
      && (forall s :: s in job.sources ==>
            && s.source.Relative? && s.target.Relative? && IsDirectory(t, job.root + s.source.parts)
            && (|| s.sourceClass == "dist" || s.sourceClass == "deployment" || s.sourceClass == "build_output"
                || s.sourceClass == "temp_output" || s.sourceClass == "failed_part"))
      && (forall i, j :: 0 <= i < j < |job.sources| ==>
            job.sources[i].source != job.sources[j].source && job.sources[i].target != job.sources[j].target)
  {
    if SourcesChecked(job, t, |job.sources|) {
      forall i, j | 0 <= i < j < |job.sources|
        ensures job.Home(job.sources[i]) == job.Home(job.sources[j]) <==> job.sources[i].source == job.sources[j].source
        ensures job.sources[i].target.parts == job.sources[j].target.parts
           <==> job.sources[i].target == job.sources[j].target
      {
        SameHome(job, job.sources[i], job.sources[j]);
      }
    }
  }

  /** What preflight established. */
  ghost predicate Checked(job: Job, t: Tree) {
    SourcesChecked(job, t, |job.sources|) && job.archiveName != "" && job.Child(job.archiveName) !in t
  }

  /** The first `k` sources pass the checks that need no answer of the system. */
  ghost predicate AcceptedSoFar(job: Job, t: Tree, k: nat)
    requires k <= |job.sources|
  {
    && SourcesChecked(job, t, k)
    && (forall i :: 0 <= i < k ==> job.sources[i].sourceClass in SOURCE_CLASSES)
    && (forall i, j :: 0 <= i < j < k ==> job.Home(job.sources[i]) != job.Home(job.sources[j]))
    && (forall i, j :: 0 <= i < j < k ==> job.sources[i].target.parts != job.sources[j].target.parts)
  }

  ghost function HomesOf(job: Job, k: nat): set<Path>
    requires k <= |job.sources|
  {
    set i | 0 <= i < k :: job.Home(job.sources[i])
  }

  ghost function TargetsOf(job: Job, k: nat): set<Path>
    requires k <= |job.sources|
  {
    set i | 0 <= i < k :: job.sources[i].target.parts
  }

  lemma AcceptNext(job: Job, t: Tree, k: nat)
    requires k < |job.sources| && AcceptedSoFar(job, t, k)
    requires var s := job.sources[k];
             && s.sourceClass in SOURCE_CLASSES && s.source.Relative? && s.target.Relative?
             && job.Home(s) !in HomesOf(job, k) && s.target.parts !in TargetsOf(job, k) && IsDirectory(t, job.Home(s))
    ensures AcceptedSoFar(job, t, k + 1)
    ensures HomesOf(job, k + 1) == HomesOf(job, k) + {job.Home(job.sources[k])}
    ensures TargetsOf(job, k + 1) == TargetsOf(job, k) + {job.sources[k].target.parts}
  {}

  lemma RefuseNext(job: Job, t: Tree, k: nat)
    requires k < |job.sources|
    requires var s := job.sources[k];
             || s.sourceClass !in SOURCE_CLASSES || s.source.Absolute? || s.target.Absolute?
             || job.Home(s) in HomesOf(job, k) || s.target.parts in TargetsOf(job, k) || !IsDirectory(t, job.Home(s))
    ensures !Acceptable(job, t) && (AcceptedSoFar(job, t, k) ==> FirstUnacceptable(job, t, k))
  {}

  /** Source `k` is the first that is not acceptable after those before it. */
  ghost predicate FirstUnacceptable(job: Job, t: Tree, k: nat) {
    k < |job.sources| && AcceptedSoFar(job, t, k) && !AcceptedSoFar(job, t, k + 1)
  }

  /** Unless the system refuses a path, the check fails exactly when the sources are not acceptable, and names
      the class of the first that is not. */
  method CheckSources(disk: Disk, job: Job) returns (error: Option<OsError>, sourceClass: Option<string>)
    modifies disk`refusals, disk`checks
    ensures disk.refusals >= old(disk.refusals)
    ensures error.None? ==> disk.checks == old(disk.checks) + |job.sources|
    ensures disk.checks >= old(disk.checks)
    ensures disk.refusals > old(disk.refusals) ==> disk.checks <= old(disk.checks) + |job.sources|
    ensures error.None? && job.sources != [] ==> sourceClass == Some(job.sources[|job.sources| - 1].sourceClass)
    ensures error.Some? && disk.refusals == old(disk.refusals) ==>
      exists k: nat :: FirstUnacceptable(job, disk.tree, k) && sourceClass == Some(job.sources[k].sourceClass)
    ensures error.Some? ==> error == Some(StateError(SourceMissing))
    ensures error.None? ==> Acceptable(job, disk.tree) && disk.refusals == old(disk.refusals)
    ensures error.Some? && disk.refusals == old(disk.refusals) ==> !Acceptable(job, disk.tree)
  {
    var seenSources: set<Path>, seenTargets: set<Path> := {}, {};
    sourceClass := None;
    for k := 0 to |job.sources|
      invariant AcceptedSoFar(job, disk.tree, k) && disk.refusals == old(disk.refusals)
      invariant disk.checks == old(disk.checks) + k
      invariant seenSources == HomesOf(job, k) && seenTargets == TargetsOf(job, k)
      invariant sourceClass == if k == 0 then None else Some(job.sources[k - 1].sourceClass)
    {
      var s := job.sources[k];
      sourceClass := Some(s.sourceClass);
      if || s.sourceClass !in SOURCE_CLASSES || s.source.Absolute? || s.target.Absolute?
         || job.Home(s) in seenSources || s.target.parts in seenTargets
      {
        RefuseNext(job, disk.tree, k);
        return Some(StateError(SourceMissing)), sourceClass;
      }
      var chainValid := disk.Permits();
      if !chainValid { return Some(StateError(SourceMissing)), sourceClass; }
      if !IsDirectory(disk.tree, job.Home(s)) {
        RefuseNext(job, disk.tree, k);
        return Some(StateError(SourceMissing)), sourceClass;
      }
      AcceptNext(job, disk.tree, k);
      seenSources, seenTargets := seenSources + {job.Home(s)}, seenTargets + {s.target.parts};
    }
    error := None;
  }

  /** No source's own path was misread between the two states of the disk. */
  ghost predicate HomesRead(job: Job, before: multiset<Path>, after: multiset<Path>) {
    forall i :: 0 <= i < |job.sources| ==> after[job.Home(job.sources[i])] == before[job.Home(job.sources[i])]
  }

  lemma HomesReadAfter(job: Job, a: multiset<Path>, b: multiset<Path>, c: multiset<Path>)
    requires HomesRead(job, b, c)
    ensures HomesRead(job, a, c) <==> HomesRead(job, a, b)
  {}

  /** Takes one snapshot of each source; if none is an error, they are the sources exactly when none is
      misread. */
  method TakeSnapshots(disk: Disk, job: Job) returns (r: Try<seq<Tree>>)
    requires SourcesChecked(job, disk.tree, |job.sources|)
    modifies disk`faults, disk`misread, disk`raised
    ensures RaisedBy(old(disk.raised), disk.raised, if r.Failure? then Some(r.error) else None)
    ensures disk.faults >= old(disk.faults) && disk.misread >= old(disk.misread)
    ensures r.Failure? ==> disk.faults > old(disk.faults) && r.error.Native?
    ensures r.Success? ==> |r.value| == |job.sources|
    ensures r.Success? && HomesRead(job, old(disk.misread), disk.misread) ==> disk.faults == old(disk.faults)
    ensures r.Success? && disk.faults == old(disk.faults) ==> HomesRead(job, old(disk.misread), disk.misread)
    ensures r.Success? ==>
      (HomesRead(job, old(disk.misread), disk.misread) <==> r.value == Originals(disk.tree, job.Layout()))
  {
    var snapshots: seq<Tree> := [];
    ghost var all := true;
    for k := 0 to |job.sources|
      invariant disk.raised == old(disk.raised)
      invariant |snapshots| == k && disk.faults >= old(disk.faults) && disk.misread >= old(disk.misread)
      invariant all ==> disk.faults == old(disk.faults) && disk.misread == old(disk.misread)
      invariant all <==> snapshots == Originals(disk.tree, job.Layout())[..k]
      invariant !all ==> disk.faults > old(disk.faults) && !HomesRead(job, old(disk.misread), disk.misread)
    {
      var home := job.Home(job.sources[k]);
      ghost var before := disk.misread;
      var s := disk.Snapshot(home);
      if s.Failure? { return Failure(s.error); }
      if !disk.Truthful(home, s) {
        assert disk.misread[home] == before[home] + 1 > old(disk.misread)[home];
        all := false;
      }
      assert Originals(disk.tree, job.Layout())[..k + 1]
          == Originals(disk.tree, job.Layout())[..k] + [Subtree(disk.tree, home)];
      snapshots := snapshots + [s.value];
      assert snapshots[..k] + [snapshots[k]] == snapshots;
    }
    r := Success(snapshots);
  }

  /** A staging directory left by an earlier call. */
  predicate HasPart(t: Tree, parent: Path) {
    exists q :: q in t && |q| == |parent| + 1 && parent <= q && PartName(q[|q| - 1])
  }

  /** What the call does not accept, in the order of its checks: the category it gives and the source class it
      names. */
  ghost predicate NotAccepted(job: Job, t: Tree, category: Category, sourceClass: Option<string>) {
    if !ValidName(job.archiveName) || job.sources == [] then
      category == UnexpectedFilesystemError && sourceClass == None
    else if !Acceptable(job, t) then
      && category == SourceMissing
      && exists k: nat :: FirstUnacceptable(job, t, k) && sourceClass == Some(job.sources[k].sourceClass)
    else if !Admitted(job, t) then
      category == DestinationExists && sourceClass == Some(job.sources[|job.sources| - 1].sourceClass)
    else
      category == DestinationExists && sourceClass == None && job.Child(job.stagingName) in t
  }

  /** The category of the check that said no, by its number. */
  function RefusalCategory(job: Job, check: nat): Category {
    if check <= |job.sources| then SourceMissing
    else if check == |job.sources| + 1 then RenameFailed
    else AccessDenied
  }

  method RunPreflight(disk: Disk, job: Job) returns (error: Option<OsError>, p: Progress)
    modifies disk`faults, disk`misread, disk`raised, disk`refusals, disk`checks, disk`lookups
    ensures error.None? ==> disk.checks == old(disk.checks) + |job.sources| + 1
    ensures error.None? ==> disk.lookups == old(disk.lookups) + (if job.Parent() in disk.tree then 2 else 1)
    ensures disk.refusals > old(disk.refusals) ==>
      && disk.checks >= old(disk.checks)
      && error == Some(StateError(RefusalCategory(job, disk.checks - old(disk.checks))))
    ensures error.Some? && disk.faults == old(disk.faults) && disk.refusals == old(disk.refusals) ==>
      error.value.StateError? && NotAccepted(job, disk.tree, error.value.category, p.sourceClass)
    ensures RaisedBy(old(disk.raised), disk.raised, error) && disk.refusals >= old(disk.refusals)
    ensures error.None? ==> Admitted(job, disk.tree) && disk.refusals == old(disk.refusals)
    ensures error.Some? && disk.faults == old(disk.faults) && disk.refusals == old(disk.refusals) ==>
      !Admitted(job, disk.tree)
    ensures error.Some? && error.value.StateError? ==>
      error.value.category in {UnexpectedFilesystemError, SourceMissing, DestinationExists, RenameFailed}
    ensures p.stage == Preflight && p.moved == [] && p.staging == None
    ensures p.target.Some? ==> p.target.value == job.Child(job.archiveName)
    ensures p.stalePart ==> error == Some(StateError(DestinationExists)) && HasPart(disk.tree, job.Parent())
    ensures error == Some(StateError(DestinationExists)) ==> p.stalePart || job.Child(job.archiveName) in disk.tree
    ensures error.Some? && disk.faults == old(disk.faults) ==> error.value.StateError? && p.target.Some?
    ensures error.None? ==> Checked(job, disk.tree) && |p.snapshots| == |job.sources| && p.target.Some?
    ensures disk.faults >= old(disk.faults) && disk.misread >= old(disk.misread)
    ensures error.None? && HomesRead(job, old(disk.misread), disk.misread) ==> disk.faults == old(disk.faults)
    ensures error.None? && disk.faults == old(disk.faults) ==> HomesRead(job, old(disk.misread), disk.misread)
    ensures error.None? ==>
      (HomesRead(job, old(disk.misread), disk.misread) <==> p.snapshots == Originals(disk.tree, job.Layout()))
  {
    p := Progress(Preflight, None, [], false, None, None, []);
    var unresolved := disk.Resolve();
    if unresolved.Some? { return unresolved, p; }
    p := p.(target := Some(job.Child(job.archiveName)));
    if !ValidName(job.archiveName) || |job.sources| == 0 {
      return Some(StateError(UnexpectedFilesystemError)), p;
    }
    var invalid, sourceClass := CheckSources(disk, job);
    p := p.(sourceClass := sourceClass);
    if invalid.Some? { return invalid, p; }
    if p.target.value in disk.tree { return Some(StateError(DestinationExists)), p; }
    if job.Parent() in disk.tree {
      var unlisted := disk.Resolve();
      if unlisted.Some? { return unlisted, p; }
      p := p.(stalePart := HasPart(disk.tree, job.Parent()));
      if p.stalePart { return Some(StateError(DestinationExists)), p; }
    }
    var sameVolume := disk.Permits();
    if !sameVolume { return Some(StateError(RenameFailed)), p; }
    var snapshots := TakeSnapshots(disk, job);
    if snapshots.Failure? { return Some(snapshots.error), p; }
    p := p.(snapshots := snapshots.value);
    error := None;
  }

  // ----- Staging -----

  /** All sources are at home, the staging directory exists, and there is no archive yet. */
  ghost predicate StagingReady(l: Layout, t: Tree, originals: seq<Tree>, places: seq<Place>) {
    && Separated(l) && Rooted(originals)
    && AllPlaced(l, t, originals, places)
    && l.staging in t && NothingAt(t, l.archive)
  }

  /** The same for a job, if the caller has seen to its paths. */
  ghost predicate Ready(job: Job, t: Tree, originals: seq<Tree>, places: seq<Place>) {
    job.WellSeparated() ==> StagingReady(job.Layout(), t, originals, places)
  }

  /** The staging directory exists and every source is still at home. */
  ghost predicate PartReady(job: Job, t: Tree, originals: seq<Tree>) {
    Ready(job, t, originals, Uniform(|job.sources|, Home))
  }

  lemma ChildApart(job: Job, name: Name, home: Path, t: Tree)
    requires Closed(t) && home in t && job.Child(name) !in t && name != "" && !(home <= job.Parent())
    ensures Apart(home, job.Child(name))
  {
    var c := job.Child(name);
    MissingIsEmpty(t, c);
    if |home| < |c| {
      assert c[..|home|] == job.Parent()[..|home|];
    }
  }

  lemma LayoutSeparated(job: Job, t: Tree)
    requires job.WellSeparated() && Closed(t)
    requires forall i :: 0 <= i < |job.sources| ==> job.Home(job.sources[i]) in t
    requires job.Child(job.archiveName) !in t && job.Child(job.stagingName) !in t
    ensures Separated(job.Layout())
  {
    var l := job.Layout();
    forall i | 0 <= i < |l.homes| ensures Apart(l.homes[i], l.staging) && Apart(l.homes[i], l.archive) {
      ChildApart(job, job.stagingName, l.homes[i], t);
      ChildApart(job, job.archiveName, l.homes[i], t);
    }
    assert l.staging[|l.staging| - 1] == job.stagingName && l.archive[|l.archive| - 1] == job.archiveName;
  }

  lemma SpotNotAboveStaging(l: Layout, i: nat, at: Place)
    requires Separated(l) && i < |l.homes|
    ensures !(l.Spot(i, at) <= l.staging)
  {
    assert l.targets[i] != [] by { assert [] <= [MANIFEST_NAME]; }
    assert l.archive + l.targets[i] <= l.staging ==> l.archive <= l.staging;
  }

  lemma HomeBeforeStaging(l: Layout, t: Tree, i: nat)
    requires |l.targets| == |l.homes| && i < |l.homes| && NothingAt(t, l.staging) && NothingAt(t, l.archive)
    ensures Placed(l, t, Originals(t, l), i, Home)
  {
    BelowNothing(t, l.staging, l.targets[i]);
    BelowNothing(t, l.archive, l.targets[i]);
    assert Originals(t, l)[i] == Subtree(t, l.homes[i]);
  }

  /** Creating the staging directory where nothing was leaves every source at home. */
  lemma StagingCreated(l: Layout, t: Tree, originals: seq<Tree>)
    requires Separated(l) && Rooted(originals) && |originals| == |l.homes|
    requires Originals(t, l) == originals
    requires NothingAt(t, l.staging) && NothingAt(t, l.archive)
    ensures StagingReady(l, t[l.staging := Dir], originals, Uniform(|originals|, Home))
  {
    var u, places := t[l.staging := Dir], Uniform(|originals|, Home);
    forall i | 0 <= i < |l.homes| ensures Placed(l, t, originals, i, places[i]) {
      HomeBeforeStaging(l, t, i);
    }
    forall i, at: Place | 0 <= i < |l.homes| ensures !(l.Spot(i, at) <= l.staging) {
      SpotNotAboveStaging(l, i, at);
    }
    AncestorsKeepPlaces(l, t, u, originals, places, l.staging);
  }

  /** Directories above a destination, and the manifest, meet no spot. */
  lemma InsideStagingKeepsReady(l: Layout, t: Tree, u: Tree, originals: seq<Tree>, places: seq<Place>, x: Path)
    requires StagingReady(l, t, originals, places)
    requires OnlyAncestorsAdded(t, u, l.staging + x)
    requires forall i :: 0 <= i < |l.targets| ==> !(l.targets[i] <= x)
    ensures StagingReady(l, u, originals, places)
  {
    var p := l.staging + x;
    ApartBelow(l.archive, l.staging, [], x);
    assert l.archive + [] == l.archive;
    forall i, at: Place | 0 <= i < |l.homes| ensures !(l.Spot(i, at) <= p) {
      SameBase(l.staging, l.targets[i], x);
      ApartBelow(l.homes[i], l.staging, [], x);
      assert l.homes[i] + [] == l.homes[i];
      ApartBelow(l.archive, l.staging, l.targets[i], x);
    }
    AncestorsKeepPlaces(l, t, u, originals, places, p);
    AncestorsElsewhere(t, u, p, l.archive);
    NothingAtIsEmpty(t, l.archive);
    NothingAtIsEmpty(u, l.archive);
  }

  /** The tree only gained entries, and every entry still has its parent if it had. */
  ghost predicate Grown(t: Tree, u: Tree) {
    NothingLost(t, u) && (Closed(t) ==> Closed(u))
  }

  lemma GrownTwice(t: Tree, u: Tree, v: Tree)
    requires Grown(t, u) && Grown(u, v)
    ensures Grown(t, v)
  {}

  /** Nothing has been started: the sources are untouched and there is no archive. */
  ghost predicate NotStarted(job: Job, t: Tree, originals: seq<Tree>) {
    Untouched(job, t, originals) && job.Child(job.archiveName) !in t
  }

  /** The manifest is in the directory of that name. */
  ghost predicate HoldsManifest(job: Job, t: Tree, name: Name, manifest: Node) {
    var p := job.Child(name) + ["archive_manifest.json"];
    p in t && t[p] == manifest
  }

  /** Creates the staging directory, the parents of every destination, and the manifest. */
  method MakePart(disk: Disk, job: Job, manifest: Node, ghost originals: seq<Tree>)
    returns (error: Option<OsError>, staging: Option<Path>, ghost engaged: bool)
    requires Closed(disk.tree) && Checked(job, disk.tree) && originals == Originals(disk.tree, job.Layout())
    modifies disk`tree, disk`faults, disk`raised, disk`refusals, disk`checks, disk`blunders
    ensures error.None? ==> disk.checks == old(disk.checks) + 1
    ensures job.WellSeparated() ==> disk.blunders == old(disk.blunders)
    ensures error.None? ==> SpotsReady(job, disk.tree)
    ensures disk.faults >= old(disk.faults) && (error.None? ==> disk.faults == old(disk.faults))
    ensures disk.refusals > old(disk.refusals) ==>
      error == Some(StateError(AccessDenied)) && disk.checks == old(disk.checks) + 1 && !engaged
    ensures error.Some? && disk.faults == old(disk.faults) && disk.refusals == old(disk.refusals) ==>
      error == Some(StateError(DestinationExists))
    ensures RaisedBy(old(disk.raised), disk.raised, error) && disk.refusals >= old(disk.refusals)
    ensures error.None? ==> disk.refusals == old(disk.refusals)
    ensures error.Some? && disk.faults == old(disk.faults) && disk.refusals == old(disk.refusals) ==>
      job.Child(job.stagingName) in disk.tree && !engaged
    ensures error.Some? && error.value.StateError? ==> error.value.category in {AccessDenied, DestinationExists}
    ensures error.None? ==> HoldsManifest(job, disk.tree, job.stagingName, manifest)
    ensures error.None? ==> job.Child(job.stagingName) !in old(disk.tree)
    ensures job.stagingName != "" && error.Some? && !engaged && job.Child(job.stagingName) in disk.tree ==>
      job.Child(job.stagingName) in old(disk.tree)
    ensures Grown(old(disk.tree), disk.tree)
    ensures staging.Some? ==> staging.value == job.Child(job.stagingName)
    ensures error.None? ==> engaged
    ensures engaged ==> staging.Some?
    ensures !engaged ==> error.Some? && (disk.faults == old(disk.faults) ==> error.value.StateError?)
    ensures !engaged ==>
      (staging.Some? && staging.value in disk.tree <==> error == Some(StateError(DestinationExists)))
    ensures !engaged ==> NotStarted(job, disk.tree, originals)
    ensures engaged ==> PartReady(job, disk.tree, originals)
  {
    staging, engaged := None, false;
    error := disk.MkdirParents(job.Parent());
    ParentsOnly(job, old(disk.tree), disk.tree);
    if error.Some? { return; }
    var chainValid := disk.Permits();
    if !chainValid { return Some(StateError(AccessDenied)), None, false; }
    staging := Some(job.Child(job.stagingName));
    if staging.value in disk.tree { return Some(StateError(DestinationExists)), staging, false; }
    ghost var parents := disk.tree;
    error, engaged := StartPart(disk, job, manifest, staging.value, old(disk.tree), originals);
    GrownTwice(old(disk.tree), parents, disk.tree);
  }

  lemma ParentsOnly(job: Job, t: Tree, u: Tree)
    requires Checked(job, t) && OnlyAncestorsAdded(t, u, job.Parent()) && (Closed(t) ==> Closed(u))
    ensures Grown(t, u) && NotStarted(job, u, Originals(t, job.Layout()))
  {
    ParentsLeaveUntouched(job, t, u);
  }

  /** Creates the staging directory, where nothing is, and what is in it. `checked` is the tree that preflight
      saw. */
  method StartPart(disk: Disk, job: Job, manifest: Node, staging: Path, ghost checked: Tree, ghost originals: seq<Tree>)
    returns (error: Option<OsError>, ghost engaged: bool)
    requires Closed(disk.tree) && Checked(job, checked) && OnlyAncestorsAdded(checked, disk.tree, job.Parent())
    requires originals == Originals(checked, job.Layout())
    requires staging == job.Child(job.stagingName) && staging !in disk.tree && IsDirectory(disk.tree, job.Parent())
    modifies disk`tree, disk`faults, disk`raised, disk`blunders
    ensures disk.faults == old(disk.faults) + (if error.Some? then 1 else 0)
    ensures RaisedBy(old(disk.raised), disk.raised, error) && (error.Some? ==> error.value.Native?)
    ensures job.WellSeparated() ==> disk.blunders == old(disk.blunders)
    ensures error.None? ==> SpotsReady(job, disk.tree)
    ensures error.None? ==> HoldsManifest(job, disk.tree, job.stagingName, manifest)
    ensures Grown(old(disk.tree), disk.tree)
    ensures error.None? ==> engaged
    ensures !engaged ==> error.Some? && disk.tree == old(disk.tree)
    ensures engaged ==> PartReady(job, disk.tree, originals)
  {
    engaged := false;
    error := disk.Mkdir(staging);
    if error.Some? { return; }
    engaged := true;
    PartCreated(job, checked, old(disk.tree));
    NothingFilled(job, old(disk.tree));
    ghost var created := disk.tree;
    error := FillPart(disk, job, manifest, staging, originals);
    GrownTwice(old(disk.tree), created, disk.tree);
  }

  /** From the checks of preflight to the staging directory: `t` is the tree they saw, `u` the tree with
      the parents made. */
  lemma PartCreated(job: Job, t: Tree, u: Tree)
    requires Checked(job, t) && OnlyAncestorsAdded(t, u, job.Parent()) && Closed(u)
    requires job.Child(job.stagingName) !in u
    ensures PartReady(job, u[job.Child(job.stagingName) := Dir], Originals(t, job.Layout()))
  {
    if job.WellSeparated() {
      var l := job.Layout();
      assert l.archive !in u;
      MissingIsEmpty(u, l.staging);
      MissingIsEmpty(u, l.archive);
      LayoutSeparated(job, u);
      OriginalsRooted(job, t);
      ParentsLeaveUntouched(job, t, u);
      StagingCreated(l, u, Originals(t, l));
    }
  }

  lemma ParentsLeaveUntouched(job: Job, t: Tree, u: Tree)
    requires OnlyAncestorsAdded(t, u, job.Parent())
    ensures Untouched(job, u, Originals(t, job.Layout()))
  {
    if job.WellSeparated() {
      var l := job.Layout();
      forall i | 0 <= i < |l.homes| ensures Subtree(u, l.homes[i]) == Subtree(t, l.homes[i]) {
        AncestorsElsewhere(t, u, job.Parent(), l.homes[i]);
      }
    }
  }

  lemma OriginalsRooted(job: Job, t: Tree)
    requires Checked(job, t)
    ensures Rooted(Originals(t, job.Layout()))
  {
    var l := job.Layout();
    forall i | 0 <= i < |l.homes| ensures [] in Subtree(t, l.homes[i]) && Subtree(t, l.homes[i])[[]] == Dir {
      assert l.homes[i] + [] == l.homes[i] == job.Home(job.sources[i]);
    }
  }

  method FillPart(disk: Disk, job: Job, manifest: Node, staging: Path, ghost originals: seq<Tree>)
    returns (error: Option<OsError>)
    requires staging == job.Child(job.stagingName) && staging in disk.tree && job.stagingName != ""
    requires PartReady(job, disk.tree, originals) && Filled(job, disk.tree, 0)
    modifies disk`tree, disk`faults, disk`raised, disk`blunders
    ensures disk.faults == old(disk.faults) + (if error.Some? then 1 else 0)
    ensures RaisedBy(old(disk.raised), disk.raised, error) && (error.Some? ==> error.value.Native?)
    ensures job.WellSeparated() ==> disk.blunders == old(disk.blunders)
    ensures error.None? ==> SpotsReady(job, disk.tree)
    ensures error.None? ==> HoldsManifest(job, disk.tree, job.stagingName, manifest)
    ensures Grown(old(disk.tree), disk.tree)
    ensures PartReady(job, disk.tree, originals)
  {
    ghost var places := Uniform(|job.sources|, Home);
    for k := 0 to |job.sources|
      invariant disk.faults == old(disk.faults) && disk.raised == old(disk.raised)
      invariant disk.blunders == old(disk.blunders)
      invariant Grown(old(disk.tree), disk.tree)
      invariant Ready(job, disk.tree, originals, places) && Filled(job, disk.tree, k)
    {
      ghost var before := disk.tree;
      error := MakeTargetParent(disk, job, k, staging, originals, places);
      GrownTwice(old(disk.tree), before, disk.tree);
      if error.Some? { return; }
    }
    ghost var before := disk.tree;
    ManifestFits(job, before);
    error := disk.WriteNew(staging + [MANIFEST_NAME], manifest);
    GrownTwice(old(disk.tree), before, disk.tree);
    if job.WellSeparated() {
      InsideStagingKeepsReady(job.Layout(), before, disk.tree, originals, places, [MANIFEST_NAME]);
    }
    if error.None? { ManifestKeepsSpots(job, before, manifest); }
  }

  function SpotPath(job: Job, k: nat): Path
    requires k < |job.sources|
  {
    job.Child(job.stagingName) + job.sources[k].target.parts
  }

  /** The directory that a destination in the staging directory is in. */
  function SpotParent(job: Job, k: nat): Path
    requires k < |job.sources|
  {
    var d := SpotPath(job, k);
    if d == [] then [] else ParentOf(d)
  }

  /** The staging directory holds the directories of the first `k` destinations, and no manifest. */
  ghost predicate Filled(job: Job, t: Tree, k: nat)
    requires k <= |job.sources|
  {
    job.WellSeparated() ==>
      && IsDirectory(t, job.Child(job.stagingName)) && job.Child(job.stagingName) + [MANIFEST_NAME] !in t
      && forall i :: 0 <= i < k ==> IsDirectory(t, SpotParent(job, i))
  }

  /** Every destination in the staging directory is in an existing directory. */
  ghost predicate SpotsReady(job: Job, t: Tree) {
    job.WellSeparated() ==> forall i :: 0 <= i < |job.sources| ==> IsDirectory(t, SpotParent(job, i))
  }

  lemma NothingFilled(job: Job, t: Tree)
    requires Closed(t) && job.Child(job.stagingName) !in t
    ensures Filled(job, t[job.Child(job.stagingName) := Dir], 0)
  {
    var s := job.Child(job.stagingName);
    MissingIsEmpty(t, s);
    assert s <= s + [MANIFEST_NAME];
  }

  lemma FillOneMore(job: Job, t: Tree, u: Tree, k: nat)
    requires k < |job.sources| && Filled(job, t, k)
    requires OnlyAncestorsAdded(t, u, SpotParent(job, k)) && IsDirectory(u, SpotParent(job, k))
    ensures Filled(job, u, k + 1)
  {
    if job.WellSeparated() {
      var s, x := job.Child(job.stagingName), job.sources[k].target.parts;
      assert job.Layout().targets[k] == x;
      assert SpotParent(job, k) <= s + x;
      SameBase(s, [MANIFEST_NAME], x);
      assert s + [MANIFEST_NAME] <= SpotParent(job, k) ==> s + [MANIFEST_NAME] <= s + x;
    }
  }

  lemma ManifestFits(job: Job, t: Tree)
    requires Filled(job, t, |job.sources|)
    ensures job.WellSeparated() ==> CanCreate(t, job.Child(job.stagingName) + [MANIFEST_NAME])
  {
    var s := job.Child(job.stagingName);
    assert ParentOf(s + [MANIFEST_NAME]) == s;
  }

  lemma ManifestKeepsSpots(job: Job, t: Tree, manifest: Node)
    requires Filled(job, t, |job.sources|)
    ensures SpotsReady(job, t[job.Child(job.stagingName) + [MANIFEST_NAME] := manifest])
  {}

  method MakeTargetParent(disk: Disk, job: Job, k: nat, staging: Path, ghost originals: seq<Tree>,
                          ghost places: seq<Place>)
    returns (error: Option<OsError>)
    requires k < |job.sources| && staging == job.Child(job.stagingName) && job.stagingName != ""
    requires Ready(job, disk.tree, originals, places) && Filled(job, disk.tree, k)
    modifies disk`tree, disk`faults, disk`raised
    ensures error.None? ==> Filled(job, disk.tree, k + 1)
    ensures disk.faults == old(disk.faults) + (if error.Some? then 1 else 0)
    ensures RaisedBy(old(disk.raised), disk.raised, error) && (error.Some? ==> error.value.Native?)
    ensures Grown(old(disk.tree), disk.tree)
    ensures Ready(job, disk.tree, originals, places)
  {
    var d := staging + job.sources[k].target.parts;
    error := disk.MkdirParents(ParentOf(d));
    if error.None? { FillOneMore(job, old(disk.tree), disk.tree, k); }
    if job.WellSeparated() { TargetParentKeepsReady(job, k, old(disk.tree), disk.tree, originals, places); }
  }

  lemma TargetParentKeepsReady(job: Job, k: nat, t: Tree, u: Tree, originals: seq<Tree>, places: seq<Place>)
    requires k < |job.sources| && StagingReady(job.Layout(), t, originals, places)
    requires var d := job.Child(job.stagingName) + job.sources[k].target.parts;
             d != [] && OnlyAncestorsAdded(t, u, d[..|d| - 1])
    ensures StagingReady(job.Layout(), u, originals, places)
  {
    var l := job.Layout();
    var x := l.targets[k];
    var d := l.staging + x;
    assert x != [] by { assert [] <= [MANIFEST_NAME]; }
    assert d[..|d| - 1] == l.staging + x[..|x| - 1];
    forall i | 0 <= i < |l.targets| ensures !(l.targets[i] <= x[..|x| - 1]) {
      BelowParentIsBelow(l.targets[i], x);
    }
    InsideStagingKeepsReady(l, t, u, originals, places, x[..|x| - 1]);
  }

  // ----- Moving, verifying and publishing -----

  /** The first `k` sources are at `place`, the others at home. */
  function MovedPlaces(n: nat, k: nat, place: Place): seq<Place> {
    seq(n, i => if i < k then place else Home)
  }

  lemma NothingMovedYet(n: nat, place: Place)
    ensures MovedPlaces(n, 0, place) == Uniform(n, Home)
  {}

  lemma MoveKeepsReady(l: Layout, t: Tree, originals: seq<Tree>, k: nat)
    requires k < |originals| && StagingReady(l, t, originals, MovedPlaces(|originals|, k, Staged))
    requires NothingAt(t, l.Spot(k, Staged))
    ensures StagingReady(l, Move(t, l.homes[k], l.Spot(k, Staged)), originals, MovedPlaces(|originals|, k + 1, Staged))
  {
    var places := MovedPlaces(|originals|, k, Staged);
    var m := Move(t, l.homes[k], l.Spot(k, Staged));
    MoveOne(l, t, originals, places, k, Staged);
    assert places[k := Staged] == MovedPlaces(|originals|, k + 1, Staged);
    ApartBelow(l.archive, l.staging, [], l.targets[k]);
    assert l.archive + [] == l.archive;
    MoveElsewhere(t, l.homes[k], l.Spot(k, Staged), l.archive);
    NothingAtIsEmpty(t, l.archive);
    NothingAtIsEmpty(m, l.archive);
  }

  /** The first `k` sources are in the staging directory. */
  ghost predicate MovedSoFar(job: Job, t: Tree, originals: seq<Tree>, k: nat) {
    Ready(job, t, originals, MovedPlaces(|originals|, k, Staged))
  }

  /** With well-separated paths the manifest is in the staging directory. */
  ghost predicate KeepsManifest(job: Job, t: Tree, manifest: Node) {
    job.WellSeparated() ==> HoldsManifest(job, t, job.stagingName, manifest)
  }

  lemma MoveKeepsManifest(job: Job, t: Tree, originals: seq<Tree>, k: nat, manifest: Node)
    requires k < |job.sources| == |originals| && MovedSoFar(job, t, originals, k) && KeepsManifest(job, t, manifest)
    ensures var to := job.Child(job.stagingName) + job.sources[k].target.parts;
            KeepsManifest(job, Move(t, job.Home(job.sources[k]), to), manifest)
  {
    if job.WellSeparated() {
      var l := job.Layout();
      var p := l.staging + [MANIFEST_NAME];
      assert l.homes[k] == job.Home(job.sources[k]) && l.targets[k] == job.sources[k].target.parts;
      ApartBelow(l.homes[k], l.staging, [], [MANIFEST_NAME]);
      assert l.homes[k] + [] == l.homes[k];
      SameBase(l.staging, l.targets[k], [MANIFEST_NAME]);
      MoveKeepsOthers(t, l.homes[k], l.staging + l.targets[k], p);
    }
  }

  /** The first `k` sources are in the staging directory, beside the manifest and the directories of the others'
      destinations, and every entry still has its parent if it had. */
  ghost predicate Moving(job: Job, before: Tree, t: Tree, originals: seq<Tree>, k: nat, manifest: Node) {
    && MovedSoFar(job, t, originals, k) && KeepsManifest(job, t, manifest) && SpotsReady(job, t)
    && (Closed(before) ==> Closed(t))
  }

  lemma MovingOn(job: Job, before: Tree, t: Tree, u: Tree, originals: seq<Tree>, k: nat, manifest: Node)
    requires (Closed(before) ==> Closed(t)) && Moving(job, t, u, originals, k, manifest)
    ensures Moving(job, before, u, originals, k, manifest)
  {}

  lemma MovingStarts(job: Job, t: Tree, originals: seq<Tree>, manifest: Node)
    requires |originals| == |job.sources| && PartReady(job, t, originals)
    requires KeepsManifest(job, t, manifest) && SpotsReady(job, t)
    ensures Moving(job, t, t, originals, 0, manifest)
  {
    NothingMovedYet(|originals|, Staged);
  }

  lemma CanMove(job: Job, t: Tree, originals: seq<Tree>, k: nat)
    requires k < |job.sources| == |originals| && MovedSoFar(job, t, originals, k) && SpotsReady(job, t)
    ensures job.WellSeparated() ==> CanRename(t, job.Home(job.sources[k]), SpotPath(job, k))
  {
    if job.WellSeparated() {
      var l, places := job.Layout(), MovedPlaces(|originals|, k, Staged);
      assert l.homes[k] == job.Home(job.sources[k]) && l.Spot(k, Staged) == SpotPath(job, k);
      PlaceOfExisting(l, t, originals, places, k, Home);
      PlaceOfExisting(l, t, originals, places, k, Staged);
      SpotsApart(l, k, Home, k, Staged);
      assert SpotPath(job, k) != [] && SpotParent(job, k) == ParentOf(SpotPath(job, k));
    }
  }

  lemma MoveKeepsSpots(job: Job, t: Tree, originals: seq<Tree>, k: nat)
    requires k < |job.sources| == |originals| && MovedSoFar(job, t, originals, k) && SpotsReady(job, t)
    ensures SpotsReady(job, Move(t, job.Home(job.sources[k]), SpotPath(job, k)))
  {
    if job.WellSeparated() {
      var m := Move(t, job.Home(job.sources[k]), SpotPath(job, k));
      forall i | 0 <= i < |job.sources| ensures IsDirectory(m, SpotParent(job, i)) {
        ParentClearOfMove(job, i, k);
        MoveKeepsOthers(t, job.Home(job.sources[k]), SpotPath(job, k), SpotParent(job, i));
      }
    }
  }

  /** The directory of a destination is at or below neither end of a source's move. */
  lemma ParentClearOfMove(job: Job, i: nat, k: nat)
    requires job.WellSeparated() && Separated(job.Layout()) && i < |job.sources| && k < |job.sources|
    ensures !(job.Home(job.sources[k]) <= SpotParent(job, i)) && !(SpotPath(job, k) <= SpotParent(job, i))
  {
    var l := job.Layout();
    assert l.homes[k] == job.Home(job.sources[k]);
    assert l.Spot(k, Staged) == SpotPath(job, k) && l.Spot(i, Staged) == SpotPath(job, i);
    assert SpotPath(job, i) != [];
    SpotsApart(l, k, Home, i, Staged);
    if i != k { SpotsApart(l, k, Staged, i, Staged); }
    BelowParentIsBelow(job.Home(job.sources[k]), SpotPath(job, i));
    BelowParentIsBelow(SpotPath(job, k), SpotPath(job, i));
  }

  lemma BelowParentIsBelow(q: Path, p: Path)
    requires p != []
    ensures q <= ParentOf(p) ==> q <= p && q != p
  {}

  method MoveSources(disk: Disk, job: Job, staging: Path, ghost originals: seq<Tree>, ghost manifest: Node)
    returns (error: Option<OsError>, moved: seq<Source>, sourceClass: Option<string>)
    requires staging == job.Child(job.stagingName) && |originals| == |job.sources|
    requires PartReady(job, disk.tree, originals) && KeepsManifest(job, disk.tree, manifest)
    requires SpotsReady(job, disk.tree)
    modifies disk`tree, disk`faults, disk`raised, disk`blunders
    ensures job.WellSeparated() ==> disk.blunders == old(disk.blunders)
    ensures disk.faults == old(disk.faults) + (if error.Some? then 1 else 0)
    ensures RaisedBy(old(disk.raised), disk.raised, error) && (error.Some? ==> error.value.Native?)
    ensures error.Some? ==> |moved| < |job.sources| && sourceClass == Some(job.sources[|moved|].sourceClass)
    ensures moved <= job.sources
    ensures error.None? ==> moved == job.sources
    ensures Moving(job, old(disk.tree), disk.tree, originals, |moved|, manifest)
  {
    moved, sourceClass, error := [], None, None;
    MovingStarts(job, disk.tree, originals, manifest);
    ghost var start := disk.tree;
    for k := 0 to |job.sources|
      invariant |moved| == k && moved == job.sources[..k]
      invariant disk.faults == old(disk.faults) && disk.raised == old(disk.raised)
      invariant job.WellSeparated() ==> disk.blunders == old(disk.blunders)
      invariant Moving(job, start, disk.tree, originals, k, manifest)
    {
      sourceClass := Some(job.sources[k].sourceClass);
      error := MoveNext(disk, job, k, staging, originals, start, manifest);
      if error.Some? { return; }
      moved := moved + [job.sources[k]];
    }
    error := None;
  }

  /** Moves source `k`, after the ones before it. */
  method MoveNext(disk: Disk, job: Job, k: nat, staging: Path, ghost originals: seq<Tree>, ghost start: Tree,
                  ghost manifest: Node)
    returns (error: Option<OsError>)
    requires staging == job.Child(job.stagingName) && k < |job.sources| == |originals|
    requires Moving(job, start, disk.tree, originals, k, manifest)
    modifies disk`tree, disk`faults, disk`raised, disk`blunders
    ensures disk.faults == old(disk.faults) + (if error.Some? then 1 else 0)
    ensures RaisedBy(old(disk.raised), disk.raised, error) && (error.Some? ==> error.value.Native?)
    ensures job.WellSeparated() ==> disk.blunders == old(disk.blunders)
    ensures Moving(job, start, disk.tree, originals, if error.Some? then k else k + 1, manifest)
  {
    error := MoveSource(disk, job, k, staging, originals, manifest);
    MovingOn(job, start, old(disk.tree), disk.tree, originals, if error.Some? then k else k + 1, manifest);
  }

  method MoveSource(disk: Disk, job: Job, k: nat, staging: Path, ghost originals: seq<Tree>, ghost manifest: Node)
    returns (error: Option<OsError>)
    requires staging == job.Child(job.stagingName) && k < |job.sources| == |originals|
    requires Moving(job, disk.tree, disk.tree, originals, k, manifest)
    modifies disk`tree, disk`faults, disk`raised, disk`blunders
    ensures disk.faults == old(disk.faults) + (if error.Some? then 1 else 0)
    ensures RaisedBy(old(disk.raised), disk.raised, error) && (error.Some? ==> error.value.Native?)
    ensures job.WellSeparated() ==> disk.blunders == old(disk.blunders)
    ensures Moving(job, old(disk.tree), disk.tree, originals, if error.Some? then k else k + 1, manifest)
  {
    CanMove(job, disk.tree, originals, k);
    error := disk.Rename(job.Home(job.sources[k]), staging + job.sources[k].target.parts);
    if error.None? {
      MoveKeepsSpots(job, old(disk.tree), originals, k);
      MoveKeepsManifest(job, old(disk.tree), originals, k, manifest);
      if job.WellSeparated() { MoveKeepsReady(job.Layout(), old(disk.tree), originals, k); }
    }
  }

  /** Every source is a directory below `base` and looks like its snapshot. */
  ghost predicate Matches(job: Job, t: Tree, base: Path, snapshots: seq<Tree>)
    requires |snapshots| == |job.sources|
  {
    forall k :: 0 <= k < |job.sources| ==>
      && IsDirectory(t, base + job.sources[k].target.parts)
      && Subtree(t, base + job.sources[k].target.parts) == snapshots[k]
  }

  ghost predicate DiffersAt(job: Job, t: Tree, base: Path, snapshots: seq<Tree>, k: nat)
    requires k < |job.sources| == |snapshots|
  {
    Subtree(t, base + job.sources[k].target.parts) != snapshots[k]
  }

  /** No path was misread but those of the sources below `base`. */
  ghost predicate OnlyBelow(job: Job, base: Path, before: multiset<Path>, after: multiset<Path>) {
    forall q :: (forall k :: 0 <= k < |job.sources| ==> q != base + job.sources[k].target.parts) ==>
      after[q] == before[q]
  }

  /** Compares every source below `base` with its preflight snapshot. Without a fault it passes exactly when
      they match; if they match, it stops at the first fault. */
  method Verify(disk: Disk, job: Job, base: Path, snapshots: seq<Tree>)
    returns (error: Option<OsError>, sourceClass: Option<string>)
    requires |snapshots| == |job.sources|
    modifies disk`faults, disk`misread, disk`raised
    ensures disk.faults >= old(disk.faults) && disk.misread >= old(disk.misread)
    ensures RaisedBy(old(disk.raised), disk.raised, error)
    ensures error.Some? && error.value.StateError? ==> error.value.category == ManifestMismatch
    ensures job.sources != [] ==> sourceClass.Some?
    ensures error.Some? ==>
      exists k :: 0 <= k < |job.sources| && sourceClass == Some(job.sources[k].sourceClass)
                  && (disk.faults == old(disk.faults) ==> DiffersAt(job, disk.tree, base, snapshots, k))
    ensures disk.faults == old(disk.faults) ==> (error.None? <==> Matches(job, disk.tree, base, snapshots))
    ensures Matches(job, disk.tree, base, snapshots) ==>
      disk.faults == old(disk.faults) + (if error.Some? then 1 else 0)
    ensures OnlyBelow(job, base, old(disk.misread), disk.misread)
  {
    sourceClass := None;
    for k := 0 to |job.sources|
      invariant disk.raised == old(disk.raised)
      invariant disk.faults >= old(disk.faults) && disk.misread >= old(disk.misread)
      invariant disk.faults == old(disk.faults) ==>
        forall i :: 0 <= i < k ==>
          && IsDirectory(disk.tree, base + job.sources[i].target.parts)
          && Subtree(disk.tree, base + job.sources[i].target.parts) == snapshots[i]
      invariant Matches(job, disk.tree, base, snapshots) ==> disk.faults == old(disk.faults)
      invariant k > 0 ==> sourceClass.Some?
      invariant OnlyBelow(job, base, old(disk.misread), disk.misread)
    {
      var s := job.sources[k];
      sourceClass := Some(s.sourceClass);
      var r := disk.Snapshot(base + s.target.parts);
      if r.Failure? { return Some(r.error), sourceClass; }
      if r.value != snapshots[k] { return Some(StateError(ManifestMismatch)), sourceClass; }
    }
    error := None;
  }
}
