/** The canonical environment: one parent snapshot without duplicate spellings, unsafe names or
    directories outside the runtime root. */
module StartupEnvironment {
  import opened AsciiCase

  /** A name and its value; a mapping is the sequence of its items in order. */
  type Entry = (string, string)

  datatype EnvironmentError = RuntimeRootOutsideRepository | EntryInvalid | ConflictingDuplicate

  /** The directories below the runtime root that the redirected names get. */
  datatype Redirects = Redirects(temp: string, appData: string, localAppData: string, userProfile: string)

  datatype Environment = Environment(byFoldedName: map<string, Entry>, duplicates: nat)

  datatype Result<+T> = Ok(value: T) | Err(error: EnvironmentError)

  // ----- Names -----

  const FILTERED_NAMES := {"PYTHONHOME", "PYTHONPATH", "VIRTUAL_ENV", "HTTP_PROXY", "HTTPS_PROXY", "ALL_PROXY",
                           "NO_PROXY"}

  const SENSITIVE_MARKERS := ["API_KEY", "AUTHORIZATION", "CREDENTIAL", "PASSWORD", "SECRET", "TOKEN", "COOKIE"]

  predicate OccursAt(s: string, part: string, i: nat) {
    i + |part| <= |s| && s[i..i + |part|] == part
  }

  predicate Contains(s: string, part: string) {
    exists i :: 0 <= i <= |s| && OccursAt(s, part, i)
  }

  predicate MustFilter(upperName: string) {
    || upperName in FILTERED_NAMES
    || "QT_" <= upperName
    || "ARKCLAW_" <= upperName
    || (|upperName| >= 6 && upperName[|upperName| - 6..] == "_PROXY")
    || SomeMarker(upperName)
  }

  /** The text is made of the two parts around the middle one. */
  predicate Around(s: string, a: string, m: string, b: string) {
    s == a + m + b
  }

  lemma ContainsMeaning(s: string, part: string)
    ensures Contains(s, part) <==> exists a, b :: Around(s, a, part, b)
  {
    if Contains(s, part) {
      var i :| 0 <= i <= |s| && OccursAt(s, part, i);
      assert s == s[..i] + s[i..i + |part|] + s[i + |part|..];
      assert Around(s, s[..i], part, s[i + |part|..]);
    }
    if a, b :| Around(s, a, part, b) {
      assert OccursAt(s, part, |a|);
    }
  }

  /** Exactly these names are filtered: seven by name, two prefixes, one suffix, and everything around one of
      seven words. */
  lemma MustFilterMeaning(s: string)
    ensures MustFilter(s)
       <==> || s == "PYTHONHOME" || s == "PYTHONPATH" || s == "VIRTUAL_ENV" || s == "HTTP_PROXY"
            || s == "HTTPS_PROXY" || s == "ALL_PROXY" || s == "NO_PROXY"
            || (exists b :: Around(s, "", "QT_", b)) || (exists b :: Around(s, "", "ARKCLAW_", b))
            || (exists a :: Around(s, a, "_PROXY", ""))
            || (exists a, b :: Around(s, a, "API_KEY", b)) || (exists a, b :: Around(s, a, "AUTHORIZATION", b))
            || (exists a, b :: Around(s, a, "CREDENTIAL", b)) || (exists a, b :: Around(s, a, "PASSWORD", b))
            || (exists a, b :: Around(s, a, "SECRET", b)) || (exists a, b :: Around(s, a, "TOKEN", b))
            || (exists a, b :: Around(s, a, "COOKIE", b))
  {
    StartMeaning(s, "QT_");
    StartMeaning(s, "ARKCLAW_");
    EndMeaning(s, "_PROXY");
    MarkersMeaning(s);
  }

  lemma StartMeaning(s: string, m: string)
    ensures m <= s <==> exists b :: Around(s, "", m, b)
  {
    if m <= s { assert Around(s, "", m, s[|m|..]); }
    if b :| Around(s, "", m, b) { assert m <= "" + m + b; }
  }

  lemma EndMeaning(s: string, m: string)
    ensures (|s| >= |m| && s[|s| - |m|..] == m) <==> exists a :: Around(s, a, m, "")
  {
    if |s| >= |m| && s[|s| - |m|..] == m { assert Around(s, s[..|s| - |m|], m, ""); }
    if a :| Around(s, a, m, "") { assert s == a + m && s[|s| - |m|..] == m; }
  }

  predicate SomeMarker(s: string) {
    exists k :: 0 <= k < |SENSITIVE_MARKERS| && Contains(s, SENSITIVE_MARKERS[k])
  }

  lemma MarkersMeaning(s: string)
    ensures SomeMarker(s)
       <==> || (exists a, b :: Around(s, a, "API_KEY", b)) || (exists a, b :: Around(s, a, "AUTHORIZATION", b))
            || (exists a, b :: Around(s, a, "CREDENTIAL", b)) || (exists a, b :: Around(s, a, "PASSWORD", b))
            || (exists a, b :: Around(s, a, "SECRET", b)) || (exists a, b :: Around(s, a, "TOKEN", b))
            || (exists a, b :: Around(s, a, "COOKIE", b))
  {
    ContainsMeaning(s, "API_KEY");
    ContainsMeaning(s, "AUTHORIZATION");
    ContainsMeaning(s, "CREDENTIAL");
    ContainsMeaning(s, "PASSWORD");
    ContainsMeaning(s, "SECRET");
    ContainsMeaning(s, "TOKEN");
    ContainsMeaning(s, "COOKIE");
    assert SENSITIVE_MARKERS[0] == "API_KEY" && SENSITIVE_MARKERS[1] == "AUTHORIZATION";
    assert SENSITIVE_MARKERS[2] == "CREDENTIAL" && SENSITIVE_MARKERS[3] == "PASSWORD";
    assert SENSITIVE_MARKERS[4] == "SECRET" && SENSITIVE_MARKERS[5] == "TOKEN" && SENSITIVE_MARKERS[6] == "COOKIE";
  }

  predicate IsPath(e: Entry) { Fold(e.0) == "path" }

  /** An entry that is normalised under its folded name. */
  predicate IsKept(e: Entry) { !IsPath(e) && !MustFilter(Upper(e.0)) }

  // ----- The scan -----

  datatype State = State(normalized: map<string, Entry>, duplicates: nat, paths: seq<Entry>)

  function Step(s: State, e: Entry): Result<State> {
    if e.0 == "" then Err(EntryInvalid)
    else if IsPath(e) then Ok(s.(paths := s.paths + [e]))
    else if MustFilter(Upper(e.0)) then Ok(s)
    else if Fold(e.0) in s.normalized then
      if s.normalized[Fold(e.0)].1 != e.1 then Err(ConflictingDuplicate)
      else Ok(s.(duplicates := s.duplicates + 1))
    else Ok(s.(normalized := s.normalized[Fold(e.0) := e]))
  }

  function Scan(parent: seq<Entry>): Result<State> {
    if parent == [] then Ok(State(map[], 0, []))
    else
      var before := Scan(parent[..|parent| - 1]);
      if before.Err? then before else Step(before.value, parent[|parent| - 1])
  }

  /** The value of the exact spelling `Path` if there is one, else of the first spelling. */
  function PreferredPath(paths: seq<Entry>): string
    requires paths != []
  {
    if i :| 0 <= i < |paths| && paths[i].0 == "Path" && (forall j :: 0 <= j < i ==> paths[j].0 != "Path")
    then paths[i].1 else paths[0].1
  }

  function WithPath(s: State): map<string, Entry> {
    if s.paths == [] then s.normalized else s.normalized["path" := ("Path", PreferredPath(s.paths))]
  }

  function RedirectMap(r: Redirects): map<string, Entry> {
    map["temp" := ("TEMP", r.temp), "tmp" := ("TMP", r.temp), "tmpdir" := ("TMPDIR", r.temp),
        "appdata" := ("APPDATA", r.appData), "localappdata" := ("LOCALAPPDATA", r.localAppData),
        "home" := ("HOME", r.userProfile), "userprofile" := ("USERPROFILE", r.userProfile)]
  }

  function Finish(s: State, r: Redirects): Environment {
    Environment(WithPath(s) + RedirectMap(r), s.duplicates + if |s.paths| > 1 then |s.paths| - 1 else 0)
  }

  function Canonical(parent: seq<Entry>, r: Redirects, runtimeInside: bool): Result<Environment> {
    if !runtimeInside then Err(RuntimeRootOutsideRepository)
    else
      var s := Scan(parent);
      if s.Err? then Err(s.error) else Ok(Finish(s.value, r))
  }

  method BuildCanonicalEnvironment(parent: seq<Entry>, r: Redirects, runtimeInside: bool)
    returns (result: Result<Environment>)
    ensures result == Canonical(parent, r, runtimeInside)
  {
    if !runtimeInside { return Err(RuntimeRootOutsideRepository); }
    var normalized: map<string, Entry>, duplicates, paths: seq<Entry> := map[], 0, [];
    for k := 0 to |parent|
      invariant Scan(parent[..k]) == Ok(State(normalized, duplicates, paths))
    {
      assert parent[..k + 1][..k] == parent[..k];
      var (name, value) := parent[k];
      if name == "" {
        FailureStays(parent, k + 1);
        return Err(EntryInvalid);
      }
      var folded := Fold(name);
      if folded == "path" {
        paths := paths + [(name, value)];
        continue;
      }
      if MustFilter(Upper(name)) { continue; }
      if folded in normalized {
        if normalized[folded].1 != value {
          FailureStays(parent, k + 1);
          return Err(ConflictingDuplicate);
        }
        duplicates := duplicates + 1;
        continue;
      }
      normalized := normalized[folded := (name, value)];
    }
    assert parent[..|parent|] == parent;
    result := Ok(Finish(State(normalized, duplicates, paths), r));
  }

  lemma {:induction false} FailureStays(parent: seq<Entry>, k: nat)
    requires k <= |parent| && Scan(parent[..k]).Err?
    ensures Scan(parent) == Scan(parent[..k])
    decreases |parent| - k
  {
    if k == |parent| {
      assert parent[..k] == parent;
    } else {
      assert parent[..k + 1][..k] == parent[..k];
      FailureStays(parent, k + 1);
    }
  }

  // ----- What the scan establishes -----

  ghost predicate Clean(parent: seq<Entry>) {
    && (forall e :: e in parent ==> e.0 != "")
    && (forall e, d :: e in parent && d in parent && IsKept(e) && IsKept(d) && Fold(e.0) == Fold(d.0) ==> e.1 == d.1)
  }

  function Filter(s: seq<Entry>, p: Entry -> bool): seq<Entry> {
    if s == [] then [] else Filter(s[..|s| - 1], p) + if p(s[|s| - 1]) then [s[|s| - 1]] else []
  }

  /** The normalised entries are kept entries of the parent under their folded names, and every kept entry
      of the parent has its value there. */
  ghost predicate Normalizes(normalized: map<string, Entry>, parent: seq<Entry>) {
    && (forall f :: f in normalized ==> normalized[f] in parent && IsKept(normalized[f]) && Fold(normalized[f].0) == f)
    && (forall e :: e in parent && IsKept(e) ==> Fold(e.0) in normalized && normalized[Fold(e.0)].1 == e.1)
  }

  lemma StepSucceedsIffClean(n: map<string, Entry>, before: seq<Entry>, e: Entry, s: State)
    requires Clean(before) && Normalizes(n, before) && s.normalized == n
    ensures Step(s, e).Ok? <==> Clean(before + [e])
  {
    var all := before + [e];
    assert e in all && forall d :: d in before ==> d in all;
    if IsKept(e) && Fold(e.0) in n {
      assert n[Fold(e.0)] in all && IsKept(n[Fold(e.0)]);
    }
  }

  lemma StepNormalizes(n: map<string, Entry>, before: seq<Entry>, e: Entry, s: State)
    requires Normalizes(n, before) && s.normalized == n && Step(s, e).Ok?
    ensures Normalizes(Step(s, e).value.normalized, before + [e])
  {
    var all := before + [e];
    assert forall d :: d in all <==> d in before || d == e;
  }

  /** The scan succeeds exactly on names that are not empty and do not conflict. */
  lemma {:induction false} ScanMeaning(parent: seq<Entry>)
    ensures Scan(parent).Ok? <==> Clean(parent)
    ensures Scan(parent).Ok? ==>
      Normalizes(Scan(parent).value.normalized, parent) && Scan(parent).value.paths == Filter(parent, IsPath)
  {
    if parent != [] {
      var before, e := parent[..|parent| - 1], parent[|parent| - 1];
      assert parent == before + [e];
      ScanMeaning(before);
      if Scan(before).Ok? {
        var s := Scan(before).value;
        StepSucceedsIffClean(s.normalized, before, e, s);
        if Step(s, e).Ok? { StepNormalizes(s.normalized, before, e, s); }
      } else {
        assert forall d :: d in before ==> d in parent;
      }
    }
  }

  // ----- The result -----

  /** No letter that would make the name one of the filtered ones. */
  predicate Harmless(s: string) {
    '_' !in s && 'N' !in s && 'W' !in s && 'K' !in s && ('S' !in s || 'C' !in s)
  }

  lemma ContainsCharacters(s: string, part: string, c: char)
    requires Contains(s, part) && c in part
    ensures c in s
  {
    var i :| 0 <= i <= |s| && OccursAt(s, part, i);
    var j :| 0 <= j < |part| && part[j] == c;
    assert s[i + j] == s[i..i + |part|][j] == c;
  }

  /** Each way to be filtered needs a letter that a harmless name lacks. */
  lemma FilteredIsNotHarmless(s: string)
    requires MustFilter(s)
    ensures !Harmless(s)
  {
    if "QT_" <= s {
      assert s[2] == '_';
    } else if "ARKCLAW_" <= s {
      assert s[7] == '_';
    } else if |s| >= 6 && s[|s| - 6..] == "_PROXY" {
      assert s[|s| - 6] == s[|s| - 6..][0] == '_';
    } else if s in FILTERED_NAMES {
      assert "PYTHONHOME"[5] == 'N' && "PYTHONPATH"[5] == 'N' && "VIRTUAL_ENV"[7] == '_' && "HTTP_PROXY"[4] == '_';
      assert "HTTPS_PROXY"[5] == '_' && "ALL_PROXY"[3] == '_' && "NO_PROXY"[2] == '_';
    } else {
      var k :| 0 <= k < |SENSITIVE_MARKERS| && Contains(s, SENSITIVE_MARKERS[k]);
      MarkerLetters(k);
      ContainsCharacters(s, SENSITIVE_MARKERS[k],
        if k == 0 then '_' else if k == 3 then 'W' else if k == 4 then 'S' else if k == 6 then 'K' else 'N');
      if k == 4 { ContainsCharacters(s, SENSITIVE_MARKERS[k], 'C'); }
    }
  }

  lemma MarkerLetters(k: nat)
    requires k < |SENSITIVE_MARKERS|
    ensures var m := SENSITIVE_MARKERS[k];
            && (k == 0 ==> '_' in m) && (k == 3 ==> 'W' in m)
            && (k == 4 ==> 'S' in m && 'C' in m) && (k == 6 ==> 'K' in m)
            && (k in {1, 2, 5} ==> 'N' in m)
  {
    assert "API_KEY"[3] == '_' && "AUTHORIZATION"[12] == 'N' && "CREDENTIAL"[5] == 'N' && "PASSWORD"[4] == 'W';
    assert "SECRET"[0] == 'S' && "SECRET"[2] == 'C' && "TOKEN"[4] == 'N' && "COOKIE"[3] == 'K';
  }

  /** An entry stored under its own folded name, that would not be filtered. */
  ghost predicate Proper(f: string, e: Entry) {
    OwnName(f, e.0)
  }

  predicate OwnName(f: string, name: string) {
    Fold(name) == f && !MustFilter(Upper(name)) && name != ""
  }

  lemma PathProper()
    ensures OwnName("path", "Path")
  {
    OwnNameProper("path", "Path", "PATH");
  }

  lemma TempProper()
    ensures OwnName("temp", "TEMP")
  {
    OwnNameProper("temp", "TEMP", "TEMP");
  }

  lemma TmpProper()
    ensures OwnName("tmp", "TMP")
  {
    OwnNameProper("tmp", "TMP", "TMP");
  }

  lemma HomeProper()
    ensures OwnName("home", "HOME")
  {
    OwnNameProper("home", "HOME", "HOME");
  }

  lemma TmpDirProper()
    ensures OwnName("tmpdir", "TMPDIR")
  {
    OwnNameProper("tmpdir", "TMPDIR", "TMPDIR");
  }

  lemma AppDataProper()
    ensures OwnName("appdata", "APPDATA")
  {
    OwnNameProper("appdata", "APPDATA", "APPDATA");
  }

  lemma LocalAppDataProper()
    ensures OwnName("localappdata", "LOCALAPPDATA")
  {
    OwnNameProper("localappdata", "LOCALAPPDATA", "LOCALAPPDATA");
  }

  lemma UserProfileProper()
    ensures OwnName("userprofile", "USERPROFILE")
  {
    OwnNameProper("userprofile", "USERPROFILE", "USERPROFILE");
  }

  /** The names that the builder itself writes are proper. */
  lemma OwnNamesProper(r: Redirects)
    ensures OwnName("path", "Path") && "path" !in RedirectMap(r)
    ensures forall f :: f in RedirectMap(r) ==> OwnName(f, RedirectMap(r)[f].0)
  {
    PathProper();
    TempProper();
    TmpProper();
    HomeProper();
    TmpDirProper();
    AppDataProper();
    LocalAppDataProper();
    UserProfileProper();
    assert "path"[0] == 'p' && "temp"[0] == "tmp"[0] == "tmpdir"[0] == 't' && "appdata"[0] == 'a';
    assert "localappdata"[0] == 'l' && "home"[0] == 'h' && "userprofile"[0] == 'u';
  }

  lemma OwnNameProper(f: string, name: string, upper: string)
    requires |f| == |name| == |upper| > 0 && Harmless(upper)
    requires forall i :: 0 <= i < |name| ==> FoldChar(name[i]) == f[i] && UpperChar(name[i]) == upper[i]
    ensures OwnName(f, name)
  {
    assert Fold(name) == f && Upper(name) == upper;
    if MustFilter(upper) { FilteredIsNotHarmless(upper); }
  }

  /** The entry is a redirect, the path with the value of one of the parent's paths, or a kept entry of the
      parent. */
  ghost predicate Sourced(f: string, e: Entry, parent: seq<Entry>, r: Redirects) {
    || (f in RedirectMap(r) && e == RedirectMap(r)[f])
    || (f == "path" && e.0 == "Path" && exists d :: d in parent && IsPath(d) && d.1 == e.1)
    || (e in parent && IsKept(e))
  }

  lemma PathIsSourced(parent: seq<Entry>, r: Redirects, s: State)
    requires s.paths == Filter(parent, IsPath) && s.paths != []
    ensures Sourced("path", ("Path", PreferredPath(s.paths)), parent, r)
    ensures exists e :: e in parent && IsPath(e)
  {
    var d := PreferredIsAPath(parent);
  }

  /** Every entry of the result is stored once, under its folded name; no name is one that must be filtered;
      nothing is invented; every redirect is in force, every kept name of the parent is there, and a path is
      there exactly when the parent has one. */
  lemma CanonicalIsProper(parent: seq<Entry>, r: Redirects)
    requires Canonical(parent, r, true).Ok?
    ensures var env := Canonical(parent, r, true).value.byFoldedName;
            && (forall f :: f in env ==> Proper(f, env[f]))
            && (forall f :: f in env ==> Sourced(f, env[f], parent, r))
            && ("path" in env <==> exists e :: e in parent && IsPath(e))
            && (forall f :: f in RedirectMap(r) ==> f in env && env[f] == RedirectMap(r)[f])
            && (forall e :: e in parent && IsKept(e) && Fold(e.0) !in RedirectMap(r) ==>
                  Fold(e.0) in env && env[Fold(e.0)].1 == e.1)
  {
    ScanMeaning(parent);
    OwnNamesProper(r);
    FilterIn(parent, IsPath);
    var s := Scan(parent).value;
    if s.paths != [] { PathIsSourced(parent, r, s); }
  }

  // ----- What is counted as a duplicate -----

  predicate Counted(e: Entry) { IsKept(e) || IsPath(e) }

  /** The folded names of the parent's kept entries and paths. */
  ghost function CountedNames(parent: seq<Entry>): set<string> {
    set e | e in parent && Counted(e) :: Fold(e.0)
  }

  lemma {:induction false} FilterEither(s: seq<Entry>)
    ensures |Filter(s, Counted)| == |Filter(s, IsKept)| + |Filter(s, IsPath)|
  {
    if s != [] { FilterEither(s[..|s| - 1]); }
  }

  /** Every kept entry is normalised or counted as a duplicate. */
  lemma {:induction false} KeptAreCounted(parent: seq<Entry>)
    requires Scan(parent).Ok?
    ensures |Filter(parent, IsKept)| == |Scan(parent).value.normalized| + Scan(parent).value.duplicates
  {
    if parent != [] {
      var before, e := parent[..|parent| - 1], parent[|parent| - 1];
      KeptAreCounted(before);
      var s := Scan(before).value;
      if IsKept(e) && Fold(e.0) !in s.normalized { SizeAfterAdding(s.normalized, Fold(e.0), e); }
    }
  }

  lemma SizeAfterAdding(m: map<string, Entry>, f: string, e: Entry)
    requires f !in m
    ensures |m[f := e]| == |m| + 1
  {
    assert m[f := e].Keys == m.Keys + {f};
    assert |m[f := e]| == |m[f := e].Keys| && |m| == |m.Keys|;
  }

  lemma NormalizedNames(parent: seq<Entry>, s: State)
    requires Normalizes(s.normalized, parent) && s.paths == Filter(parent, IsPath)
    ensures WithPath(s).Keys == CountedNames(parent)
  {
    FilterIn(parent, IsPath);
    var names, keys := CountedNames(parent), WithPath(s).Keys;
    forall f | f in keys ensures f in names {
      if f in s.normalized {
        assert s.normalized[f] in parent;
      } else {
        assert s.paths[0] in parent && IsPath(s.paths[0]);
      }
    }
    forall e | e in parent && Counted(e) ensures Fold(e.0) in keys {
      if IsPath(e) { assert e in s.paths; }
    }
  }

  /** The kept entries and paths of the parent are its distinct folded names and the duplicates. */
  lemma DuplicatesAreTheRest(parent: seq<Entry>, r: Redirects)
    requires Canonical(parent, r, true).Ok?
    ensures |Filter(parent, Counted)| == |CountedNames(parent)| + Canonical(parent, r, true).value.duplicates
  {
    var s := Scan(parent).value;
    ScanMeaning(parent);
    FilterEither(parent);
    KeptAreCounted(parent);
    NormalizedNames(parent, s);
    assert "path" !in s.normalized;
    if s.paths != [] { SizeAfterAdding(s.normalized, "path", ("Path", PreferredPath(s.paths))); }
    assert |WithPath(s)| == |WithPath(s).Keys|;
  }

  ghost predicate InForce(env: map<string, Entry>, f: string, e: Entry) {
    f in env && env[f] == e
  }

  lemma TempRedirect(r: Redirects)
    ensures InForce(RedirectMap(r), "temp", ("TEMP", r.temp))
  {}

  lemma TmpRedirect(r: Redirects)
    ensures InForce(RedirectMap(r), "tmp", ("TMP", r.temp))
  {}

  lemma TmpdirRedirect(r: Redirects)
    ensures InForce(RedirectMap(r), "tmpdir", ("TMPDIR", r.temp))
  {}

  lemma AppdataRedirect(r: Redirects)
    ensures InForce(RedirectMap(r), "appdata", ("APPDATA", r.appData))
  {}

  lemma LocalappdataRedirect(r: Redirects)
    ensures InForce(RedirectMap(r), "localappdata", ("LOCALAPPDATA", r.localAppData))
  {}

  lemma HomeRedirect(r: Redirects)
    ensures InForce(RedirectMap(r), "home", ("HOME", r.userProfile))
  {}

  lemma UserprofileRedirect(r: Redirects)
    ensures InForce(RedirectMap(r), "userprofile", ("USERPROFILE", r.userProfile))
  {}

  lemma OverrideInForce(a: map<string, Entry>, over: map<string, Entry>, f: string, e: Entry)
    requires InForce(over, f, e)
    ensures InForce(a + over, f, e)
  {}

  /** The seven redirected names, whatever the parent holds under them. */
  lemma RedirectsInForce(parent: seq<Entry>, r: Redirects)
    requires Canonical(parent, r, true).Ok?
    ensures var env := Canonical(parent, r, true).value.byFoldedName;
            && InForce(env, "temp", ("TEMP", r.temp)) && InForce(env, "tmp", ("TMP", r.temp))
            && InForce(env, "tmpdir", ("TMPDIR", r.temp)) && InForce(env, "appdata", ("APPDATA", r.appData))
            && InForce(env, "localappdata", ("LOCALAPPDATA", r.localAppData))
            && InForce(env, "home", ("HOME", r.userProfile))
            && InForce(env, "userprofile", ("USERPROFILE", r.userProfile))
  {
    AllRedirected(WithPath(Scan(parent).value), r, RedirectMap(r));
  }

  lemma AllRedirected(a: map<string, Entry>, r: Redirects, over: map<string, Entry>)
    requires over == RedirectMap(r)
    ensures InForce(a + over, "temp", ("TEMP", r.temp)) && InForce(a + over, "tmp", ("TMP", r.temp))
    ensures InForce(a + over, "tmpdir", ("TMPDIR", r.temp)) && InForce(a + over, "appdata", ("APPDATA", r.appData))
    ensures InForce(a + over, "localappdata", ("LOCALAPPDATA", r.localAppData))
    ensures InForce(a + over, "home", ("HOME", r.userProfile))
    ensures InForce(a + over, "userprofile", ("USERPROFILE", r.userProfile))
  {
    TempRedirect(r);
    OverrideInForce(a, over, "temp", ("TEMP", r.temp));
    TmpRedirect(r);
    OverrideInForce(a, over, "tmp", ("TMP", r.temp));
    TmpdirRedirect(r);
    OverrideInForce(a, over, "tmpdir", ("TMPDIR", r.temp));
    AppdataRedirect(r);
    OverrideInForce(a, over, "appdata", ("APPDATA", r.appData));
    LocalappdataRedirect(r);
    OverrideInForce(a, over, "localappdata", ("LOCALAPPDATA", r.localAppData));
    HomeRedirect(r);
    OverrideInForce(a, over, "home", ("HOME", r.userProfile));
    UserprofileRedirect(r);
    OverrideInForce(a, over, "userprofile", ("USERPROFILE", r.userProfile));
  }

  /** Which path value is kept: that of the first entry spelled `Path`, else that of the first spelling. */
  lemma PathMeaning(parent: seq<Entry>, r: Redirects, k: nat)
    requires Canonical(parent, r, true).Ok? && k < |parent| && IsPath(parent[k])
    requires if exists e :: e in parent && e.0 == "Path"
             then parent[k].0 == "Path" && forall j :: 0 <= j < k ==> parent[j].0 != "Path"
             else forall j :: 0 <= j < k ==> !IsPath(parent[j])
    ensures var env := Canonical(parent, r, true).value.byFoldedName;
            "path" in env && env["path"] == ("Path", parent[k].1)
  {
    ScanMeaning(parent);
    OwnNamesProper(r);
    PathProper();
    PreferredIs(parent, k);
    FilterIn(parent, IsPath);
    assert parent[k] in parent;
  }

  lemma PreferredIs(parent: seq<Entry>, k: nat)
    requires k < |parent| && IsPath(parent[k])
    requires if exists e :: e in parent && e.0 == "Path"
             then parent[k].0 == "Path" && forall j :: 0 <= j < k ==> parent[j].0 != "Path"
             else forall j :: 0 <= j < k ==> !IsPath(parent[j])
    ensures Filter(parent, IsPath) != [] && PreferredPath(Filter(parent, IsPath)) == parent[k].1
  {
    var paths := Filter(parent, IsPath);
    var before := Filter(parent[..k], IsPath);
    FilterSplit(parent, k);
    assert paths[|before|] == parent[k];
    FilterIn(parent[..k], IsPath);
    forall j | 0 <= j < |before| ensures before[j] in parent[..k] && IsPath(before[j]) {
      assert before[j] in before;
    }
    if exists e :: e in parent && e.0 == "Path" {
      forall j | 0 <= j < |before| ensures paths[j].0 != "Path" {
        assert paths[j] == before[j];
      }
    } else {
      FilterNone(parent[..k], IsPath);
      FilterIn(parent, IsPath);
      forall j | 0 <= j < |paths| ensures paths[j].0 != "Path" {
        assert paths[j] in parent;
      }
    }
  }

  lemma {:induction false} FilterSplit(s: seq<Entry>, k: nat)
    requires k < |s| && IsPath(s[k])
    ensures Filter(s[..k], IsPath) + [s[k]] <= Filter(s, IsPath)
  {
    if k < |s| - 1 {
      FilterSplit(s[..|s| - 1], k);
      assert s[..|s| - 1][..k] == s[..k];
    }
  }

  /** Why a parent is refused: at the first name that is empty, or that repeats a kept one with another value. */
  lemma {:induction false} ScanErrorMeaning(parent: seq<Entry>) returns (k: nat)
    requires Scan(parent).Err?
    ensures k < |parent| && Clean(parent[..k])
    ensures Scan(parent).error == EntryInvalid <==> parent[k].0 == ""
    ensures Scan(parent).error == ConflictingDuplicate <==>
      && parent[k].0 != "" && IsKept(parent[k])
      && exists e :: e in parent[..k] && IsKept(e) && Fold(e.0) == Fold(parent[k].0) && e.1 != parent[k].1
  {
    var before, last := parent[..|parent| - 1], parent[|parent| - 1];
    ScanMeaning(before);
    if Scan(before).Err? {
      k := ScanErrorMeaning(before);
      assert before[..k] == parent[..k];
    } else {
      k := |before|;
      var n := Scan(before).value.normalized;
      if last.0 != "" { assert IsKept(last) && Fold(last.0) in n && n[Fold(last.0)].1 != last.1; }
    }
  }

  lemma RefusalMeaning(parent: seq<Entry>, r: Redirects, runtimeInside: bool)
    ensures var c := Canonical(parent, r, runtimeInside);
            && (c == Err(RuntimeRootOutsideRepository) <==> !runtimeInside)
            && (c.Ok? <==> runtimeInside && Clean(parent))
            && (runtimeInside && c.Err? ==> Scan(parent) == Err(c.error))
  {
    ScanMeaning(parent);
    if Scan(parent).Err? { var k := ScanErrorMeaning(parent); }
  }

  // ----- Idempotence -----

  /** The items of the clone of an environment, in any order. */
  ghost predicate IsClone(items: seq<Entry>, env: map<string, Entry>) {
    && (forall i, j :: 0 <= i < j < |items| ==> items[i] != items[j])
    && (forall e :: e in items <==> Fold(e.0) in env && env[Fold(e.0)] == e)
  }

  /** A scan of entries with different folded names, none of them filtered, finds no duplicates. */
  lemma {:induction false} DistinctScan(items: seq<Entry>)
    requires forall i :: 0 <= i < |items| ==> Proper(Fold(items[i].0), items[i])
    requires forall i, j :: 0 <= i < j < |items| ==> Fold(items[i].0) != Fold(items[j].0)
    ensures Scan(items).Ok? && Scan(items).value.duplicates == 0
    ensures forall f :: f in Scan(items).value.normalized ==> exists i :: 0 <= i < |items| && Fold(items[i].0) == f
  {
    if items != [] {
      var before, e := items[..|items| - 1], items[|items| - 1];
      DistinctScan(before);
      assert Fold(e.0) !in Scan(before).value.normalized;
      forall f | f in Scan(items).value.normalized ensures exists i :: 0 <= i < |items| && Fold(items[i].0) == f {
        if f in Scan(before).value.normalized {
          var i :| 0 <= i < |before| && Fold(before[i].0) == f;
          assert Fold(items[i].0) == f;
        } else {
          assert Fold(items[|items| - 1].0) == f;
        }
      }
    }
  }

  lemma CloneIsDistinct(items: seq<Entry>, env: map<string, Entry>)
    requires IsClone(items, env) && forall f :: f in env ==> Proper(f, env[f])
    ensures forall i :: 0 <= i < |items| ==> Proper(Fold(items[i].0), items[i])
    ensures forall i, j :: 0 <= i < j < |items| ==> Fold(items[i].0) != Fold(items[j].0)
  {
    forall i | 0 <= i < |items| ensures Fold(items[i].0) in env && env[Fold(items[i].0)] == items[i] {
      assert items[i] in items;
    }
  }

  lemma {:induction false} FilterIn(s: seq<Entry>, p: Entry -> bool)
    ensures forall e :: e in Filter(s, p) <==> e in s && p(e)
  {
    if s != [] {
      FilterIn(s[..|s| - 1], p);
      assert s == s[..|s| - 1] + [s[|s| - 1]];
    }
  }

  lemma {:induction false} FilterNone(s: seq<Entry>, p: Entry -> bool)
    requires forall i :: 0 <= i < |s| ==> !p(s[i])
    ensures Filter(s, p) == []
  {
    if s != [] { FilterNone(s[..|s| - 1], p); }
  }

  lemma {:induction false} AtMostOnePath(items: seq<Entry>)
    requires forall i, j :: 0 <= i < j < |items| ==> Fold(items[i].0) != Fold(items[j].0)
    ensures |Filter(items, IsPath)| <= 1
  {
    if items != [] {
      var before, e := items[..|items| - 1], items[|items| - 1];
      AtMostOnePath(before);
      if IsPath(e) { FilterNone(before, IsPath); }
    }
  }

  /** The path entry of a result is spelled `Path`. */
  lemma PathIsOurs(parent: seq<Entry>, r: Redirects)
    requires Canonical(parent, r, true).Ok?
    ensures var env := Canonical(parent, r, true).value.byFoldedName; "path" in env ==> env["path"].0 == "Path"
  {
    ScanMeaning(parent);
    OwnNamesProper(r);
  }

  /** Canonicalising a clone of the result, in any order, gives the same entries and no duplicates. */
  lemma CanonicalIsIdempotent(parent: seq<Entry>, r: Redirects, items: seq<Entry>)
    requires Canonical(parent, r, true).Ok? && IsClone(items, Canonical(parent, r, true).value.byFoldedName)
    ensures Canonical(items, r, true) == Ok(Environment(Canonical(parent, r, true).value.byFoldedName, 0))
  {
    var env := Canonical(parent, r, true).value.byFoldedName;
    CanonicalIsProper(parent, r);
    PathIsOurs(parent, r);
    CloneIsDistinct(items, env);
    DistinctScan(items);
    AtMostOnePath(items);
    ScanMeaning(items);
    FilterIn(items, IsPath);
    SameMap(items, env, Scan(items).value, r);
  }

  lemma SameMap(items: seq<Entry>, env: map<string, Entry>, s: State, r: Redirects)
    requires IsClone(items, env) && forall f :: f in env ==> Proper(f, env[f])
    requires Normalizes(s.normalized, items)
    requires |s.paths| <= 1 && forall e :: e in s.paths <==> e in items && IsPath(e)
    requires "path" in env ==> env["path"].0 == "Path"
    requires forall f :: f in RedirectMap(r) ==> f in env && env[f] == RedirectMap(r)[f]
    ensures WithPath(s) + RedirectMap(r) == env
  {
    forall f | f !in RedirectMap(r) ensures SameAt(env, WithPath(s), f) {
      if f == "path" {
        SamePath(items, env, s);
      } else {
        SameName(items, env, s, f);
      }
    }
    SameEverywhere(env, WithPath(s), RedirectMap(r));
  }

  ghost predicate SameAt(a: map<string, Entry>, b: map<string, Entry>, f: string) {
    (f in a <==> f in b) && (f in a ==> a[f] == b[f])
  }

  lemma SameEverywhere(env: map<string, Entry>, a: map<string, Entry>, over: map<string, Entry>)
    requires forall f :: f in over ==> f in env && env[f] == over[f]
    requires forall f :: f !in over ==> SameAt(env, a, f)
    ensures a + over == env
  {
    forall f ensures SameAt(env, a + over, f) {
      if f !in over { assert SameAt(env, a, f); }
    }
  }

  lemma SameName(items: seq<Entry>, env: map<string, Entry>, s: State, f: string)
    requires IsClone(items, env) && Normalizes(s.normalized, items) && f != "path"
    requires f in env ==> Proper(f, env[f])
    ensures f in env <==> f in s.normalized
    ensures f in env ==> env[f] == s.normalized[f]
  {
    if f in env {
      assert env[f] in items && IsKept(env[f]);
    }
    if f in s.normalized {
      assert s.normalized[f] in items;
    }
  }

  lemma SamePath(items: seq<Entry>, env: map<string, Entry>, s: State)
    requires IsClone(items, env) && |s.paths| <= 1 && (forall e :: e in s.paths <==> e in items && IsPath(e))
    requires "path" in env ==> env["path"].0 == "Path" && Fold(env["path"].0) == "path"
    requires "path" !in s.normalized
    ensures "path" in env <==> "path" in WithPath(s)
    ensures "path" in env ==> WithPath(s)["path"] == env["path"]
  {
    if "path" in env {
      assert env["path"] in items && IsPath(env["path"]);
      assert env["path"] in s.paths;
      assert s.paths == [env["path"]];
    }
    if s.paths != [] {
      assert s.paths[0] in items;
    }
  }

  // ----- Parent order -----

  /** A mapping has each name once. */
  ghost predicate DistinctNames(p: seq<Entry>) {
    forall e, d :: e in p && d in p && e.0 == d.0 ==> e == d
  }

  /** The spelling `Path` is there, or all spellings agree. */
  ghost predicate PathUnambiguous(p: seq<Entry>) {
    || (exists e :: e in p && e.0 == "Path")
    || (forall e, d :: e in p && d in p && IsPath(e) && IsPath(d) ==> e.1 == d.1)
  }

  ghost function Values(env: map<string, Entry>): map<string, string> {
    map f | f in env :: env[f].1
  }

  /** The preferred value is that of an entry of the mapping, and of `Path` if that is spelled so. */
  lemma PreferredIsAPath(p: seq<Entry>) returns (e: Entry)
    requires Filter(p, IsPath) != []
    ensures e in p && IsPath(e) && PreferredPath(Filter(p, IsPath)) == e.1
    ensures (exists d :: d in p && d.0 == "Path") ==> e.0 == "Path"
  {
    var paths := Filter(p, IsPath);
    FilterIn(p, IsPath);
    PathProper();
    if d :| d in p && d.0 == "Path" {
      assert d in paths;
      var i := FirstSpelledPath(paths);
      e := paths[i];
    } else {
      e := paths[0];
      assert forall i :: 0 <= i < |paths| ==> paths[i] in p;
    }
  }

  lemma {:induction false} FirstSpelledPath(paths: seq<Entry>) returns (i: nat)
    requires exists d :: d in paths && d.0 == "Path"
    ensures i < |paths| && paths[i].0 == "Path" && forall j :: 0 <= j < i ==> paths[j].0 != "Path"
    decreases |paths|
  {
    if paths[0].0 == "Path" {
      i := 0;
    } else {
      var d :| d in paths && d.0 == "Path";
      assert d in paths[1..];
      i := FirstSpelledPath(paths[1..]);
      i := i + 1;
    }
  }

  ghost predicate SameItems(p: seq<Entry>, q: seq<Entry>) {
    forall e :: e in p <==> e in q
  }

  lemma PermutationSameItems(p: seq<Entry>, q: seq<Entry>)
    requires multiset(p) == multiset(q)
    ensures SameItems(p, q)
  {
    forall e ensures e in p <==> e in q {
      assert e in p <==> e in multiset(p);
      assert e in q <==> e in multiset(q);
    }
  }

  lemma SamePreferred(p: seq<Entry>, q: seq<Entry>)
    requires SameItems(p, q) && DistinctNames(p) && PathUnambiguous(p)
    ensures Filter(p, IsPath) == [] <==> Filter(q, IsPath) == []
    ensures Filter(p, IsPath) != [] && Filter(q, IsPath) != [] ==>
      PreferredPath(Filter(p, IsPath)) == PreferredPath(Filter(q, IsPath))
  {
    FilterIn(p, IsPath);
    FilterIn(q, IsPath);
    if Filter(p, IsPath) != [] { assert Filter(p, IsPath)[0] in Filter(q, IsPath); }
    if Filter(q, IsPath) != [] { assert Filter(q, IsPath)[0] in Filter(p, IsPath); }
    if Filter(p, IsPath) != [] && Filter(q, IsPath) != [] {
      var e := PreferredIsAPath(p);
      var d := PreferredIsAPath(q);
    }
  }

  lemma SameNormalized(p: seq<Entry>, q: seq<Entry>, m: map<string, Entry>, n: map<string, Entry>, f: string)
    requires SameItems(p, q) && Normalizes(m, p) && Normalizes(n, q)
    ensures f in m <==> f in n
    ensures f in m ==> m[f].1 == n[f].1
  {
    if f in m { assert m[f] in q; }
    if f in n { assert n[f] in p; }
  }

  /** Whether the builder succeeds, and which value each folded name gets, does not depend on the order of
      the parent when its path is unambiguous. */
  lemma OrderDoesNotMatter(p: seq<Entry>, q: seq<Entry>, r: Redirects)
    requires multiset(p) == multiset(q) && DistinctNames(p)
    ensures Canonical(p, r, true).Ok? <==> Canonical(q, r, true).Ok?
    ensures Canonical(p, r, true).Ok? && PathUnambiguous(p) ==>
      Values(Canonical(p, r, true).value.byFoldedName) == Values(Canonical(q, r, true).value.byFoldedName)
  {
    PermutationSameItems(p, q);
    ScanMeaning(p);
    ScanMeaning(q);
    assert Clean(p) <==> Clean(q);
    if Clean(p) && PathUnambiguous(p) {
      SamePreferred(p, q);
      SameValues(p, q, Scan(p).value, Scan(q).value, r);
    }
  }

  lemma SameValues(p: seq<Entry>, q: seq<Entry>, s: State, t: State, r: Redirects)
    requires SameItems(p, q) && Normalizes(s.normalized, p) && Normalizes(t.normalized, q)
    requires s.paths == [] <==> t.paths == []
    requires s.paths != [] && t.paths != [] ==> PreferredPath(s.paths) == PreferredPath(t.paths)
    ensures Values(WithPath(s) + RedirectMap(r)) == Values(WithPath(t) + RedirectMap(r))
  {
    var a, b := WithPath(s), WithPath(t);
    forall f ensures f in a <==> f in b
             ensures f in a ==> a[f].1 == b[f].1
    {
      SameNormalized(p, q, s.normalized, t.normalized, f);
    }
    SameUnder(a, b, RedirectMap(r));
  }

  lemma SameUnder(a: map<string, Entry>, b: map<string, Entry>, over: map<string, Entry>)
    requires forall f :: f in a <==> f in b
    requires forall f :: f in a ==> a[f].1 == b[f].1
    ensures Values(a + over) == Values(b + over)
  {}

  /** With an ambiguous path some other order of the same parent gives the path another value. */
  lemma OrderMattersOtherwise(p: seq<Entry>, r: Redirects) returns (q: seq<Entry>)
    requires DistinctNames(p) && Canonical(p, r, true).Ok? && !PathUnambiguous(p)
    ensures multiset(q) == multiset(p) && Canonical(q, r, true).Ok?
    ensures var a, b := Canonical(p, r, true).value.byFoldedName, Canonical(q, r, true).value.byFoldedName;
            "path" in a && "path" in b && a["path"].1 != b["path"].1
  {
    q := OtherPathFirst(p);
    PermutationSameItems(p, q);
    OrderDoesNotMatter(p, q, r);
    PathIsFirst(p, r);
    PathIsFirst(q, r);
  }

  /** The same items with another path value in front. */
  lemma OtherPathFirst(p: seq<Entry>) returns (q: seq<Entry>)
    requires exists e, d :: e in p && d in p && IsPath(e) && IsPath(d) && e.1 != d.1
    ensures multiset(q) == multiset(p) && Filter(p, IsPath) != [] && Filter(q, IsPath) != []
    ensures Filter(p, IsPath)[0].1 != Filter(q, IsPath)[0].1
  {
    FilterIn(p, IsPath);
    var e, d :| e in p && d in p && IsPath(e) && IsPath(d) && e.1 != d.1;
    assert e in Filter(p, IsPath);
    var other := if Filter(p, IsPath)[0].1 != e.1 then e else d;
    var k :| 0 <= k < |p| && p[k] == other;
    q := [p[k]] + (p[..k] + p[k + 1..]);
    MovedToFront(p, k);
    FirstStays(other, p[..k] + p[k + 1..], IsPath);
  }

  lemma MovedToFront(p: seq<Entry>, k: nat)
    requires k < |p|
    ensures multiset([p[k]] + (p[..k] + p[k + 1..])) == multiset(p)
  {
    assert p == p[..k] + [p[k]] + p[k + 1..];
  }

  /** Without the spelling `Path` the path value is that of the first spelling. */
  lemma PathIsFirst(p: seq<Entry>, r: Redirects)
    requires Canonical(p, r, true).Ok? && Filter(p, IsPath) != [] && !exists e :: e in p && e.0 == "Path"
    ensures var env := Canonical(p, r, true).value.byFoldedName;
            "path" in env && env["path"].1 == Filter(p, IsPath)[0].1
  {
    ScanMeaning(p);
    OwnNamesProper(r);
    FilterIn(p, IsPath);
    FirstPreferred(Filter(p, IsPath), p);
  }

  lemma FirstPreferred(paths: seq<Entry>, p: seq<Entry>)
    requires paths != [] && (forall e :: e in paths ==> e in p) && !exists e :: e in p && e.0 == "Path"
    ensures PreferredPath(paths) == paths[0].1
  {
    forall i | 0 <= i < |paths| ensures paths[i].0 != "Path" {
      assert paths[i] in p;
    }
  }

  lemma {:induction false} FirstStays(e: Entry, rest: seq<Entry>, p: Entry -> bool)
    requires p(e)
    ensures Filter([e] + rest, p) != [] && Filter([e] + rest, p)[0] == e
  {
    if rest == [] {
      assert [e] + rest == [e] && Filter([e][..0], p) == [];
    } else {
      assert ([e] + rest)[..|rest|] == [e] + rest[..|rest| - 1];
      FirstStays(e, rest[..|rest| - 1], p);
    }
  }
}
