/** The change-compressing log of registry observations and the verdict drawn from it.

    The raw log is every observation made. The tracker object keeps only the observations that differ
    from the one before; this module says what the compressed form stands for. */
module TimelineLog {
  import opened Wrappers
  import opened TimelineCoordinator

  /** The non-sensitive result of one query of the fixed value. */
  datatype Observation = Observation(
    state: ValueState,
    present: bool,
    owned: bool,
    typeValid: bool,
    length: nat,
    sha256: Option<string>,
    queryError: bool)

  const REGISTRY_STRING_VALUE_TYPE := 1

  function AbsentObservation(): Observation {
    Observation(Absent, false, false, false, 0, None, false)
  }

  function ReadErrorObservation(): Observation {
    Observation(ReadError, false, false, false, 0, None, true)
  }

  /** `text` is `None` for a value that is not a string; `digest` is its SHA-256. */
  function FromStoredValue(text: Option<string>, valueType: int, expected: string, digest: string): Observation {
    var typeValid := valueType == REGISTRY_STRING_VALUE_TYPE;
    if text.None? then Observation(Occupied, true, false, typeValid, 0, None, false)
    else
      var owned := typeValid && text.value == expected;
      Observation(if owned then Owned else Occupied, true, owned, typeValid, |text.value|, Some(digest), false)
  }

  predicate FactoryBuilt(o: Observation) {
    && (o.queryError <==> o.state == ReadError)
    && (o.present <==> o.state in {Owned, Occupied})
    && (o.owned <==> o.state == Owned)
  }

  /** An observation that one of the three factories made. */
  type Reading = o: Observation | FactoryBuilt(o) witness AbsentObservation()

  lemma FactoriesBuildReadings(text: Option<string>, valueType: int, expected: string, digest: string)
    ensures FactoryBuilt(AbsentObservation()) && FactoryBuilt(ReadErrorObservation())
    ensures FactoryBuilt(FromStoredValue(text, valueType, expected, digest))
    ensures FromStoredValue(text, valueType, expected, digest).state == Owned
       <==> text == Some(expected) && valueType == 1
    ensures var o := FromStoredValue(text, valueType, expected, digest);
            && o.state in {Owned, Occupied} && o.present && (o.typeValid <==> valueType == 1) && !o.queryError
            && (text.None? ==> o.length == 0 && o.sha256 == None)
            && (text.Some? ==> o.length == |text.value| && o.sha256 == Some(digest))
    ensures AbsentObservation().state == Absent && ReadErrorObservation().state == ReadError
  {}

  /** One observation with the phase it was made in; two entries are equal exactly when phase and
      signature are. */
  datatype Entry = Entry(phase: Phase, running: bool, obs: Observation)

  datatype Transition =
    | Initial(state: ValueState)
    | ProcessExited
    | ProcessStarted
    | ValueChanged(from: ValueState, to: ValueState)
    | PhaseSnapshot
    | MetadataChanged

  datatype Record = Record(
    sequence: nat,
    phase: Phase,
    running: bool,
    present: bool,
    owned: bool,
    typeValid: bool,
    length: nat,
    sha256: Option<string>,
    queryError: bool,
    transition: Transition)

  // ----- What the compressed log stands for -----

  /** The log with consecutive repeats removed. */
  function Compress(log: seq<Entry>): seq<Entry> {
    if log == [] then []
    else
      var before, last := log[..|log| - 1], log[|log| - 1];
      if before != [] && before[|before| - 1] == last then Compress(before) else Compress(before) + [last]
  }

  function TransitionAt(entries: seq<Entry>, i: nat): Transition
    requires i < |entries|
  {
    var e := entries[i];
    if i == 0 then Initial(e.obs.state)
    else
      var p := entries[i - 1];
      if p.running && !e.running then ProcessExited
      else if !p.running && e.running then ProcessStarted
      else if p.obs.state != e.obs.state then ValueChanged(p.obs.state, e.obs.state)
      else if p.phase != e.phase then PhaseSnapshot
      else MetadataChanged
  }

  function RecordAt(entries: seq<Entry>, i: nat): Record
    requires i < |entries|
  {
    var e := entries[i];
    Record(i + 1, e.phase, e.running, e.obs.present, e.obs.owned, e.obs.typeValid, e.obs.length, e.obs.sha256,
           e.obs.queryError, TransitionAt(entries, i))
  }

  function Render(entries: seq<Entry>): seq<Record> {
    seq(|entries|, i requires 0 <= i < |entries| => RecordAt(entries, i))
  }

  /** The state of the last observation in each phase. */
  function PhaseStates(log: seq<Entry>): map<Phase, ValueState> {
    if log == [] then map[]
    else PhaseStates(log[..|log| - 1])[log[|log| - 1].phase := log[|log| - 1].obs.state]
  }

  /** The length of the shortest non-empty prefix satisfying `p`: the sequence number of an event. */
  function First(entries: seq<Entry>, p: seq<Entry> -> bool): Option<nat> {
    if entries == [] then None
    else
      var before := First(entries[..|entries| - 1], p);
      if before.Some? then before else if p(entries) then Some(|entries|) else None
  }

  predicate EndsPresent(entries: seq<Entry>) {
    entries != [] && entries[|entries| - 1].obs.present
  }

  predicate EndsOwned(entries: seq<Entry>) {
    entries != [] && entries[|entries| - 1].obs.owned
  }

  predicate EndsAbsentAfterOwned(entries: seq<Entry>) {
    entries != [] && !entries[|entries| - 1].obs.present && First(entries, EndsOwned).Some?
  }

  predicate EndsWithExit(entries: seq<Entry>) {
    |entries| > 1 && entries[|entries| - 2].running && !entries[|entries| - 1].running
  }

  lemma {:induction false} FirstIsLeast(entries: seq<Entry>, p: seq<Entry> -> bool)
    ensures match First(entries, p)
            case Some(k) => 1 <= k <= |entries| && p(entries[..k]) && forall j :: 1 <= j < k ==> !p(entries[..j])
            case None => forall j :: 1 <= j <= |entries| ==> !p(entries[..j])
  {
    if entries != [] {
      var before := entries[..|entries| - 1];
      FirstIsLeast(before, p);
      assert entries[..|entries|] == entries;
      forall j | 0 <= j <= |before| ensures entries[..j] == before[..j] {}
    }
  }

  /** Which change each record is named after; the first that applies. */
  lemma TransitionMeaning(entries: seq<Entry>, i: nat)
    requires i < |entries|
    ensures var t, e := RecordAt(entries, i).transition, entries[i];
            && (t.Initial? <==> i == 0) && (i == 0 ==> t == Initial(e.obs.state))
            && (i > 0 ==>
                  var p := entries[i - 1];
                  var value := p.obs.state != e.obs.state;
                  && (t == ProcessExited <==> p.running && !e.running)
                  && (t == ProcessStarted <==> !p.running && e.running)
                  && (t == ValueChanged(p.obs.state, e.obs.state) <==> p.running == e.running && value)
                  && (t == PhaseSnapshot <==> p.running == e.running && !value && p.phase != e.phase)
                  && (t == MetadataChanged <==> p.running == e.running && !value && p.phase == e.phase))
    ensures var r, e := RecordAt(entries, i), entries[i];
            r == Record(i + 1, e.phase, e.running, e.obs.present, e.obs.owned, e.obs.typeValid, e.obs.length,
                        e.obs.sha256, e.obs.queryError, r.transition)
  {}

  // ----- The running summary -----

  /** What the tracker remembers, advanced one observation at a time. */
  datatype Summary = Summary(
    entries: seq<Entry>,
    firstPresent: Option<nat>,
    firstOwned: Option<nat>,
    firstAbsentAfterOwned: Option<nat>,
    processExit: Option<nat>,
    phaseStates: map<Phase, ValueState>)

  function Earliest(first: Option<nat>, now: bool, sequence: nat): Option<nat> {
    if first.Some? then first else if now then Some(sequence) else None
  }

  function Advance(s: Summary, e: Entry): Summary {
    if s.entries != [] && s.entries[|s.entries| - 1] == e then s
    else
      var n := |s.entries| + 1;
      var firstOwned := Earliest(s.firstOwned, e.obs.owned, n);
      Summary(
        s.entries + [e],
        Earliest(s.firstPresent, e.obs.present, n),
        firstOwned,
        Earliest(s.firstAbsentAfterOwned, firstOwned.Some? && !e.obs.present, n),
        Earliest(s.processExit, s.entries != [] && s.entries[|s.entries| - 1].running && !e.running, n),
        s.phaseStates[e.phase := e.obs.state])
  }

  /** The removal, if any, has a record. */
  predicate InRange(s: Summary) {
    s.firstAbsentAfterOwned.Some? ==> 1 <= s.firstAbsentAfterOwned.value <= |s.entries|
  }

  function Summarized(log: seq<Entry>): (s: Summary)
    ensures InRange(s)
  {
    if log == [] then Summary([], None, None, None, None, map[])
    else Advance(Summarized(log[..|log| - 1]), log[|log| - 1])
  }

  /** The summary of entries and phase states: the first sequence number of each event. */
  function SummaryOf(c: seq<Entry>, states: map<Phase, ValueState>): Summary {
    Summary(c, First(c, EndsPresent), First(c, EndsOwned), First(c, EndsAbsentAfterOwned), First(c, EndsWithExit),
            states)
  }

  lemma FirstAppend(c: seq<Entry>, e: Entry, p: seq<Entry> -> bool)
    ensures First(c + [e], p) == Earliest(First(c, p), p(c + [e]), |c| + 1)
  {
    assert (c + [e])[..|c|] == c;
  }

  lemma AdvanceOf(c: seq<Entry>, states: map<Phase, ValueState>, e: Entry)
    requires c == [] || c[|c| - 1] != e
    ensures Advance(SummaryOf(c, states), e) == SummaryOf(c + [e], states[e.phase := e.obs.state])
  {
    FirstAppend(c, e, EndsPresent);
    FirstAppend(c, e, EndsOwned);
    FirstAppend(c, e, EndsAbsentAfterOwned);
    FirstAppend(c, e, EndsWithExit);
  }

  lemma RepeatKeepsStates(log: seq<Entry>)
    requires log != []
    ensures var e := log[|log| - 1]; PhaseStates(log)[e.phase := e.obs.state] == PhaseStates(log)
  {}

  /** The running summary is the compressed log, the first sequence number of each event in it,
      and the last state of each phase. */
  lemma {:induction false} SummaryMeaning(log: seq<Entry>)
    ensures Summarized(log) == SummaryOf(Compress(log), PhaseStates(log))
  {
    if log != [] {
      var before, e := log[..|log| - 1], log[|log| - 1];
      SummaryMeaning(before);
      CompressKeepsEntries(before);
      if before != [] && before[|before| - 1] == e {
        RepeatKeepsStates(before);
      } else {
        AdvanceOf(Compress(before), PhaseStates(before), e);
      }
    }
  }

  predicate SomeQueryError(entries: seq<Entry>) {
    exists i :: 0 <= i < |entries| && entries[i].obs.queryError
  }

  predicate SomeForeignValue(entries: seq<Entry>) {
    exists i :: 0 <= i < |entries| && entries[i].obs.present && !entries[i].obs.owned
  }

  predicate RequiredPhasesOwned(states: map<Phase, ValueState>) {
    forall p: Phase :: 3 <= p < 10 ==> p in states && states[p] == Owned
  }

  function RemovalCode(s: Summary): SafeCode
    requires InRange(s) && s.firstAbsentAfterOwned.Some?
  {
    var gone := s.firstAbsentAfterOwned.value;
    var e := s.entries[gone - 1];
    if s.processExit.Some? && s.processExit.value <= gone then RemovedAfterExit
    else if e.phase == BEFORE_SHUTDOWN_PHASE && e.running then RemovedDuringShutdown
    else if 3 <= e.phase <= 6 && e.running then RemovedDuringRuntime
    else Incomplete
  }

  function SummaryCode(s: Summary): SafeCode
    requires InRange(s)
  {
    if SomeQueryError(s.entries) then ReadFailed
    else if SomeForeignValue(s.entries) then OwnershipLost
    else if s.firstOwned.None? then NeverPersisted
    else if s.firstAbsentAfterOwned.Some? then RemovalCode(s)
    else if RequiredPhasesOwned(s.phaseStates) then TimelineVerified
    else Incomplete
  }

  /** The safe code of a summary without an override or a timeout. */
  function Verdict(log: seq<Entry>): SafeCode {
    SummaryCode(Summarized(log))
  }

  /** Where a value disappeared: after the process exited, or between the phase it was last owned in and the
      phase it was found absent in. */
  datatype Interval = AfterExit | Between(from: Phase, to: Phase)

  const BEFORE_ENABLE_PHASE: Phase := 2

  function LastOwnedPhase(entries: seq<Entry>): Phase {
    if entries == [] then BEFORE_ENABLE_PHASE
    else if entries[|entries| - 1].obs.owned then entries[|entries| - 1].phase
    else LastOwnedPhase(entries[..|entries| - 1])
  }

  function AbsentPhase(s: Summary): Option<Phase>
    requires InRange(s)
  {
    if s.firstAbsentAfterOwned.None? then None else Some(s.entries[s.firstAbsentAfterOwned.value - 1].phase)
  }

  function Disappearance(s: Summary): Option<Interval>
    requires InRange(s)
  {
    if s.firstAbsentAfterOwned.None? then None
    else
      var gone := s.firstAbsentAfterOwned.value - 1;
      if !s.entries[gone].running then Some(AfterExit)
      else Some(Between(LastOwnedPhase(s.entries[..gone]), s.entries[gone].phase))
  }

  /** The entry is the last owned one before the position. */
  ghost predicate LastOwnedBefore(entries: seq<Entry>, i: nat, n: nat) {
    i < n <= |entries| && entries[i].obs.owned && forall j :: i < j < n ==> !entries[j].obs.owned
  }

  lemma {:induction false} LastOwnedPhaseMeaning(entries: seq<Entry>, n: nat) returns (i: nat)
    requires n <= |entries| && SomeOwned(entries[..n])
    ensures LastOwnedBefore(entries, i, n) && LastOwnedPhase(entries[..n]) == entries[i].phase
    decreases n
  {
    assert entries[..n][..n - 1] == entries[..n - 1];
    if entries[n - 1].obs.owned {
      i := n - 1;
    } else {
      var k :| 0 <= k < |entries[..n]| && entries[..n][k].obs.owned;
      assert entries[..n - 1][k].obs.owned;
      i := LastOwnedPhaseMeaning(entries, n - 1);
    }
  }

  /** The value is absent in the n-th entry; the interval ends there, and starts at the last owned entry before
      it unless the process was not running. */
  ghost predicate DisappearsAt(c: seq<Entry>, n: nat, d: Interval) {
    && 1 < n <= |c| && !c[n - 1].obs.present
    && (d.AfterExit? <==> !c[n - 1].running)
    && (d.Between? ==> d.to == c[n - 1].phase && exists i: nat :: LastOwnedBefore(c, i, n - 1) && d.from == c[i].phase)
  }

  /** For readings, a disappearance is reported exactly when the raw log has the value absent after it was
      owned. It is after the exit exactly when the process was not running at the first such record; else it
      runs from the phase of the last owned record before that one, and there always is one. */
  lemma DisappearanceMeaning(log: seq<Entry>)
    requires forall i :: 0 <= i < |log| ==> FactoryBuilt(log[i].obs)
    ensures Disappearance(Summarized(log)).Some? <==> OwnedThenNotPresent(log)
    ensures Disappearance(Summarized(log)).Some? ==>
      First(Compress(log), EndsAbsentAfterOwned).Some?
      && DisappearsAt(Compress(log), First(Compress(log), EndsAbsentAfterOwned).value,
                      Disappearance(Summarized(log)).value)
    ensures First(Compress(log), EndsAbsentAfterOwned).None? ==> AbsentPhase(Summarized(log)) == None
    ensures forall n :: First(Compress(log), EndsAbsentAfterOwned) == Some(n) ==>
      1 <= n <= |Compress(log)| && AbsentPhase(Summarized(log)) == Some(Compress(log)[n - 1].phase)
  {
    SummaryMeaning(log);
    CompressKeepsEvents(log);
    CompressKeepsEntries(log);
    if Summarized(log).firstAbsentAfterOwned.Some? {
      var n := First(Compress(log), EndsAbsentAfterOwned).value;
      FirstIsLeast(Compress(log), EndsAbsentAfterOwned);
      assert Compress(log)[..n][n - 1] in log;
      DisappearsAtFirst(Summarized(log), n);
    }
  }

  lemma DisappearsAtFirst(s: Summary, n: nat)
    requires InRange(s) && s.firstAbsentAfterOwned == Some(n)
    requires EndsAbsentAfterOwned(s.entries[..n]) && FactoryBuilt(s.entries[n - 1].obs)
    ensures Disappearance(s).Some? && DisappearsAt(s.entries, n, Disappearance(s).value)
  {
    OwnedBeforeAbsent(s.entries, n);
    var i := LastOwnedPhaseMeaning(s.entries, n - 1);
  }

  lemma OwnedBeforeAbsent(c: seq<Entry>, n: nat)
    requires 0 < n <= |c| && EndsAbsentAfterOwned(c[..n]) && FactoryBuilt(c[n - 1].obs)
    ensures SomeOwned(c[..n - 1])
  {
    FirstIsLeast(c[..n], EndsOwned);
    var k := First(c[..n], EndsOwned).value;
    assert c[..n][..k] == c[..k] && k != n;
    assert c[..n - 1][k - 1].obs.owned;
  }

  // ----- What the other verdicts say -----

  /** The process was seen to stop at or before the n-th entry. */
  ghost predicate StoppedBy(c: seq<Entry>, n: nat) {
    exists m: nat :: m <= n && StopsAt(c, m)
  }

  ghost predicate StopsAt(c: seq<Entry>, m: nat) {
    2 <= m <= |c| && c[m - 2].running && !c[m - 1].running
  }

  /** The removal at the n-th entry: after the process stopped; else while it ran, at T7 or in T3 to T6; else the
      timeline is incomplete. */
  ghost predicate RemovedAs(c: seq<Entry>, n: nat, code: SafeCode)
    requires 0 < n <= |c|
  {
    var e := c[n - 1];
    && (code == RemovedAfterExit <==> StoppedBy(c, n))
    && (code == RemovedDuringShutdown <==> !StoppedBy(c, n) && e.running && e.phase == 7)
    && (code == RemovedDuringRuntime <==>
          !StoppedBy(c, n) && e.running && (e.phase == 3 || e.phase == 4 || e.phase == 5 || e.phase == 6))
    && code in {RemovedAfterExit, RemovedDuringShutdown, RemovedDuringRuntime, Incomplete}
  }

  lemma ExitIsFirstStop(c: seq<Entry>, n: nat)
    requires 0 < n <= |c|
    ensures (match First(c, EndsWithExit) case Some(k) => k <= n case None => false) <==> StoppedBy(c, n)
  {
    FirstIsLeast(c, EndsWithExit);
    forall m: nat | m <= |c| ensures EndsWithExit(c[..m]) <==> StopsAt(c, m) {}
  }

  /** Each verdict, by what the raw log holds: an unreadable value; else a foreign one; else no owned one; else
      one that was gone after it was owned, by where that was; else whether T3 to T9 each ended owned. */
  lemma VerdictMeaning(log: seq<Entry>)
    ensures var v := Verdict(log);
            var clean := !SomeQueryError(log) && !SomeForeignValue(log);
            && (v == ReadFailed <==> SomeQueryError(log))
            && (v == OwnershipLost <==> !SomeQueryError(log) && SomeForeignValue(log))
            && (v == NeverPersisted <==> clean && !SomeOwned(log))
            && (clean && OwnedThenNotPresent(log) ==>
                  && First(Compress(log), EndsAbsentAfterOwned).Some?
                  && 0 < First(Compress(log), EndsAbsentAfterOwned).value <= |Compress(log)|
                  && RemovedAs(Compress(log), First(Compress(log), EndsAbsentAfterOwned).value, v))
            && (clean && SomeOwned(log) && !OwnedThenNotPresent(log) ==>
                  v == if forall p: Phase :: 3 <= p < 10 ==> PhaseEndsOwned(log, p) then TimelineVerified
                       else Incomplete)
  {
    SummaryMeaning(log);
    CompressKeepsEvents(log);
    CompressKeepsEntries(log);
    SameEntriesSameErrors(Compress(log), log);
    RemovedMeansOwned(log);
    CodeMeaning(Summarized(log));
    PhasesMeaning(log);
    if OwnedThenNotPresent(log) { RemovalMeaning(Summarized(log)); }
  }

  lemma CodeMeaning(s: Summary)
    requires InRange(s)
    ensures var v, clean := SummaryCode(s), !SomeQueryError(s.entries) && !SomeForeignValue(s.entries);
            && (v == ReadFailed <==> SomeQueryError(s.entries))
            && (v == OwnershipLost <==> !SomeQueryError(s.entries) && SomeForeignValue(s.entries))
            && (v == NeverPersisted <==> clean && s.firstOwned.None?)
            && (clean && s.firstOwned.Some? && s.firstAbsentAfterOwned.Some? ==> v == RemovalCode(s))
            && (clean && s.firstOwned.Some? && s.firstAbsentAfterOwned.None? ==>
                  v == if RequiredPhasesOwned(s.phaseStates) then TimelineVerified else Incomplete)
  {}

  lemma PhasesMeaning(log: seq<Entry>)
    ensures RequiredPhasesOwned(PhaseStates(log)) <==> forall p: Phase :: 3 <= p < 10 ==> PhaseEndsOwned(log, p)
  {
    forall p: Phase | 3 <= p < 10
      ensures p in PhaseStates(log) && PhaseStates(log)[p] == Owned <==> PhaseEndsOwned(log, p)
    {
      PhaseStatesIsLast(log, p);
    }
  }

  lemma RemovalMeaning(s: Summary)
    requires InRange(s) && s.firstAbsentAfterOwned.Some? && s.processExit == First(s.entries, EndsWithExit)
    ensures RemovedAs(s.entries, s.firstAbsentAfterOwned.value, RemovalCode(s))
  {
    ExitIsFirstStop(s.entries, s.firstAbsentAfterOwned.value);
  }

  lemma RemovedMeansOwned(log: seq<Entry>)
    ensures OwnedThenNotPresent(log) ==> SomeOwned(log)
  {
    if OwnedThenNotPresent(log) {
      var i, j :| 0 <= i <= j < |log| && log[i].obs.owned && !log[j].obs.present;
      assert log[i].obs.owned;
    }
  }

  // ----- What a verified verdict says about the raw log -----

  ghost predicate SwitchesAt(log: seq<Entry>, n: nat) {
    && n < |log|
    && (forall i :: 0 <= i < n ==> log[i].obs.state == Absent)
    && (forall i :: n <= i < |log| ==> log[i].obs.state == Owned)
  }

  /** Absent up to some point, owned at every observation after it, and owned at least once. */
  ghost predicate AbsentThenOwned(log: seq<Entry>) {
    exists n: nat :: SwitchesAt(log, n)
  }

  /** The phase was observed, and its last observation found the value owned. */
  ghost predicate PhaseEndsOwned(log: seq<Entry>, p: Phase) {
    exists i: nat :: LastOwnedOf(log, p, i)
  }

  lemma {:induction false} CompressKeepsEntries(log: seq<Entry>)
    ensures forall e :: e in Compress(log) <==> e in log
    ensures log != [] ==> Compress(log) != [] && Compress(log)[|Compress(log)| - 1] == log[|log| - 1]
  {
    if log != [] {
      var before, last := log[..|log| - 1], log[|log| - 1];
      assert log == before + [last];
      CompressKeepsEntries(before);
    }
  }

  /** The i-th entry is the last observation of the phase, and finds the value owned. */
  ghost predicate LastOwnedOf(log: seq<Entry>, p: Phase, i: nat) {
    i < |log| && log[i].phase == p && log[i].obs.state == Owned && forall j :: i < j < |log| ==> log[j].phase != p
  }

  lemma PhaseEndsOwnedStep(log: seq<Entry>, e: Entry, p: Phase)
    ensures PhaseEndsOwned(log + [e], p) <==> if e.phase == p then e.obs.state == Owned else PhaseEndsOwned(log, p)
  {
    var all := log + [e];
    assert all[|log|] == e;
    if PhaseEndsOwned(all, p) {
      var i: nat :| LastOwnedOf(all, p, i);
      assert forall j :: 0 <= j < |log| ==> log[j] == all[j];
      assert i < |log| ==> all[|log|].phase != p;
      assert i < |log| ==> LastOwnedOf(log, p, i);
    }
    if e.phase == p && e.obs.state == Owned {
      assert LastOwnedOf(all, p, |log|);
    } else if e.phase != p && PhaseEndsOwned(log, p) {
      var i: nat :| LastOwnedOf(log, p, i);
      assert LastOwnedOf(all, p, i);
    }
  }

  ghost predicate PhaseSeen(log: seq<Entry>, p: Phase) {
    exists i :: 0 <= i < |log| && log[i].phase == p
  }

  lemma PhaseSeenStep(log: seq<Entry>, e: Entry, p: Phase)
    ensures PhaseSeen(log + [e], p) <==> PhaseSeen(log, p) || e.phase == p
  {
    var all := log + [e];
    assert all[|log|] == e;
    if i :| 0 <= i < |log| && log[i].phase == p { assert all[i].phase == p; }
    if i :| 0 <= i < |all| && all[i].phase == p { assert i < |log| ==> log[i].phase == p; }
  }

  lemma {:induction false} PhaseStatesIsLast(log: seq<Entry>, p: Phase)
    ensures p in PhaseStates(log) && PhaseStates(log)[p] == Owned <==> PhaseEndsOwned(log, p)
    ensures p in PhaseStates(log) <==> PhaseSeen(log, p)
  {
    if log != [] {
      var before, last := log[..|log| - 1], log[|log| - 1];
      assert log == before + [last];
      PhaseStatesIsLast(before, p);
      PhaseEndsOwnedStep(before, last, p);
      PhaseSeenStep(before, last, p);
    }
  }

  ghost predicate SomeOwned(log: seq<Entry>) {
    exists i :: 0 <= i < |log| && log[i].obs.owned
  }

  ghost predicate OwnedThenNotPresent(log: seq<Entry>) {
    exists i, j :: 0 <= i <= j < |log| && log[i].obs.owned && !log[j].obs.present
  }

  lemma FirstStep(c: seq<Entry>, e: Entry)
    ensures First(c + [e], EndsOwned).Some? <==> First(c, EndsOwned).Some? || e.obs.owned
    ensures First(c + [e], EndsAbsentAfterOwned).Some?
       <==> First(c, EndsAbsentAfterOwned).Some? || (!e.obs.present && First(c + [e], EndsOwned).Some?)
  {
    assert (c + [e])[..|c|] == c;
  }

  lemma SomeOwnedStep(log: seq<Entry>, e: Entry)
    ensures SomeOwned(log + [e]) <==> SomeOwned(log) || e.obs.owned
  {
    if i :| 0 <= i < |log| && log[i].obs.owned { assert (log + [e])[i].obs.owned; }
    assert (log + [e])[|log|] == e;
  }

  lemma OwnedThenNotPresentStep(log: seq<Entry>, e: Entry)
    ensures OwnedThenNotPresent(log + [e]) <==> OwnedThenNotPresent(log) || (!e.obs.present && SomeOwned(log + [e]))
  {
    var all := log + [e];
    assert all[|log|] == e;
    if i, j :| 0 <= i <= j < |log| && log[i].obs.owned && !log[j].obs.present {
      assert all[i].obs.owned && !all[j].obs.present;
    }
    if !e.obs.present && SomeOwned(all) {
      var i :| 0 <= i < |all| && all[i].obs.owned;
      assert all[i].obs.owned && !all[|log|].obs.present;
    }
    if i, j :| 0 <= i <= j < |all| && all[i].obs.owned && !all[j].obs.present {
      assert j < |log| ==> log[i].obs.owned && !log[j].obs.present;
    }
  }

  /** Compression loses none of the events that the verdict asks about. */
  lemma {:induction false} CompressKeepsEvents(log: seq<Entry>)
    ensures First(Compress(log), EndsOwned).Some? <==> SomeOwned(log)
    ensures First(Compress(log), EndsAbsentAfterOwned).Some? <==> OwnedThenNotPresent(log)
  {
    if log != [] {
      var before, last := log[..|log| - 1], log[|log| - 1];
      assert log == before + [last];
      CompressKeepsEvents(before);
      SomeOwnedStep(before, last);
      OwnedThenNotPresentStep(before, last);
      if before != [] && before[|before| - 1] == last {
        RepeatAddsNoEvent(before);
      } else {
        FirstStep(Compress(before), last);
      }
    }
  }

  lemma RepeatAddsNoEvent(log: seq<Entry>)
    requires log != []
    ensures var e := log[|log| - 1].obs;
            (e.owned ==> SomeOwned(log)) && (!e.present && SomeOwned(log) ==> OwnedThenNotPresent(log))
  {
    if SomeOwned(log) {
      var i :| 0 <= i < |log| && log[i].obs.owned;
      assert 0 <= i <= |log| - 1;
    }
  }

  /** For readings, the events of the verdict are exactly that the log is absent and then owned. */
  lemma CleanLogIsAbsentThenOwned(log: seq<Entry>)
    requires forall i :: 0 <= i < |log| ==> FactoryBuilt(log[i].obs)
    ensures AbsentThenOwned(log)
       <==> !SomeQueryError(log) && !SomeForeignValue(log)
            && SomeOwned(log) && !OwnedThenNotPresent(log)
  {
    if AbsentThenOwned(log) {
      var n: nat :| SwitchesAt(log, n);
      assert log[n].obs.owned;
    } else if !SomeQueryError(log) && !SomeForeignValue(log) && SomeOwned(log) {
      var n := FirstOwnedIndex(log);
      assert !SwitchesAt(log, n);
      var k :| n <= k < |log| && log[k].obs.state != Owned;
      assert log[n].obs.owned && !log[k].obs.present;
    }
  }

  ghost function FirstOwnedIndex(log: seq<Entry>): (n: nat)
    requires SomeOwned(log)
    ensures n < |log| && log[n].obs.owned && forall i :: 0 <= i < n ==> !log[i].obs.owned
  {
    if log[0].obs.owned then 0
    else
      assert SomeOwned(log[1..]) by {
        var i :| 0 <= i < |log| && log[i].obs.owned;
        assert log[1..][i - 1].obs.owned;
      }
      var n := FirstOwnedIndex(log[1..]) + 1;
      assert forall i :: 1 <= i < n ==> log[i] == log[1..][i - 1];
      n
  }

  lemma VerdictOnRawLog(log: seq<Entry>)
    ensures Verdict(log) == TimelineVerified
       <==> !SomeQueryError(log) && !SomeForeignValue(log)
            && SomeOwned(log) && !OwnedThenNotPresent(log)
            && RequiredPhasesOwned(PhaseStates(log))
  {
    VerifiedCode(Summarized(log));
    SummaryMeaning(log);
    CompressKeepsEntries(log);
    CompressKeepsEvents(log);
    SameEntriesSameErrors(Compress(log), log);
  }

  lemma VerifiedCode(s: Summary)
    requires InRange(s)
    ensures SummaryCode(s) == TimelineVerified
       <==> !SomeQueryError(s.entries) && !SomeForeignValue(s.entries)
            && s.firstOwned.Some? && s.firstAbsentAfterOwned.None? && RequiredPhasesOwned(s.phaseStates)
  {}

  /** The verdict is "verified" exactly when the raw log is absent and then owned, and each of T3 to T9
      was observed and ended owned. */
  lemma VerifiedIffAbsentThenOwned(log: seq<Entry>)
    requires forall i :: 0 <= i < |log| ==> FactoryBuilt(log[i].obs)
    ensures Verdict(log) == TimelineVerified
       <==> AbsentThenOwned(log) && forall p: Phase :: 3 <= p < 10 ==> PhaseEndsOwned(log, p)
  {
    VerdictOnRawLog(log);
    CleanLogIsAbsentThenOwned(log);
    forall p: Phase | 3 <= p < 10
      ensures p in PhaseStates(log) && PhaseStates(log)[p] == Owned <==> PhaseEndsOwned(log, p)
    {
      PhaseStatesIsLast(log, p);
    }
  }

  lemma SameEntriesSameErrors(a: seq<Entry>, b: seq<Entry>)
    requires forall e :: e in a <==> e in b
    ensures SomeQueryError(a) <==> SomeQueryError(b)
    ensures SomeForeignValue(a) <==> SomeForeignValue(b)
  {
    SameEntriesImplies(a, b);
    SameEntriesImplies(b, a);
  }

  lemma SameEntriesImplies(a: seq<Entry>, b: seq<Entry>)
    requires forall e :: e in a ==> e in b
    ensures SomeQueryError(a) ==> SomeQueryError(b)
    ensures SomeForeignValue(a) ==> SomeForeignValue(b)
  {
    if i :| 0 <= i < |a| && a[i].obs.queryError {
      assert a[i] in b;
    }
    if i :| 0 <= i < |a| && a[i].obs.present && !a[i].obs.owned {
      assert a[i] in b;
    }
  }

  /** No entry of a compressed log repeats the one before it, so compressing again changes nothing. */
  lemma {:induction false} CompressIsIdempotent(log: seq<Entry>)
    ensures NoRepeats(Compress(log))
    ensures Compress(Compress(log)) == Compress(log)
  {
    if log != [] {
      CompressIsIdempotent(log[..|log| - 1]);
      CompressKeepsEntries(log[..|log| - 1]);
    }
    NoRepeatsKept(Compress(log));
  }

  ghost predicate NoRepeats(entries: seq<Entry>) {
    forall i :: 0 < i < |entries| ==> entries[i] != entries[i - 1]
  }

  lemma {:induction false} NoRepeatsKept(entries: seq<Entry>)
    requires NoRepeats(entries)
    ensures Compress(entries) == entries
  {
    if entries != [] { NoRepeatsKept(entries[..|entries| - 1]); }
  }
}
