/** The tracker object: records, sequence numbers and phase states kept up to date in place. */
module TimelineTrackerObject {
  import opened Wrappers
  import opened TimelineCoordinator
  import opened TimelineLog

  /** The fields of a terminal summary that come from the log. */
  datatype Report = Report(
    code: SafeCode,
    queryCount: nat,
    recordCount: nat,
    firstPresent: Option<nat>,
    firstOwned: Option<nat>,
    firstAbsentAfterOwned: Option<nat>,
    absentPhase: Option<Phase>,
    processExit: Option<nat>,
    acceptedPhase: Phase,
    interval: Option<Interval>,
    phaseStates: map<Phase, ValueState>)

  /** The summary of a raw log, in terms of the log without repeats. */
  ghost function ReportOn(log: seq<Entry>, code: SafeCode): Report {
    var c, s := Compress(log), Summarized(log);
    Report(code, |log|, |c|, First(c, EndsPresent), First(c, EndsOwned), s.firstAbsentAfterOwned,
           AbsentPhase(s), First(c, EndsWithExit), if c == [] then 0 else c[|c| - 1].phase, Disappearance(s),
           PhaseStates(log))
  }

  class TimelineTracker {
    var records: seq<Record>
    var queryCount: nat
    var firstPresent: Option<nat>
    var firstOwned: Option<nat>
    var firstAbsentAfterOwned: Option<nat>
    var processExit: Option<nat>
    var lastSignature: Option<(Observation, bool)>
    var lastPhase: Option<Phase>
    var lastRunning: bool
    var phaseStates: map<Phase, ValueState>
    /** Every observation made, in order. */
    ghost var log: seq<Entry>

    /** The fields are the summary of the raw log. */
    ghost predicate Valid()
      reads this
    {
      queryCount == |log| && Holds(Summarized(log))
    }

    ghost predicate Holds(s: Summary)
      reads this
    {
      && records == Render(s.entries)
      && firstPresent == s.firstPresent
      && firstOwned == s.firstOwned
      && firstAbsentAfterOwned == s.firstAbsentAfterOwned
      && processExit == s.processExit
      && phaseStates == s.phaseStates
      && if s.entries == [] then lastSignature == None && lastPhase == None && !lastRunning
         else
           var e := s.entries[|s.entries| - 1];
           lastSignature == Some((e.obs, e.running)) && lastPhase == Some(e.phase) && lastRunning == e.running
    }

    constructor ()
      ensures Valid() && log == []
    {
      records, queryCount := [], 0;
      firstPresent, firstOwned, firstAbsentAfterOwned, processExit := None, None, None, None;
      lastSignature, lastPhase, lastRunning, phaseStates := None, None, false, map[];
      log := [];
    }

    /** Appends to the log; returns the new record, or nothing for a repeat of the last observation. */
    method Observe(phase: Phase, running: bool, observation: Observation) returns (record: Option<Record>)
      requires Valid()
      modifies this
      ensures Valid()
      ensures log == old(log) + [Entry(phase, running, observation)]
      ensures records == old(records) + (if record.Some? then [record.value] else [])
    {
      ghost var entry := Entry(phase, running, observation);
      SummarizedAppend(log, entry);
      record := Store(phase, running, observation, Summarized(log));
      log, queryCount := log + [entry], queryCount + 1;
    }

    method Store(phase: Phase, running: bool, observation: Observation, ghost before: Summary)
      returns (record: Option<Record>)
      requires Holds(before)
      modifies `records, `phaseStates, `firstPresent, `firstOwned, `firstAbsentAfterOwned, `processExit
      modifies `lastSignature, `lastPhase, `lastRunning
      ensures Holds(Advance(before, Entry(phase, running, observation)))
      ensures records == old(records) + (if record.Some? then [record.value] else [])
    {
      ghost var entry := Entry(phase, running, observation);
      var signature := (observation, running);
      var phaseChanged := lastPhase != Some(phase);
      if !phaseChanged && lastSignature == Some(signature) { return None; }
      var sequence := |records| + 1;
      var transition := TransitionOf(observation, running, phaseChanged);
      record := Some(Record(sequence, phase, running, observation.present, observation.owned, observation.typeValid,
                            observation.length, observation.sha256, observation.queryError, transition));
      assert record.value == RecordAt(before.entries + [entry], |before.entries|);
      RenderAppend(before.entries, entry);
      AppendFields(record.value, phase, observation);
      if lastRunning && !running && processExit.None? { processExit := Some(sequence); }
      lastSignature, lastPhase, lastRunning := Some(signature), Some(phase), running;
    }

    /** The part of an observation that records it and numbers the first occurrence of each value event. */
    method AppendFields(record: Record, phase: Phase, observation: Observation)
      requires record.sequence == |records| + 1
      modifies `records, `phaseStates, `firstPresent, `firstOwned, `firstAbsentAfterOwned
      ensures records == old(records) + [record]
      ensures phaseStates == old(phaseStates)[phase := observation.state]
      ensures firstPresent == Earliest(old(firstPresent), observation.present, record.sequence)
      ensures firstOwned == Earliest(old(firstOwned), observation.owned, record.sequence)
      ensures firstAbsentAfterOwned
           == Earliest(old(firstAbsentAfterOwned), firstOwned.Some? && !observation.present, record.sequence)
    {
      records := records + [record];
      phaseStates := phaseStates[phase := observation.state];
      if observation.present && firstPresent.None? { firstPresent := Some(record.sequence); }
      if observation.owned && firstOwned.None? { firstOwned := Some(record.sequence); }
      if firstOwned.Some? && !observation.present && firstAbsentAfterOwned.None? {
        firstAbsentAfterOwned := Some(record.sequence);
      }
    }

    function TransitionOf(observation: Observation, running: bool, phaseChanged: bool): Transition
      reads this
    {
      if lastSignature.None? then Initial(observation.state)
      else if lastRunning && !running then ProcessExited
      else if !lastRunning && running then ProcessStarted
      else if lastSignature.value.0.state != observation.state then
        ValueChanged(lastSignature.value.0.state, observation.state)
      else if phaseChanged then PhaseSnapshot
      else MetadataChanged
    }

    /** The terminal summary of the raw log. */
    method Summarize(timedOut: bool, override: Option<SafeCode>) returns (r: Report)
      requires Valid()
      ensures r.code == if override.Some? then override.value else if timedOut then ProbeTimeout else Verdict(log)
      ensures r == ReportOn(log, r.code)
    {
      var code := DecideCode(timedOut, override);
      SummaryMeaning(log);
      var absentPhase, interval := WhereItDisappeared();
      r := Report(code, queryCount, |records|, firstPresent, firstOwned, firstAbsentAfterOwned, absentPhase,
                  processExit, if lastPhase.Some? then lastPhase.value else 0, interval, phaseStates);
    }

    method WhereItDisappeared() returns (absentPhase: Option<Phase>, interval: Option<Interval>)
      requires Valid()
      ensures absentPhase == AbsentPhase(Summarized(log)) && interval == Disappearance(Summarized(log))
    {
      if firstAbsentAfterOwned.None? { return None, None; }
      var gone := firstAbsentAfterOwned.value - 1;
      assert records[gone] == RecordAt(Summarized(log).entries, gone);
      if !records[gone].running { return Some(records[gone].phase), Some(AfterExit); }
      var from := LastOwnedRecordPhase(gone);
      return Some(records[gone].phase), Some(Between(from, records[gone].phase));
    }

    /** The phase of the last owned record before the position. */
    method LastOwnedRecordPhase(n: nat) returns (phase: Phase)
      requires Valid() && n <= |records|
      ensures phase == LastOwnedPhase(Summarized(log).entries[..n])
    {
      ghost var entries := Summarized(log).entries;
      phase := BEFORE_ENABLE_PHASE;
      for i := 0 to n
        invariant phase == LastOwnedPhase(entries[..i])
      {
        assert entries[..i + 1][..i] == entries[..i];
        assert records[i] == RecordAt(entries, i);
        if records[i].owned { phase := records[i].phase; }
      }
    }

    /** The safe code of the terminal summary. */
    method DecideCode(timedOut: bool, override: Option<SafeCode>) returns (code: SafeCode)
      requires Valid()
      ensures code == if override.Some? then override.value else if timedOut then ProbeTimeout else Verdict(log)
    {
      if override.Some? { return override.value; }
      if timedOut { return ProbeTimeout; }
      RecordsShowErrors(Summarized(log).entries);
      if exists i :: 0 <= i < |records| && records[i].queryError { return ReadFailed; }
      if exists i :: 0 <= i < |records| && records[i].present && !records[i].owned { return OwnershipLost; }
      if firstOwned.None? { return NeverPersisted; }
      if firstAbsentAfterOwned.Some? {
        var record := records[firstAbsentAfterOwned.value - 1];
        if processExit.Some? && processExit.value <= record.sequence { return RemovedAfterExit; }
        if record.phase == BEFORE_SHUTDOWN_PHASE && record.running { return RemovedDuringShutdown; }
        if 3 <= record.phase <= 6 && record.running { return RemovedDuringRuntime; }
        return Incomplete;
      }
      code := if RequiredPhasesOwned(phaseStates) then TimelineVerified else Incomplete;
    }
  }

  lemma SummarizedAppend(log: seq<Entry>, e: Entry)
    ensures Summarized(log + [e]) == Advance(Summarized(log), e)
  {
    assert (log + [e])[..|log|] == log;
  }

  lemma RecordsShowErrors(entries: seq<Entry>)
    ensures var records := Render(entries);
            && (SomeQueryError(entries) <==> exists i :: 0 <= i < |records| && records[i].queryError)
            && (SomeForeignValue(entries)
                <==> exists i :: 0 <= i < |records| && records[i].present && !records[i].owned)
  {
    var records := Render(entries);
    forall i | 0 <= i < |entries| ensures records[i] == RecordAt(entries, i) {}
    if i :| 0 <= i < |entries| && entries[i].obs.queryError { assert records[i].queryError; }
    if i :| 0 <= i < |entries| && entries[i].obs.present && !entries[i].obs.owned {
      assert records[i].present && !records[i].owned;
    }
  }

  lemma RenderAppend(entries: seq<Entry>, e: Entry)
    ensures Render(entries + [e]) == Render(entries) + [RecordAt(entries + [e], |entries|)]
  {}
}
