/** Deadlines and the other reasons to return, as theorems about runs of the polling observer. */
module TimelineDeadlines {
  import opened Wrappers
  import opened TimelineCoordinator
  import opened TimelineMeaning
  import opened TimelineLog
  import opened TimelineObserver

  // ----- When messages were accepted -----

  /** When the last pass that accepted a message began. */
  function LastAccepted(o: Observer, passes: seq<Pass>): Option<real> {
    if passes == [] then None
    else
      var before := passes[..|passes| - 1];
      if Observed(o, passes).coord.revision != Observed(o, before).coord.revision then Some(passes[|passes| - 1].now)
      else LastAccepted(o, before)
  }

  /** When the pass that entered T1 began. */
  function FirstPhaseAt(o: Observer, passes: seq<Pass>): Option<real> {
    if passes == [] then None
    else
      var before := passes[..|passes| - 1];
      if Observed(o, passes).coord.phase > 0 && Observed(o, before).coord.phase == 0 then Some(passes[|passes| - 1].now)
      else FirstPhaseAt(o, before)
  }

  /** What the coordinator's clocks stand for. */
  ghost predicate Timed(o: Observer, startedAt: real, readyAt: real, first: Option<real>, last: Option<real>) {
    var c := o.coord;
    && Coherent(c, c.revision != c.phase)
    && c.startedAt == startedAt && c.limits == DEFAULT_LIMITS
    && (o.result.None? ==> c.lifecycle in {ReadyUnarmed, Observing})
    && (c.lifecycle == ReadyUnarmed ==> c.readyAt == Some(readyAt))
    && (c.phase > 0 ==> c.activeStartedAt == first && first.Some?)
    && (c.revision > 0 ==> c.leaseStartedAt == last && last.Some?)
  }

  /** What a step does to the clocks if it began at `now`: an acceptance restarts the lease. */
  ghost predicate Ticks(c: Coord, d: Coord, now: real) {
    && Coherent(d, d.revision != d.phase)
    && d.startedAt == c.startedAt && d.limits == c.limits && d.readyAt == c.readyAt
    && (if d.revision == c.revision then d.leaseStartedAt == c.leaseStartedAt && d.phase == c.phase
        else d.leaseStartedAt == Some(now) && d.phase >= c.phase)
    && d.activeStartedAt == (if d.phase > 0 && c.phase == 0 then Some(now) else c.activeStartedAt)
    && (d.lifecycle == ReadyUnarmed ==> c.lifecycle == ReadyUnarmed)
  }

  lemma RegisterTicks(c: Coord, r: Registration, now: real)
    requires Coherent(c, c.revision != c.phase)
    ensures Ticks(c, RegisterOwner(c, r).next, now)
  {}

  lemma AcceptTicks(c: Coord, m: Control, now: real, status: Option<ProcessStatus>)
    requires Coherent(c, c.revision != c.phase)
    ensures Ticks(c, AcceptControl(c, m, now, status).next, now)
    ensures AcceptControl(c, m, now, status).Done? ==>
      AcceptControl(c, m, now, status).next.lifecycle in {Armed, Observing, Finalizing}
  {
    AcceptKeepsCoherent(c, c.revision != c.phase, m, now, status);
  }

  lemma ObserveTicks(c: Coord, status: Option<ProcessStatus>, now: real)
    requires Coherent(c, c.revision != c.phase)
    ensures var d := ObserveOwnerStatus(c, status).0; Ticks(c, d, now) && d.lifecycle == c.lifecycle
  {
    ObserveKeepsCoherent(c, c.revision != c.phase, status);
  }

  lemma TicksTwice(c: Coord, d: Coord, e: Coord, now: real)
    requires Ticks(c, d, now) && Ticks(d, e, now) && (d.revision == c.revision || e.revision == d.revision)
    ensures Ticks(c, e, now)
  {}

  lemma ReturnTicks(c: Coord, d: Coord, code: SafeCode, now: real)
    requires Ticks(c, d, now)
    ensures Ticks(c, Fail(d, code), now) && Ticks(c, Complete(d), now)
  {}

  lemma JudgeTicks(c: Coord, o: Observer, reading: Reading, now: real)
    requires o.result.None? && Ticks(c, o.coord, now) && o.coord.lifecycle in {ReadyUnarmed, Observing, Finalizing}
    ensures var n := Judge(o, reading);
            Ticks(c, n.coord, now) && (n.result.None? ==> n.coord.lifecycle in {ReadyUnarmed, Observing})
  {
    var n := Judge(o, reading);
    ReturnTicks(c, o.coord, n.coord.safeCode, now);
    assert n.coord == o.coord || n.coord == Fail(o.coord, n.coord.safeCode) || n.coord == Complete(o.coord);
  }

  lemma LookTicks(c: Coord, o: Observer, probe: ProcessStatus, reading: Reading, now: real)
    requires o.result.None? && Ticks(c, o.coord, now) && o.coord.lifecycle in {ReadyUnarmed, Observing, Finalizing}
    ensures var n := Look(o, probe, reading);
            Ticks(c, n.coord, now) && (n.result.None? ==> n.coord.lifecycle in {ReadyUnarmed, Observing})
  {
    var status := if o.coord.owner.Some? then Some(probe) else None;
    var (d, failure) := ObserveOwnerStatus(o.coord, status);
    ObserveTicks(o.coord, status, now);
    TicksTwice(c, o.coord, d, now);
    if failure.Some? {
      ReturnTicks(c, d, failure.value, now);
    } else {
      var entry := Entry(d.phase, d.ownerState == OwnerRunning, reading);
      JudgeTicks(c, o.(coord := d, log := o.log + [entry]), reading, now);
    }
  }

  lemma BeginTicks(o: Observer, now: real, ownerFile: Read<Option<Registration>>)
    requires o.result.None? && Coherent(o.coord, o.coord.revision != o.coord.phase)
    requires o.coord.lifecycle in {ReadyUnarmed, Observing}
    ensures var n := BeginPass(o, now, ownerFile);
            && Ticks(o.coord, n.coord, now) && n.coord.revision == o.coord.revision
            && (n.result.None? ==> n.coord.lifecycle == o.coord.lifecycle)
  {
    if ownerFile.Content? && ownerFile.value.Some? { RegisterTicks(o.coord, ownerFile.value.value, now); }
  }

  lemma ArmedTicks(c: Coord, d: Coord, now: real)
    requires Ticks(c, d, now) && d.lifecycle == Armed
    ensures Ticks(c, BeginObserving(d).next, now) && BeginObserving(d).next.lifecycle == Observing
  {}

  lemma EndTicks(o: Observer, now: real, registration: Option<Registration>, control: Read<Control>,
                 acceptProbe: ProcessStatus, probe: ProcessStatus, reading: Reading)
    requires o.result.None? && Coherent(o.coord, o.coord.revision != o.coord.phase)
    requires o.coord.lifecycle in {ReadyUnarmed, Observing}
    ensures var n := EndPass(o, now, registration, control, acceptProbe, probe, reading);
            Ticks(o.coord, n.coord, now) && (n.result.None? ==> n.coord.lifecycle in {ReadyUnarmed, Observing})
  {
    if control.Content? && control.value.revision > o.coord.revision {
      NewMessageTicks(o, now, registration, control.value, acceptProbe, probe, reading);
    } else if control.Content? && control.value.revision == o.coord.revision {
      LookTicks(o.coord, o, probe, reading, now);
    }
  }

  lemma NewMessageTicks(o: Observer, now: real, registration: Option<Registration>, m: Control,
                        acceptProbe: ProcessStatus, probe: ProcessStatus, reading: Reading)
    requires o.result.None? && Coherent(o.coord, o.coord.revision != o.coord.phase)
    requires o.coord.lifecycle in {ReadyUnarmed, Observing} && m.revision > o.coord.revision
    ensures var n := EndPass(o, now, registration, Content(m), acceptProbe, probe, reading);
            Ticks(o.coord, n.coord, now) && (n.result.None? ==> n.coord.lifecycle in {ReadyUnarmed, Observing})
  {
    var status := if registration.Some? then Some(acceptProbe) else None;
    AcceptTicks(o.coord, m, now, status);
    var r := AcceptControl(o.coord, m, now, status);
    if r.Raised? {
      ReturnTicks(o.coord, r.next, r.code, now);
    } else {
      if r.next.lifecycle == Armed { ArmedTicks(o.coord, r.next, now); }
      LookTicks(o.coord, o.(coord := if r.next.lifecycle == Armed then BeginObserving(r.next).next else r.next), probe,
                reading, now);
    }
  }

  lemma PassTicks(o: Observer, p: Pass)
    requires o.result.None? && Coherent(o.coord, o.coord.revision != o.coord.phase)
    requires o.coord.lifecycle in {ReadyUnarmed, Observing}
    ensures var n := OnePass(o, p);
            Ticks(o.coord, n.coord, p.now) && (n.result.None? ==> n.coord.lifecycle in {ReadyUnarmed, Observing})
  {
    BeginTicks(o, p.now, p.ownerFile);
    var b := BeginPass(o, p.now, p.ownerFile);
    if b.result.None? {
      EndTicks(b, p.now, RegistrationRead(p.ownerFile), p.control, p.acceptProbe, p.probe, p.reading);
      TicksTwice(o.coord, b.coord, OnePass(o, p).coord, p.now);
    }
  }

  /** In every run the lease began with the last accepted message and the active time with T1. */
  lemma {:induction false} ClocksOfRun(nonce: string, startedAt: real, first: Reading, readyAt: real, passes: seq<Pass>)
    ensures var o := Start(nonce, startedAt, first, readyAt);
            Timed(Observed(o, passes), startedAt, readyAt, FirstPhaseAt(o, passes), LastAccepted(o, passes))
  {
    if passes != [] {
      var o := Start(nonce, startedAt, first, readyAt);
      var before := passes[..|passes| - 1];
      ClocksOfRun(nonce, startedAt, first, readyAt, before);
      if Observed(o, before).result.None? { PassTicks(Observed(o, before), passes[|passes| - 1]); }
    }
  }

  // ----- Deadlines -----

  /** The first deadline that has passed: three hours after the start; an hour after getting ready, in T0; an
      hour and a half after T1; half an hour after the last accepted message. */
  function Overdue(startedAt: real, readyAt: real, phase: Phase, first: Option<real>, last: Option<real>, now: real)
    : Option<SafeCode>
  {
    if now >= startedAt + 10800.0 then Some(TotalTimeout)
    else if phase == 0 then if now >= readyAt + 3600.0 then Some(ReadyTimeout) else None
    else if first.Some? && now >= first.value + 5400.0 then Some(ActiveTimeout)
    else if last.Some? && now >= last.value + 1800.0 then Some(StageTimeout)
    else None
  }

  const TIMEOUTS := {TotalTimeout, ReadyTimeout, ActiveTimeout, StageTimeout}

  /** A pass that begins after a deadline returns 2 with the code of the first deadline that has passed, whatever
      it would find; a pass that begins before every deadline never returns with such a code. */
  lemma TimeoutsOfRun(nonce: string, startedAt: real, first: Reading, readyAt: real, passes: seq<Pass>, p: Pass)
    requires Observed(Start(nonce, startedAt, first, readyAt), passes).result.None?
    ensures var start := Start(nonce, startedAt, first, readyAt);
            var o, n := Observed(start, passes), Observed(start, passes + [p]);
            var due := Overdue(startedAt, readyAt, o.coord.phase, FirstPhaseAt(start, passes),
                               LastAccepted(start, passes), p.now);
            && (due.Some? ==> n.result == Some(2) && n.coord.safeCode == due.value && n.log == o.log
                              && n.coord.phase == o.coord.phase)
            && (due.None? ==> n.coord.safeCode !in TIMEOUTS)
  {
    var start := Start(nonce, startedAt, first, readyAt);
    var o := Observed(start, passes);
    ClocksOfRun(nonce, startedAt, first, readyAt, passes);
    assert (passes + [p])[..|passes|] == passes;
    DeadlineOfPass(o, startedAt, readyAt, FirstPhaseAt(start, passes), LastAccepted(start, passes), p);
  }

  lemma DeadlineOfPass(o: Observer, startedAt: real, readyAt: real, first: Option<real>, last: Option<real>, p: Pass)
    requires o.result.None? && Timed(o, startedAt, readyAt, first, last)
    ensures var n, due := OnePass(o, p), Overdue(startedAt, readyAt, o.coord.phase, first, last, p.now);
            && (due.Some? ==> n == Return2(o, due.value))
            && (due.None? ==> n.coord.safeCode !in TIMEOUTS)
  {
    var due := Overdue(startedAt, readyAt, o.coord.phase, first, last, p.now);
    assert TimeoutCode(o.coord, p.now) == if due.Some? then Due(due.value) else NotDue;
    if due.None? {
      var b := BeginPass(o, p.now, p.ownerFile);
      BeginCode(o, p.now, p.ownerFile);
      if b.result.None? {
        EndCode(b, p.now, RegistrationRead(p.ownerFile), p.control, p.acceptProbe, p.probe, p.reading);
      }
    }
  }

  lemma BeginCode(o: Observer, now: real, ownerFile: Read<Option<Registration>>)
    requires o.coord.safeCode !in TIMEOUTS && TimeoutCode(o.coord, now) == NotDue
    ensures BeginPass(o, now, ownerFile).coord.safeCode !in TIMEOUTS
  {}

  lemma OwnerCode(c: Coord, status: Option<ProcessStatus>)
    ensures var (d, failure) := ObserveOwnerStatus(c, status);
            d.safeCode == c.safeCode && (failure.Some? ==> failure.value !in TIMEOUTS)
  {}

  lemma JudgeCode(o: Observer, reading: Reading)
    requires o.coord.safeCode !in TIMEOUTS
    ensures Judge(o, reading).coord.safeCode !in TIMEOUTS
  {
    VerdictIsNoTimeout(o.log);
  }

  lemma LookCode(o: Observer, probe: ProcessStatus, reading: Reading)
    requires o.coord.safeCode !in TIMEOUTS
    ensures Look(o, probe, reading).coord.safeCode !in TIMEOUTS
  {
    var status := if o.coord.owner.Some? then Some(probe) else None;
    OwnerCode(o.coord, status);
    var c := ObserveOwnerStatus(o.coord, status).0;
    JudgeCode(o.(coord := c, log := o.log + [Entry(c.phase, c.ownerState == OwnerRunning, reading)]), reading);
  }

  lemma VerdictIsNoTimeout(log: seq<Entry>)
    ensures Verdict(log) !in TIMEOUTS
  {}

  lemma EndCode(o: Observer, now: real, registration: Option<Registration>, control: Read<Control>,
                acceptProbe: ProcessStatus, probe: ProcessStatus, reading: Reading)
    requires o.coord.safeCode !in TIMEOUTS
    ensures EndPass(o, now, registration, control, acceptProbe, probe, reading).coord.safeCode !in TIMEOUTS
  {
    LookCode(o, probe, reading);
    if control.Content? && control.value.revision > o.coord.revision {
      var status := if registration.Some? then Some(acceptProbe) else None;
      var r := AcceptControl(o.coord, control.value, now, status);
      assert r.Raised? ==> r.code !in TIMEOUTS;
      if r.Done? {
        AcceptedEffect(o.coord, control.value, now, status);
        LookCode(o.(coord := if r.next.lifecycle == Armed then BeginObserving(r.next).next else r.next), probe,
                 reading);
      }
    }
  }

  // ----- The other reasons to return -----

  /** The first reading decides whether the observer starts at all. */
  lemma StartMeaning(nonce: string, startedAt: real, first: Reading, readyAt: real)
    ensures var o := Start(nonce, startedAt, first, readyAt);
            && o.log == [Entry(0, false, first)]
            && (o.result.None? <==> first.state == Absent)
            && (o.result.None? ==> o.coord.lifecycle == ReadyUnarmed && o.coord.readyAt == Some(readyAt))
            && (o.result.Some? ==> o.result == Some(2))
            && (first.state == Owned || first.state == Occupied ==> o.coord.safeCode == TargetOccupied)
            && (first.state == ReadError ==> o.coord.safeCode == ReadFailed)
  {}

  /** The pass begins before every deadline. */
  ghost predicate OnTime(o: Observer, p: Pass) {
    TimeoutCode(o.coord, p.now) == NotDue
  }

  /** An owner file that cannot be read, or names another owner than the registered one, ends the run; else the
      owner it names is registered from then on. */
  lemma OwnerFileMeaning(o: Observer, p: Pass)
    requires o.result.None? && OnTime(o, p) && o.coord.lifecycle in {ReadyUnarmed, Observing}
    ensures var n := OnePass(o, p);
            match p.ownerFile
            case Unreadable => n == Return2(o, ControlInvalid)
            case Content(None) => n.coord.owner == o.coord.owner
            case Content(Some(r)) =>
              if r.nonce != o.coord.nonce then n == Return2(o, NonceMismatch)
              else if o.coord.owner == Some(r) || (o.coord.owner.None? && o.coord.lifecycle == ReadyUnarmed) then
                n.coord.owner == Some(r)
              else n == Return2(o, OwnerRegistrationInvalid)
  {
    var b := BeginPass(o, p.now, p.ownerFile);
    if b.result.None? { EndKeepsOwner(b, p); }
  }

  lemma EndKeepsOwner(b: Observer, p: Pass)
    ensures EndPass(b, p.now, RegistrationRead(p.ownerFile), p.control, p.acceptProbe, p.probe, p.reading).coord.owner
         == b.coord.owner
  {
    LookKeepsOwner(b, p.probe, p.reading);
    if p.control.Content? && p.control.value.revision > b.coord.revision {
      var status := if RegistrationRead(p.ownerFile).Some? then Some(p.acceptProbe) else None;
      AcceptKeepsOwner(b.coord, p.control.value, p.now, status);
      var c := AcceptControl(b.coord, p.control.value, p.now, status).next;
      LookKeepsOwner(b.(coord := if c.lifecycle == Armed then BeginObserving(c).next else c), p.probe, p.reading);
    }
  }

  lemma LookKeepsOwner(o: Observer, probe: ProcessStatus, reading: Reading)
    ensures Look(o, probe, reading).coord.owner == o.coord.owner
  {}

  /** The owner file is read and agrees. */
  ghost predicate OwnerAgrees(o: Observer, p: Pass) {
    p.ownerFile == Content(None) || (o.coord.owner.Some? && p.ownerFile == Content(o.coord.owner)
                                     && o.coord.owner.value.nonce == o.coord.nonce)
  }

  lemma OwnerAgreesBegins(o: Observer, p: Pass)
    requires o.result.None? && OnTime(o, p) && OwnerAgrees(o, p)
    ensures BeginPass(o, p.now, p.ownerFile) == o
  {}

  /** A register that cannot be read, has gone back, or holds a message that is not accepted ends the run. */
  lemma RegisterMeaning(o: Observer, p: Pass)
    requires o.result.None? && OnTime(o, p) && OwnerAgrees(o, p)
    ensures p.control.Unreadable? ==> OnePass(o, p) == Return2(o, ControlInvalid)
    ensures p.control.Content? && p.control.value.revision < o.coord.revision ==>
      OnePass(o, p) == Return2(o, RevisionInvalid)
    ensures p.control.Content? && p.control.value.revision > o.coord.revision ==>
      var status := if p.ownerFile.value.Some? then Some(p.acceptProbe) else None;
      var r := AcceptControl(o.coord, p.control.value, p.now, status);
      r.Raised? ==>
        && OnePass(o, p).result == Some(2) && OnePass(o, p).coord.safeCode == r.code && OnePass(o, p).log == o.log
        && OnePass(o, p).coord.phase == o.coord.phase
  {
    OwnerAgreesBegins(o, p);
  }

  /** What an observer that looks at its owner and the value does: it returns 2 on an unacceptable owner, without
      an entry; else it logs one entry of its phase, and returns 2 on a foreign or unreadable value or after
      an abort, and at T9 by the verdict on the whole log. */
  lemma LookMeaning(o: Observer, probe: ProcessStatus, reading: Reading)
    requires o.result.None? && o.coord.lifecycle in {ReadyUnarmed, Observing, Finalizing}
    requires o.coord.safeCode == NoCode || o.coord.safeCode == ProbeAborted
    ensures var n := Look(o, probe, reading);
            var failure := ObserveOwnerStatus(o.coord, if o.coord.owner.Some? then Some(probe) else None).1;
            var entry := Entry(o.coord.phase, n.coord.ownerState == OwnerRunning, reading);
            var ends := o.coord.lifecycle == Finalizing;
            && (failure.Some? ==> n.log == o.log && n.result == Some(2) && n.coord.safeCode == failure.value)
            && (failure.None? ==>
                  && n.log == o.log + [entry]
                  && (reading.state == Occupied ==> n.result == Some(2) && n.coord.safeCode == OwnershipLost)
                  && (reading.state == ReadError ==> n.result == Some(2) && n.coord.safeCode == ReadFailed)
                  && (reading.state in {Absent, Owned} ==>
                        && (!ends ==> n.result == None && n.coord.safeCode == o.coord.safeCode)
                        && (ends && o.coord.safeCode == ProbeAborted ==>
                              n.result == Some(2) && n.coord.safeCode == ProbeAborted)
                        && (ends && o.coord.safeCode == NoCode && o.coord.phase == 9 ==>
                              n.coord.safeCode == Verdict(n.log)
                              && n.result == Some(if Verdict(n.log) == TimelineVerified then 0 else 2))))
  {
    var (c, failure) := ObserveOwnerStatus(o.coord, if o.coord.owner.Some? then Some(probe) else None);
    assert c.lifecycle == o.coord.lifecycle && c.safeCode == o.coord.safeCode && c.phase == o.coord.phase;
  }

  /** A pass that finds nothing new, or a message that it accepts, looks once. */
  lemma PassLooks(o: Observer, p: Pass)
    requires o.result.None? && OnTime(o, p) && OwnerAgrees(o, p) && p.control.Content?
    ensures p.control.value.revision == o.coord.revision ==> OnePass(o, p) == Look(o, p.probe, p.reading)
    ensures p.control.value.revision > o.coord.revision ==>
      var status := if p.ownerFile.value.Some? then Some(p.acceptProbe) else None;
      var r := AcceptControl(o.coord, p.control.value, p.now, status);
      r.Done? ==>
        OnePass(o, p) == Look(o.(coord := r.next.(lifecycle := if r.next.lifecycle == Armed then Observing
                                                               else r.next.lifecycle)), p.probe, p.reading)
  {
    OwnerAgreesBegins(o, p);
  }
}
