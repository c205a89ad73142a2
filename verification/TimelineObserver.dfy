/** The polling observer: one pass as a function of what it reads, the loop, and its time bound. */
module TimelineObserver {
  import opened Wrappers
  import opened TimelineCoordinator
  import opened TimelineLog
  import opened TimelineCoordinatorObject
  import opened TimelineTrackerObject

  /** A file read: unreadable or malformed, or its content. */
  datatype Read<+T> = Unreadable | Content(value: T)

  /** The observer between passes; `result` is its exit status once it has returned. */
  datatype Observer = Observer(coord: Coord, log: seq<Entry>, result: Option<int>)

  /** Everything one pass takes from its surroundings. The first probe is used only when a new control
      message is read, the second only when an owner is registered. */
  datatype Pass = Pass(
    now: real,
    ownerFile: Read<Option<Registration>>,
    control: Read<Control>,
    acceptProbe: ProcessStatus,
    probe: ProcessStatus,
    reading: Reading)

  function Return2(o: Observer, code: SafeCode): Observer {
    o.(coord := Fail(o.coord, code), result := Some(2))
  }

  function FirstFailure(state: ValueState): SafeCode {
    if state in {Owned, Occupied} then TargetOccupied else ReadFailed
  }

  function Start(nonce: string, startedAt: real, first: Reading, readyAt: real): Observer {
    var o := Observer(NewCoord(nonce, startedAt, DEFAULT_LIMITS), [Entry(0, false, first)], None);
    if first.state != Absent then Return2(o, FirstFailure(first.state))
    else o.(coord := MarkReady(o.coord, readyAt).next)
  }

  /** The first half of a pass: deadlines, then the owner file. */
  function BeginPass(o: Observer, now: real, ownerFile: Read<Option<Registration>>): Observer {
    match TimeoutCode(o.coord, now)
    case Due(code) => Return2(o, code)
    case DeadlineRaises(code) => Return2(o, code)
    case NotDue =>
      match ownerFile
      case Unreadable => Return2(o, ControlInvalid)
      case Content(None) => o
      case Content(Some(registration)) =>
        match RegisterOwner(o.coord, registration)
        case Raised(c, code) => Return2(o.(coord := c), code)
        case Done(c) => o.(coord := c)
  }

  /** The second half: the control register, then the owner, then the registry value. */
  function EndPass(o: Observer, now: real, registration: Option<Registration>, control: Read<Control>,
                   acceptProbe: ProcessStatus, probe: ProcessStatus, reading: Reading): Observer
  {
    match control
    case Unreadable => Return2(o, ControlInvalid)
    case Content(m) =>
      if m.revision < o.coord.revision then Return2(o, RevisionInvalid)
      else if m.revision == o.coord.revision then Look(o, probe, reading)
      else
        match AcceptControl(o.coord, m, now, if registration.Some? then Some(acceptProbe) else None)
        case Raised(c, code) => Return2(o.(coord := c), code)
        case Done(c) => Look(o.(coord := if c.lifecycle == Armed then BeginObserving(c).next else c), probe, reading)
  }

  function Look(o: Observer, probe: ProcessStatus, reading: Reading): Observer {
    var (c, failure) := ObserveOwnerStatus(o.coord, if o.coord.owner.Some? then Some(probe) else None);
    if failure.Some? then Return2(o.(coord := c), failure.value)
    else
      Judge(o.(coord := c, log := o.log + [Entry(c.phase, c.ownerState == OwnerRunning, reading)]), reading)
  }

  /** Whether the pass returns, once the observation is logged. */
  function Judge(o: Observer, reading: Reading): Observer {
    if reading.state == Occupied then Return2(o, OwnershipLost)
    else if reading.state == ReadError then Return2(o, ReadFailed)
    else if o.coord.lifecycle == Finalizing && o.coord.safeCode == ProbeAborted then Return2(o, ProbeAborted)
    else if o.coord.lifecycle == Finalizing && o.coord.phase == FINAL_PHASE then
      if Verdict(o.log) == TimelineVerified then o.(coord := Complete(o.coord), result := Some(0))
      else Return2(o, Verdict(o.log))
    else o
  }

  function RegistrationRead(ownerFile: Read<Option<Registration>>): Option<Registration> {
    if ownerFile.Content? then ownerFile.value else None
  }

  function OnePass(o: Observer, p: Pass): Observer {
    var begun := BeginPass(o, p.now, p.ownerFile);
    if begun.result.Some? then begun
    else EndPass(begun, p.now, RegistrationRead(p.ownerFile), p.control, p.acceptProbe, p.probe, p.reading)
  }

  /** The observer after as many of the passes as it makes before returning. */
  function Observed(o: Observer, passes: seq<Pass>): Observer {
    if passes == [] then o
    else
      var before := Observed(o, passes[..|passes| - 1]);
      if before.result.Some? then before else OnePass(before, passes[|passes| - 1])
  }

  // ----- The loop -----

  lemma ObservedStep(o: Observer, passes: seq<Pass>, k: nat)
    requires k < |passes|
    ensures var before := Observed(o, passes[..k]);
            Observed(o, passes[..k + 1]) == if before.result.Some? then before else OnePass(before, passes[k])
  {
    assert passes[..k + 1][..k] == passes[..k];
  }

  lemma {:induction false} ReturnedStaysReturned(o: Observer, passes: seq<Pass>, k: nat)
    requires k <= |passes| && Observed(o, passes[..k]).result.Some?
    ensures Observed(o, passes) == Observed(o, passes[..k])
    decreases |passes| - k
  {
    if k == |passes| {
      assert passes[..k] == passes;
    } else {
      ObservedStep(o, passes, k);
      ReturnedStaysReturned(o, passes, k + 1);
    }
  }

  /** The observer, run against a sequence of passes: the exit status, or nothing if it is still polling
      after the last of them, and the raw observation log. An invalid nonce raises, which the command
      line turns into exit status 2. */
  method RunObserver(nonce: string, startedAt: real, first: Reading, readyAt: real, passes: seq<Pass>)
    returns (result: Option<int>, code: SafeCode, phase: Phase, ghost log: seq<Entry>)
    ensures !ValidNonce(nonce) ==> result == Some(2) && code == NonceMismatch
    ensures ValidNonce(nonce) ==>
      var o := Observed(Start(nonce, startedAt, first, readyAt), passes);
      o.result == result && o.coord.safeCode == code && o.coord.phase == phase && o.log == log
  {
    var coordinator, invalid := CreateCoordinator(nonce, startedAt, DEFAULT_LIMITS);
    if coordinator == null { return Some(2), invalid.value, 0, []; }
    ghost var start := Start(nonce, startedAt, first, readyAt);
    var tracker := new TimelineTracker();
    var record := tracker.Observe(0, false, first);
    if first.state != Absent {
      coordinator.Fail(FirstFailure(first.state));
      ReturnedStaysReturned(start, passes, 0);
      return Some(2), coordinator.safeCode, coordinator.phase, tracker.log;
    }
    var error := coordinator.MarkReady(readyAt);
    result := None;
    var k := 0;
    while k < |passes| && result.None?
      invariant 0 <= k <= |passes|
      invariant coordinator.Valid() && tracker.Valid()
      invariant fresh(coordinator) && fresh(tracker)
      invariant Observed(start, passes[..k]) == Observer(coordinator.View(), tracker.log, result)
      decreases |passes| - k
    {
      ObservedStep(start, passes, k);
      result := PollOnce(coordinator, tracker, passes[k]);
      k := k + 1;
    }
    if result.Some? {
      ReturnedStaysReturned(start, passes, k);
    } else {
      assert passes[..k] == passes;
    }
    code, phase, log := coordinator.safeCode, coordinator.phase, tracker.log;
  }

  /** The loop body: the exit status if this pass returns. */
  method PollOnce(coordinator: ProbeCoordinator, tracker: TimelineTracker, p: Pass) returns (result: Option<int>)
    requires coordinator.Valid() && tracker.Valid()
    modifies coordinator, tracker
    ensures coordinator.Valid() && tracker.Valid()
    ensures Observer(coordinator.View(), tracker.log, result)
         == OnePass(Observer(old(coordinator.View()), old(tracker.log), None), p)
  {
    var due := coordinator.TimeoutCode(p.now);
    if due.Some? {
      coordinator.Fail(due.value);
      return Some(2);
    }
    var error: Option<SafeCode> := None;
    if p.ownerFile.Unreadable? {
      error := Some(ControlInvalid);
    } else if p.ownerFile.value.Some? {
      error := coordinator.RegisterOwner(p.ownerFile.value.value);
    }
    if error.None? {
      error := ReadControl(coordinator, p);
    }
    if error.Some? {
      coordinator.Fail(error.value);
      return Some(2);
    }
    result := LookOnce(coordinator, tracker, p.probe, p.reading);
  }

  /** Reads the register and accepts a new message; the code is that of the error raised, if any. */
  method ReadControl(coordinator: ProbeCoordinator, p: Pass) returns (error: Option<SafeCode>)
    requires coordinator.Valid()
    modifies coordinator
    ensures coordinator.Valid()
    ensures forall log, probe, reading ::
      EndPass(Observer(old(coordinator.View()), log, None), p.now, RegistrationRead(p.ownerFile), p.control,
              p.acceptProbe, probe, reading)
      == if error.Some? then Return2(Observer(coordinator.View(), log, None), error.value)
         else Look(Observer(coordinator.View(), log, None), probe, reading)
  {
    if p.control.Unreadable? { return Some(ControlInvalid); }
    var m := p.control.value;
    if m.revision < coordinator.revision { return Some(RevisionInvalid); }
    if m.revision == coordinator.revision { return None; }
    var status := if RegistrationRead(p.ownerFile).Some? then Some(p.acceptProbe) else None;
    error := coordinator.AcceptControl(m, p.now, status);
    if error.None? && coordinator.lifecycle == Armed {
      error := coordinator.BeginObserving();
    }
  }

  /** Probes the owner, queries the value and decides whether to return. */
  method LookOnce(coordinator: ProbeCoordinator, tracker: TimelineTracker, probe: ProcessStatus, reading: Reading)
    returns (result: Option<int>)
    requires coordinator.Valid() && tracker.Valid()
    modifies coordinator, tracker
    ensures coordinator.Valid() && tracker.Valid()
    ensures Observer(coordinator.View(), tracker.log, result)
         == Look(Observer(old(coordinator.View()), old(tracker.log), None), probe, reading)
  {
    var failure := coordinator.ObserveOwnerStatus(if coordinator.owner.Some? then Some(probe) else None);
    if failure.Some? {
      coordinator.Fail(failure.value);
      return Some(2);
    }
    var record := tracker.Observe(coordinator.phase, coordinator.ownerState == OwnerRunning, reading);
    if reading.state == Occupied || reading.state == ReadError {
      coordinator.Fail(if reading.state == Occupied then OwnershipLost else ReadFailed);
      return Some(2);
    }
    if coordinator.lifecycle == Finalizing && coordinator.safeCode == ProbeAborted {
      coordinator.Fail(coordinator.safeCode);
      return Some(2);
    }
    if coordinator.lifecycle == Finalizing && coordinator.phase == FINAL_PHASE {
      var candidate := tracker.Summarize(false, None);
      if candidate.code == TimelineVerified {
        coordinator.Complete();
      } else {
        coordinator.Fail(candidate.code);
      }
      var summary := tracker.Summarize(false, Some(coordinator.safeCode));
      return if summary.code == TimelineVerified then Some(0) else Some(2);
    }
    result := None;
  }

  // ----- The time bound -----

  const MAX_PASSES := 54001

  /** Each pass starts at least a poll interval after the one before, and the first not before the start. */
  ghost predicate ClockAdvances(startedAt: real, passes: seq<Pass>) {
    && (passes != [] ==> passes[0].now >= startedAt)
    && forall i :: 0 < i < |passes| ==> passes[i].now >= passes[i - 1].now + POLL_INTERVAL_SECONDS
  }

  lemma {:induction false} ClockLowerBound(startedAt: real, passes: seq<Pass>, k: nat)
    requires ClockAdvances(startedAt, passes) && k < |passes|
    ensures passes[k].now >= startedAt + (k as real) * POLL_INTERVAL_SECONDS
  {
    if k > 0 {
      ClockLowerBound(startedAt, passes, k - 1);
    }
  }

  ghost predicate SameLimits(c: Coord, d: Coord) {
    c.startedAt == d.startedAt && c.limits == d.limits
  }

  lemma LookKeepsLimits(o: Observer, probe: ProcessStatus, reading: Reading)
    ensures SameLimits(o.coord, Look(o, probe, reading).coord)
  {}

  lemma EndPassKeepsLimits(o: Observer, p: Pass)
    ensures SameLimits(o.coord, EndPass(o, p.now, RegistrationRead(p.ownerFile), p.control, p.acceptProbe, p.probe,
                                        p.reading).coord)
  {
    LookKeepsLimits(o, p.probe, p.reading);
    if p.control.Content? {
      var status := if RegistrationRead(p.ownerFile).Some? then Some(p.acceptProbe) else None;
      var c := AcceptControl(o.coord, p.control.value, p.now, status).next;
      assert SameLimits(o.coord, c);
      LookKeepsLimits(o.(coord := if c.lifecycle == Armed then BeginObserving(c).next else c), p.probe, p.reading);
    }
  }

  /** No pass changes the start time or the limits. */
  lemma OnePassKeepsLimits(o: Observer, p: Pass)
    ensures SameLimits(o.coord, OnePass(o, p).coord)
  {
    EndPassKeepsLimits(BeginPass(o, p.now, p.ownerFile), p);
  }

  lemma {:induction false} ObservedKeepsLimits(o: Observer, passes: seq<Pass>)
    ensures SameLimits(o.coord, Observed(o, passes).coord)
  {
    if passes != [] {
      ObservedKeepsLimits(o, passes[..|passes| - 1]);
      OnePassKeepsLimits(Observed(o, passes[..|passes| - 1]), passes[|passes| - 1]);
    }
  }

  /** Whatever the register, the probe and the registry do, the observer has returned after 54001 passes. */
  lemma ObserverReturnsInTime(nonce: string, startedAt: real, first: Reading, readyAt: real, passes: seq<Pass>)
    requires ClockAdvances(startedAt, passes) && |passes| >= MAX_PASSES
    ensures Observed(Start(nonce, startedAt, first, readyAt), passes).result.Some?
  {
    var o := Start(nonce, startedAt, first, readyAt);
    var last := MAX_PASSES - 1;
    var before := Observed(o, passes[..last]);
    ObservedStep(o, passes, last);
    ObservedKeepsLimits(o, passes[..last]);
    ClockLowerBound(startedAt, passes, last);
    assert TimeoutCode(before.coord, passes[last].now) == Due(TotalTimeout);
    ReturnedStaysReturned(o, passes, last + 1);
  }
}
