/** The lifecycle, revision and deadline coordinator of the autostart timeline observer.

    `Coord` is the value of a `ProbeCoordinator` object. The functions on it say what each of the
    object's methods does, including the state that a raising method leaves behind; the class in
    module `TimelineCoordinatorObject` updates its fields in place and is proved against them. */
module TimelineCoordinator {
  import opened Wrappers

  const POLL_INTERVAL_SECONDS: real := 0.2
  const FINAL_PHASE: Phase := 9
  const BEFORE_SHUTDOWN_PHASE: Phase := 7

  /** Index into the ten phase names, T0 to T9-final. */
  type Phase = p: int | 0 <= p < 10

  datatype ValueState = Absent | Owned | Occupied | ReadError

  datatype Lifecycle = Initializing | ReadyUnarmed | Armed | Observing | Finalizing | Completed | Failed

  datatype OwnerState = NotRegistered | OwnerRunning | OwnerExited | IdentityLost | TerminalUnverified

  datatype ProcessState = Running | Exited | PidReused | NotFound | Inaccessible | QueryFailed

  /** The part of a process status that the coordinator decides on. */
  datatype ProcessStatus = ProcessStatus(state: ProcessState, creationMatches: bool, exitCode: Option<int>)

  datatype TerminalConditions = TerminalConditions(
    supervisorCompleted: bool,
    supervisorIdentityMatched: bool,
    ownerExitCode: int,
    ownerCheckpointClosed: bool,
    tcpEndpointCount: int,
    forcedTermination: bool,
    toggleCommandCount: int,
    trayMenuActivationCount: int,
    petMenuActivationCount: int,
    secondaryCreationCount: int)
  {
    predicate Verified() {
      && supervisorCompleted
      && supervisorIdentityMatched
      && ownerExitCode == 0
      && ownerCheckpointClosed
      && tcpEndpointCount == 0
      && !forcedTermination
      && toggleCommandCount == 1
      && trayMenuActivationCount == 0
      && petMenuActivationCount == 0
      && secondaryCreationCount == 0
    }
  }

  datatype Control = Control(
    nonce: string,
    revision: nat,
    expectedPrevious: Option<Phase>,
    phase: Phase,
    stop: bool,
    abort: bool,
    terminal: Option<TerminalConditions>)

  datatype Registration = Registration(nonce: string, processId: nat, identity: string)

  datatype SafeCode =
    | NoCode
    | NonceMismatch
    | LifecycleInvalid
    | OwnerRegistrationInvalid
    | RevisionInvalid
    | SequenceInvalid
    | AbortInvalid
    | StopInvalid
    | TerminalConditionsInvalid
    | OwnerMissing
    | OwnerExitedEarly
    | OwnerIdentityLost
    | OwnerStatusInvalid
    | OwnerTerminalUnverified
    | OwnerInaccessible
    | OwnerQueryFailed
    | TotalTimeout
    | ReadyTimeout
    | ActiveTimeout
    | StageTimeout
    | ProbeAborted
    | ControlInvalid
    | TargetOccupied
    | ReadFailed
    | OwnershipLost
    | NeverPersisted
    | RemovedAfterExit
    | RemovedDuringShutdown
    | RemovedDuringRuntime
    | Incomplete
    | ProbeTimeout
    | TimelineVerified

  datatype Limits = Limits(ready: real, active: real, lease: real, total: real)

  const DEFAULT_LIMITS := Limits(3600.0, 5400.0, 1800.0, 10800.0)

  datatype Coord = Coord(
    nonce: string,
    startedAt: real,
    limits: Limits,
    lifecycle: Lifecycle,
    phase: Phase,
    revision: nat,
    readyAt: Option<real>,
    activeStartedAt: Option<real>,
    leaseStartedAt: Option<real>,
    owner: Option<Registration>,
    ownerState: OwnerState,
    ownerStatus: Option<ProcessStatus>,
    fallbackVerified: bool,
    safeCode: SafeCode)

  /** What a coordinator method leaves behind: a raising method may still have changed a field. */
  datatype Outcome = Done(next: Coord) | Raised(next: Coord, code: SafeCode)

  datatype Deadline = NotDue | Due(code: SafeCode) | DeadlineRaises(code: SafeCode)

  predicate ValidNonce(nonce: string) {
    |nonce| == 32 && forall i :: 0 <= i < |nonce| ==> nonce[i] in "0123456789abcdef"
  }

  function NewCoord(nonce: string, startedAt: real, limits: Limits): Coord {
    Coord(nonce, startedAt, limits, Initializing, 0, 0, None, None, None, None, NotRegistered, None, false, NoCode)
  }

  function MarkReady(c: Coord, now: real): Outcome {
    if c.lifecycle != Initializing then Raised(c, LifecycleInvalid)
    else Done(c.(readyAt := Some(now), lifecycle := ReadyUnarmed))
  }

  function RegisterOwner(c: Coord, registration: Registration): Outcome {
    if registration.nonce != c.nonce then Raised(c, NonceMismatch)
    else if c.owner == Some(registration) then Done(c)
    else if c.lifecycle != ReadyUnarmed || c.owner.Some? then Raised(c, OwnerRegistrationInvalid)
    else Done(c.(owner := Some(registration), ownerState := OwnerRunning))
  }

  predicate DirectTerminal(status: Option<ProcessStatus>) {
    status.Some? && status.value.state == Exited && status.value.creationMatches && status.value.exitCode == Some(0)
  }

  predicate SupervisorTerminal(status: Option<ProcessStatus>, terminal: Option<TerminalConditions>) {
    && status.Some? && status.value.state == NotFound
    && terminal.Some? && terminal.value.supervisorIdentityMatched && terminal.value.ownerExitCode == 0
  }

  /** The evidence that lets the final phase be accepted. */
  predicate FinalEvidence(status: Option<ProcessStatus>, terminal: Option<TerminalConditions>) {
    && (DirectTerminal(status) || SupervisorTerminal(status, terminal))
    && terminal.Some? && terminal.value.Verified()
  }

  function AcceptControl(c: Coord, m: Control, now: real, status: Option<ProcessStatus>): Outcome {
    if c.lifecycle in {Completed, Failed, Finalizing} then Raised(c, LifecycleInvalid)
    else if m.nonce != c.nonce then Raised(c, NonceMismatch)
    else if m.revision != c.revision + 1 then Raised(c, RevisionInvalid)
    else if m.expectedPrevious != Some(c.phase) then Raised(c, SequenceInvalid)
    else if m.abort then AcceptAbort(c, m, now)
    else if c.phase == FINAL_PHASE || m.phase != c.phase + 1 then Raised(c, SequenceInvalid)
    else if m.stop != (m.phase == FINAL_PHASE) then Raised(c, StopInvalid)
    else if m.phase != FINAL_PHASE && m.terminal.Some? then Raised(c, TerminalConditionsInvalid)
    else if m.phase == 1 then AcceptFirst(c, m, now, status)
    else if m.phase == FINAL_PHASE then AcceptFinal(c, m, now, status)
    else Done(c.(phase := m.phase, revision := m.revision, leaseStartedAt := Some(now), lifecycle := Observing))
  }

  function AcceptAbort(c: Coord, m: Control, now: real): Outcome {
    if m.phase != c.phase || m.stop || m.terminal.Some? then Raised(c, AbortInvalid)
    else Done(c.(revision := m.revision, leaseStartedAt := Some(now), safeCode := ProbeAborted,
                 lifecycle := Finalizing))
  }

  function AcceptFirst(c: Coord, m: Control, now: real, status: Option<ProcessStatus>): Outcome {
    if c.owner.None? then Raised(c, OwnerMissing)
    else if status.None? || status.value.state == NotFound then Raised(c.(ownerState := OwnerExited), OwnerExitedEarly)
    else if status.value.state == PidReused then Raised(c.(ownerState := IdentityLost), OwnerIdentityLost)
    else if status.value.state != Running then Raised(c, OwnerStatusInvalid)
    else Done(c.(phase := 1, revision := m.revision, leaseStartedAt := Some(now),
                 activeStartedAt := Some(now), lifecycle := Armed))
  }

  function AcceptFinal(c: Coord, m: Control, now: real, status: Option<ProcessStatus>): Outcome {
    if !FinalEvidence(status, m.terminal) then Raised(c, OwnerTerminalUnverified)
    else Done(c.(phase := FINAL_PHASE, revision := m.revision, leaseStartedAt := Some(now),
                 fallbackVerified := SupervisorTerminal(status, m.terminal),
                 ownerState := OwnerExited, lifecycle := Finalizing))
  }

  function BeginObserving(c: Coord): Outcome {
    if c.lifecycle != Armed then Raised(c, LifecycleInvalid) else Done(c.(lifecycle := Observing))
  }

  /** The new state and, if the owner is not acceptable, the failure code. */
  function ObserveOwnerStatus(c: Coord, status: Option<ProcessStatus>): (Coord, Option<SafeCode>) {
    if c.owner.None? then (c, None)
    else
      var c := c.(ownerStatus := status);
      if status.None? then (c, Some(OwnerQueryFailed))
      else match status.value.state
        case Running => (c.(ownerState := OwnerRunning), None)
        case PidReused => (c.(ownerState := IdentityLost), Some(OwnerIdentityLost))
        case Exited =>
          (c.(ownerState := OwnerExited), if c.phase < BEFORE_SHUTDOWN_PHASE then Some(OwnerExitedEarly) else None)
        case NotFound =>
          if c.phase < BEFORE_SHUTDOWN_PHASE then (c, Some(OwnerExitedEarly))
          else (c.(ownerState := if c.fallbackVerified then OwnerExited else TerminalUnverified), None)
        case Inaccessible => (c, Some(OwnerInaccessible))
        case QueryFailed => (c, Some(OwnerQueryFailed))
  }

  function TimeoutCode(c: Coord, now: real): Deadline {
    if now - c.startedAt >= c.limits.total then Due(TotalTimeout)
    else if c.lifecycle == ReadyUnarmed then
      if c.readyAt.None? then DeadlineRaises(LifecycleInvalid)
      else if now - c.readyAt.value >= c.limits.ready then Due(ReadyTimeout)
      else NotDue
    else if c.lifecycle in {Armed, Observing} then
      if c.activeStartedAt.None? || c.leaseStartedAt.None? then DeadlineRaises(LifecycleInvalid)
      else if now - c.activeStartedAt.value >= c.limits.active then Due(ActiveTimeout)
      else if now - c.leaseStartedAt.value >= c.limits.lease then Due(StageTimeout)
      else NotDue
    else NotDue
  }

  function Fail(c: Coord, code: SafeCode): Coord {
    c.(safeCode := code, lifecycle := Failed)
  }

  function Complete(c: Coord): Coord {
    c.(safeCode := TimelineVerified, lifecycle := Completed)
  }

  // ----- Every reachable state -----

  /** What every call keeps: `aborted` says that some accepted message was an abort. */
  ghost predicate Coherent(c: Coord, aborted: bool) {
    && c.revision == c.phase + (if aborted then 1 else 0)
    && (c.phase > 0 ==> c.owner.Some? && c.activeStartedAt.Some? && c.leaseStartedAt.Some?)
    && (if c.owner.Some? then c.owner.value.nonce == c.nonce else c.ownerState == NotRegistered)
    && match c.lifecycle
       case Initializing => c.phase == 0 && !aborted && c.owner.None? && c.safeCode == NoCode
       case ReadyUnarmed => c.phase == 0 && !aborted && c.readyAt.Some? && c.safeCode == NoCode
       case Armed => c.phase == 1 && !aborted && c.safeCode == NoCode
       case Observing => 1 <= c.phase < FINAL_PHASE && !aborted && c.safeCode == NoCode
       case Finalizing => if aborted then c.safeCode == ProbeAborted else c.phase == FINAL_PHASE && c.safeCode == NoCode
       case Completed => true
       case Failed => true
  }

  datatype Call =
    | CallMarkReady(now: real)
    | CallRegister(registration: Registration)
    | CallAccept(m: Control, now: real, status: Option<ProcessStatus>)
    | CallBegin
    | CallObserve(ownerStatus: Option<ProcessStatus>)
    | CallFail(code: SafeCode)
    | CallComplete

  function Apply(c: Coord, call: Call): Outcome {
    match call
    case CallMarkReady(now) => MarkReady(c, now)
    case CallRegister(registration) => RegisterOwner(c, registration)
    case CallAccept(m, now, status) => AcceptControl(c, m, now, status)
    case CallBegin => BeginObserving(c)
    case CallObserve(status) => Done(ObserveOwnerStatus(c, status).0)
    case CallFail(code) => Done(Fail(c, code))
    case CallComplete => Done(Complete(c))
  }

  predicate AcceptsAbort(c: Coord, call: Call) {
    call.CallAccept? && call.m.abort && Apply(c, call).Done?
  }

  function ApplyAll(c: Coord, calls: seq<Call>): Coord {
    if calls == [] then c else Apply(ApplyAll(c, calls[..|calls| - 1]), calls[|calls| - 1]).next
  }

  ghost predicate AbortAccepted(c: Coord, calls: seq<Call>) {
    exists i :: 0 <= i < |calls| && AcceptsAbort(ApplyAll(c, calls[..i]), calls[i])
  }

  lemma AcceptKeepsCoherent(c: Coord, aborted: bool, m: Control, now: real, status: Option<ProcessStatus>)
    requires Coherent(c, aborted)
    ensures var r := AcceptControl(c, m, now, status);
            && Coherent(r.next, aborted || (m.abort && r.Done?))
            && (r.Done? ==> !aborted)
  {
    if c.lifecycle !in {Completed, Failed, Finalizing} {
      assert !aborted && c.revision == c.phase;
    }
  }

  lemma RegisterKeepsCoherent(c: Coord, aborted: bool, registration: Registration)
    requires Coherent(c, aborted)
    ensures Coherent(RegisterOwner(c, registration).next, aborted)
  {}

  lemma ObserveKeepsCoherent(c: Coord, aborted: bool, status: Option<ProcessStatus>)
    requires Coherent(c, aborted)
    ensures Coherent(ObserveOwnerStatus(c, status).0, aborted)
  {}

  /** One call, raising or not, keeps the invariant. */
  lemma ApplyKeepsCoherent(c: Coord, aborted: bool, call: Call)
    requires Coherent(c, aborted)
    ensures Coherent(Apply(c, call).next, aborted || AcceptsAbort(c, call))
    ensures AcceptsAbort(c, call) ==> !aborted
  {
    match call
    case CallAccept(m, now, status) => AcceptKeepsCoherent(c, aborted, m, now, status);
    case CallRegister(registration) => RegisterKeepsCoherent(c, aborted, registration);
    case CallObserve(status) => ObserveKeepsCoherent(c, aborted, status);
    case _ =>
  }

  lemma CoherentNeverRaises(c: Coord, aborted: bool, now: real)
    requires Coherent(c, aborted)
    ensures !TimeoutCode(c, now).DeadlineRaises?
  {}

  lemma AbortAcceptedStep(c: Coord, calls: seq<Call>, last: Call)
    ensures ApplyAll(c, calls + [last]) == Apply(ApplyAll(c, calls), last).next
    ensures AbortAccepted(c, calls + [last]) <==> AbortAccepted(c, calls) || AcceptsAbort(ApplyAll(c, calls), last)
  {
    var all := calls + [last];
    assert all[..|calls|] == calls;
    forall i | 0 <= i < |calls| ensures all[..i] == calls[..i] {}
    if AbortAccepted(c, calls) {
      var i :| 0 <= i < |calls| && AcceptsAbort(ApplyAll(c, calls[..i]), calls[i]);
      assert AcceptsAbort(ApplyAll(c, all[..i]), all[i]);
    }
    if AcceptsAbort(ApplyAll(c, calls), last) {
      assert AcceptsAbort(ApplyAll(c, all[..|calls|]), all[|calls|]);
    }
  }

  /** After any sequence of calls on a new coordinator, raising or not, the revision is the phase index,
      or one more exactly when an abort was accepted; a phase past T0 has an owner and both deadlines,
      and asking for a timeout never raises. */
  lemma {:induction false} ReachableCoordinator(nonce: string, startedAt: real, limits: Limits, calls: seq<Call>,
                                                now: real)
    ensures var c0 := NewCoord(nonce, startedAt, limits);
            var c := ApplyAll(c0, calls);
            && Coherent(c, AbortAccepted(c0, calls))
            && c.revision == c.phase + (if AbortAccepted(c0, calls) then 1 else 0)
            && (c.phase > 0 ==> c.owner.Some? && c.activeStartedAt.Some? && c.leaseStartedAt.Some?)
            && !TimeoutCode(c, now).DeadlineRaises?
  {
    var c0 := NewCoord(nonce, startedAt, limits);
    if calls != [] {
      var before, last := calls[..|calls| - 1], calls[|calls| - 1];
      assert calls == before + [last];
      ReachableCoordinator(nonce, startedAt, limits, before, now);
      ApplyKeepsCoherent(ApplyAll(c0, before), AbortAccepted(c0, before), last);
      AbortAcceptedStep(c0, before, last);
    }
    CoherentNeverRaises(ApplyAll(c0, calls), AbortAccepted(c0, calls), now);
  }

  /** A rejected control message changes at most the recorded owner state. */
  lemma RejectedControlChangesNothing(c: Coord, m: Control, now: real, status: Option<ProcessStatus>)
    ensures var r := AcceptControl(c, m, now, status);
            r.Raised? ==> r.next == c.(ownerState := r.next.ownerState)
                          && (r.next.ownerState != c.ownerState ==> r.code in {OwnerExitedEarly, OwnerIdentityLost})
  {}

  /** An accepted message is exactly the next one: its revision and phase follow the coordinator's. */
  lemma AcceptedControlIsNext(c: Coord, m: Control, now: real, status: Option<ProcessStatus>)
    requires Coherent(c, false)
    ensures var r := AcceptControl(c, m, now, status);
            r.Done? ==>
              && m.revision == c.revision + 1 == r.next.revision
              && m.expectedPrevious == Some(c.phase)
              && r.next.phase == m.phase
              && (if m.abort then m.phase == c.phase else m.phase == c.phase + 1)
              && (m.phase == FINAL_PHASE && !m.abort ==> m.stop && FinalEvidence(status, m.terminal))
  {}
}
