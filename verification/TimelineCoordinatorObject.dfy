/** The coordinator object: the same steps as `TimelineCoordinator`, updating fields in place. */
module TimelineCoordinatorObject {
  import opened Wrappers
  import opened TimelineCoordinator

  class ProbeCoordinator {
    const nonce: string
    const startedAt: real
    const limits: Limits
    var lifecycle: Lifecycle
    var phase: Phase
    var revision: nat
    var readyAt: Option<real>
    var activeStartedAt: Option<real>
    var leaseStartedAt: Option<real>
    var owner: Option<Registration>
    var ownerState: OwnerState
    var ownerStatus: Option<ProcessStatus>
    var fallbackVerified: bool
    var safeCode: SafeCode
    ghost var abortAccepted: bool

    ghost function View(): Coord
      reads this
    {
      Coord(nonce, startedAt, limits, lifecycle, phase, revision, readyAt, activeStartedAt, leaseStartedAt,
            owner, ownerState, ownerStatus, fallbackVerified, safeCode)
    }

    ghost predicate Valid()
      reads this
    {
      Coherent(View(), abortAccepted)
    }

    constructor (nonce: string, startedAt: real, limits: Limits)
      ensures Valid() && !abortAccepted
      ensures View() == NewCoord(nonce, startedAt, limits)
    {
      this.nonce, this.startedAt, this.limits := nonce, startedAt, limits;
      lifecycle, phase, revision := Initializing, 0, 0;
      readyAt, activeStartedAt, leaseStartedAt := None, None, None;
      owner, ownerState, ownerStatus, fallbackVerified := None, NotRegistered, None, false;
      safeCode := NoCode;
      abortAccepted := false;
    }

    method MarkReady(now: real) returns (error: Option<SafeCode>)
      requires Valid()
      modifies this
      ensures Valid() && abortAccepted == old(abortAccepted)
      ensures Reports(TimelineCoordinator.MarkReady(old(View()), now), error)
    {
      if lifecycle != Initializing { return Some(LifecycleInvalid); }
      readyAt := Some(now);
      lifecycle := ReadyUnarmed;
      error := None;
    }

    /** The method ended as the specification says: same state, and raised exactly its code. */
    ghost predicate Reports(outcome: Outcome, error: Option<SafeCode>)
      reads this
    {
      View() == outcome.next && error == (if outcome.Done? then None else Some(outcome.code))
    }

    method RegisterOwner(registration: Registration) returns (error: Option<SafeCode>)
      requires Valid()
      modifies this
      ensures Valid() && abortAccepted == old(abortAccepted)
      ensures Reports(TimelineCoordinator.RegisterOwner(old(View()), registration), error)
    {
      if registration.nonce != nonce { return Some(NonceMismatch); }
      if owner == Some(registration) { return None; }
      if lifecycle != ReadyUnarmed { return Some(OwnerRegistrationInvalid); }
      if owner.Some? { return Some(OwnerRegistrationInvalid); }
      owner := Some(registration);
      ownerState := OwnerRunning;
      error := None;
    }

    method AcceptControl(m: Control, now: real, status: Option<ProcessStatus>) returns (error: Option<SafeCode>)
      requires Valid()
      modifies this
      ensures Valid()
      ensures Reports(TimelineCoordinator.AcceptControl(old(View()), m, now, status), error)
      ensures abortAccepted == (old(abortAccepted) || (m.abort && error.None?))
    {
      AcceptKeepsCoherent(View(), abortAccepted, m, now, status);
      error := MessageError(m);
      if error.Some? { return; }
      if m.abort {
        revision, leaseStartedAt, safeCode, lifecycle := m.revision, Some(now), ProbeAborted, Finalizing;
        abortAccepted := true;
        return;
      }
      if m.phase == 1 {
        error := AcceptFirstPhase(m, now, status);
      } else if m.phase == FINAL_PHASE {
        error := AcceptFinalPhase(m, now, status);
      } else {
        phase, revision, leaseStartedAt, lifecycle := m.phase, m.revision, Some(now), Observing;
      }
    }

    /** The checks of a message that change nothing. */
    function MessageError(m: Control): Option<SafeCode>
      reads this
    {
      if lifecycle in {Completed, Failed, Finalizing} then Some(LifecycleInvalid)
      else if m.nonce != nonce then Some(NonceMismatch)
      else if m.revision != revision + 1 then Some(RevisionInvalid)
      else if m.expectedPrevious != Some(phase) then Some(SequenceInvalid)
      else if m.abort then
        if m.phase != phase || m.stop || m.terminal.Some? then Some(AbortInvalid) else None
      else if phase + 1 >= 10 || m.phase != phase + 1 then Some(SequenceInvalid)
      else if m.stop != (m.phase == FINAL_PHASE) then Some(StopInvalid)
      else if m.phase != FINAL_PHASE && m.terminal.Some? then Some(TerminalConditionsInvalid)
      else None
    }

    /** The owner must be registered and running; a failed check records what was seen of it. */
    method AcceptFirstPhase(m: Control, now: real, status: Option<ProcessStatus>) returns (error: Option<SafeCode>)
      requires m.phase == 1
      modifies `ownerState, `lifecycle, `activeStartedAt, `phase, `revision, `leaseStartedAt
      ensures Reports(AcceptFirst(old(View()), m, now, status), error)
    {
      if owner.None? { return Some(OwnerMissing); }
      if status.None? || status.value.state == NotFound {
        ownerState := OwnerExited;
        return Some(OwnerExitedEarly);
      }
      if status.value.state == PidReused {
        ownerState := IdentityLost;
        return Some(OwnerIdentityLost);
      }
      if status.value.state != Running { return Some(OwnerStatusInvalid); }
      lifecycle, activeStartedAt := Armed, Some(now);
      phase, revision, leaseStartedAt := m.phase, m.revision, Some(now);
      error := None;
    }

    /** The exit must be evidenced and every terminal condition verified. */
    method AcceptFinalPhase(m: Control, now: real, status: Option<ProcessStatus>) returns (error: Option<SafeCode>)
      requires m.phase == FINAL_PHASE
      modifies `ownerState, `lifecycle, `fallbackVerified, `phase, `revision, `leaseStartedAt
      ensures Reports(AcceptFinal(old(View()), m, now, status), error)
    {
      if !FinalEvidence(status, m.terminal) { return Some(OwnerTerminalUnverified); }
      fallbackVerified := SupervisorTerminal(status, m.terminal);
      ownerState := OwnerExited;
      phase, revision, leaseStartedAt, lifecycle := m.phase, m.revision, Some(now), Finalizing;
      error := None;
    }

    method BeginObserving() returns (error: Option<SafeCode>)
      requires Valid()
      modifies this
      ensures Valid() && abortAccepted == old(abortAccepted)
      ensures Reports(TimelineCoordinator.BeginObserving(old(View())), error)
    {
      if lifecycle != Armed { return Some(LifecycleInvalid); }
      lifecycle := Observing;
      error := None;
    }

    method ObserveOwnerStatus(status: Option<ProcessStatus>) returns (failure: Option<SafeCode>)
      requires Valid()
      modifies this
      ensures Valid() && abortAccepted == old(abortAccepted)
      ensures (View(), failure) == TimelineCoordinator.ObserveOwnerStatus(old(View()), status)
    {
      if owner.None? { return None; }
      ownerStatus := status;
      if status.None? { return Some(OwnerQueryFailed); }
      if status.value.state == Running {
        ownerState := OwnerRunning;
        return None;
      }
      if status.value.state == PidReused {
        ownerState := IdentityLost;
        return Some(OwnerIdentityLost);
      }
      if status.value.state == Exited {
        ownerState := OwnerExited;
        if phase < BEFORE_SHUTDOWN_PHASE { return Some(OwnerExitedEarly); }
        return None;
      }
      if status.value.state == NotFound {
        if phase < BEFORE_SHUTDOWN_PHASE { return Some(OwnerExitedEarly); }
        ownerState := if fallbackVerified then OwnerExited else TerminalUnverified;
        return None;
      }
      if status.value.state == Inaccessible { return Some(OwnerInaccessible); }
      failure := Some(OwnerQueryFailed);
    }

    /** In a reachable state the deadline query never raises. */
    method TimeoutCode(now: real) returns (code: Option<SafeCode>)
      requires Valid()
      ensures TimelineCoordinator.TimeoutCode(View(), now) == (if code.Some? then Due(code.value) else NotDue)
    {
      if now - startedAt >= limits.total { return Some(TotalTimeout); }
      if lifecycle == ReadyUnarmed {
        return if now - readyAt.value >= limits.ready then Some(ReadyTimeout) else None;
      }
      if lifecycle in {Armed, Observing} {
        if now - activeStartedAt.value >= limits.active { return Some(ActiveTimeout); }
        if now - leaseStartedAt.value >= limits.lease { return Some(StageTimeout); }
      }
      code := None;
    }

    method Fail(code: SafeCode)
      requires Valid()
      modifies this
      ensures Valid() && abortAccepted == old(abortAccepted)
      ensures View() == TimelineCoordinator.Fail(old(View()), code)
    {
      safeCode, lifecycle := code, Failed;
    }

    method Complete()
      requires Valid()
      modifies this
      ensures Valid() && abortAccepted == old(abortAccepted)
      ensures View() == TimelineCoordinator.Complete(old(View()))
    {
      safeCode, lifecycle := TimelineVerified, Completed;
    }
  }

  /** A new coordinator, unless the nonce is not 32 lower-case hexadecimal digits. */
  method CreateCoordinator(nonce: string, startedAt: real, limits: Limits)
    returns (c: ProbeCoordinator?, error: Option<SafeCode>)
    ensures c != null <==> ValidNonce(nonce)
    ensures error == (if c == null then Some(NonceMismatch) else None)
    ensures c != null ==>
      fresh(c) && c.Valid() && !c.abortAccepted && c.View() == NewCoord(nonce, startedAt, limits)
  {
    if !ValidNonce(nonce) { return null, Some(NonceMismatch); }
    c := new ProbeCoordinator(nonce, startedAt, limits);
    error := None;
  }
}
