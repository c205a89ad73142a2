/** What each coordinator step accepts, changes and reports, spelled out condition by condition. */
module TimelineMeaning {
  import opened Wrappers
  import opened TimelineCoordinator

  // ----- Registration -----

  /** A registration is taken once, before arming and under the session's nonce; repeating it changes
      nothing. */
  lemma RegistrationMeaning(c: Coord, r: Registration)
    ensures var result := RegisterOwner(c, r);
            && (result.Done? <==> r.nonce == c.nonce
                                  && (c.owner == Some(r) || (c.owner.None? && c.lifecycle == ReadyUnarmed)))
            && (result.Done? ==> result.next == c.(owner := Some(r), ownerState := result.next.ownerState))
            && (result.Done? && c.owner.None? ==> result.next.ownerState == OwnerRunning)
            && (result.Done? && c.owner.Some? ==> result.next == c)
            && (result.Raised? ==> result.next == c)
            && (result.Raised? ==>
                  result.code == if r.nonce != c.nonce then NonceMismatch else OwnerRegistrationInvalid)
  {}

  /** Whatever is called, the nonce, the start, the limits and a registered owner never change. */
  lemma {:induction false} OwnerStays(c: Coord, calls: seq<Call>)
    ensures var d := ApplyAll(c, calls);
            && d.nonce == c.nonce && d.startedAt == c.startedAt && d.limits == c.limits
            && (c.owner.Some? ==> d.owner == c.owner)
  {
    if calls != [] {
      OwnerStays(c, calls[..|calls| - 1]);
      CallKeepsOwner(ApplyAll(c, calls[..|calls| - 1]), calls[|calls| - 1]);
    }
  }

  lemma CallKeepsOwner(c: Coord, call: Call)
    ensures var d := Apply(c, call).next;
            && d.nonce == c.nonce && d.startedAt == c.startedAt && d.limits == c.limits
            && (c.owner.Some? ==> d.owner == c.owner)
  {
    match call
    case CallAccept(m, now, status) => AcceptKeepsOwner(c, m, now, status);
    case _ =>
  }

  lemma AcceptKeepsOwner(c: Coord, m: Control, now: real, status: Option<ProcessStatus>)
    ensures var d := AcceptControl(c, m, now, status).next;
            d.nonce == c.nonce && d.startedAt == c.startedAt && d.limits == c.limits && d.owner == c.owner
  {}

  /** Getting ready and leaving the armed state each happen from one lifecycle state only. */
  lemma LifecycleMeaning(c: Coord, now: real)
    ensures MarkReady(c, now) == (if c.lifecycle == Initializing
                                  then Done(c.(lifecycle := ReadyUnarmed, readyAt := Some(now)))
                                  else Raised(c, LifecycleInvalid))
    ensures BeginObserving(c) == if c.lifecycle == Armed then Done(c.(lifecycle := Observing))
                                 else Raised(c, LifecycleInvalid)
  {}

  // ----- Control messages -----

  /** The message follows the coordinator's state, which still takes messages. */
  ghost predicate Follows(c: Coord, m: Control) {
    && c.lifecycle != Completed && c.lifecycle != Failed && c.lifecycle != Finalizing
    && m.nonce == c.nonce && m.revision == c.revision + 1 && m.expectedPrevious == Some(c.phase)
  }

  ghost predicate IsAbort(c: Coord, m: Control) {
    m.abort && m.phase == c.phase && !m.stop && m.terminal == None
  }

  /** It commands the next phase, and only the last one stops and carries terminal conditions. */
  ghost predicate IsNextPhase(c: Coord, m: Control) {
    && !m.abort && m.phase == c.phase + 1
    && (m.phase == 9 ==> m.stop)
    && (m.phase < 9 ==> !m.stop && m.terminal == None)
  }

  ghost predicate RunningOwner(c: Coord, status: Option<ProcessStatus>) {
    c.owner.Some? && status.Some? && status.value.state == Running
  }

  /** Everything the supervisor reports about the end is as it should be. */
  ghost predicate CleanEnd(t: TerminalConditions) {
    && t.supervisorCompleted && t.supervisorIdentityMatched && t.ownerCheckpointClosed && !t.forcedTermination
    && t.ownerExitCode == 0 && t.tcpEndpointCount == 0 && t.toggleCommandCount == 1
    && t.trayMenuActivationCount == 0 && t.petMenuActivationCount == 0 && t.secondaryCreationCount == 0
  }

  /** The owner was seen to exit with 0, or is gone and the supervisor reports a clean end. */
  ghost predicate ExitSeen(status: Option<ProcessStatus>, terminal: Option<TerminalConditions>) {
    && status.Some? && terminal.Some? && CleanEnd(terminal.value)
    && (|| (status.value.state == Exited && status.value.creationMatches && status.value.exitCode == Some(0))
        || status.value.state == NotFound)
  }

  /** Exactly these messages are accepted. */
  lemma AcceptedIff(c: Coord, m: Control, now: real, status: Option<ProcessStatus>)
    ensures AcceptControl(c, m, now, status).Done?
       <==> && Follows(c, m)
            && (|| IsAbort(c, m)
                || (IsNextPhase(c, m)
                    && (m.phase == 1 ==> RunningOwner(c, status)) && (m.phase == 9 ==> ExitSeen(status, m.terminal))))
  {}

  /** An accepted message sets revision and lease; an abort then only ends the timeline, a phase is entered. */
  lemma AcceptedEffect(c: Coord, m: Control, now: real, status: Option<ProcessStatus>)
    ensures var r := AcceptControl(c, m, now, status);
            r.Done? ==>
              && r.next.revision == m.revision && r.next.leaseStartedAt == Some(now)
              && r.next == c.(revision := m.revision, leaseStartedAt := Some(now), phase := r.next.phase,
                              lifecycle := r.next.lifecycle, safeCode := r.next.safeCode,
                              activeStartedAt := r.next.activeStartedAt, ownerState := r.next.ownerState,
                              fallbackVerified := r.next.fallbackVerified)
              && r.next.activeStartedAt == (if !m.abort && m.phase == 1 then Some(now) else c.activeStartedAt)
              && r.next.safeCode == (if m.abort then ProbeAborted else c.safeCode)
              && r.next.phase == m.phase
              && r.next.lifecycle == (if m.abort || m.phase == 9 then Finalizing
                                      else if m.phase == 1 then Armed else Observing)
              && r.next.ownerState == (if !m.abort && m.phase == 9 then OwnerExited else c.ownerState)
              && r.next.fallbackVerified
                 == (if !m.abort && m.phase == 9 then status.value.state == NotFound else c.fallbackVerified)
  {}

  /** The code of a refused message: the first of these that applies. */
  lemma RefusalMeaning(c: Coord, m: Control, now: real, status: Option<ProcessStatus>)
    requires AcceptControl(c, m, now, status).Raised?
    ensures var code := AcceptControl(c, m, now, status).code;
            var open := c.lifecycle != Completed && c.lifecycle != Failed && c.lifecycle != Finalizing;
            && (!open ==> code == LifecycleInvalid)
            && (open && m.nonce != c.nonce ==> code == NonceMismatch)
            && (open && m.nonce == c.nonce && m.revision != c.revision + 1 ==> code == RevisionInvalid)
            && (open && m.nonce == c.nonce && m.revision == c.revision + 1 && m.expectedPrevious != Some(c.phase) ==>
                  code == SequenceInvalid)
            && (Follows(c, m) && m.abort ==> code == AbortInvalid)
            && (Follows(c, m) && !m.abort && m.phase != c.phase + 1 ==> code == SequenceInvalid)
            && (Follows(c, m) && !m.abort && m.phase == c.phase + 1 && m.stop != (m.phase == 9) ==> code == StopInvalid)
            && (Follows(c, m) && !m.abort && m.phase == c.phase + 1 && !m.stop && m.phase < 9 && m.terminal.Some? ==>
                  code == TerminalConditionsInvalid)
            && (Follows(c, m) && IsNextPhase(c, m) && m.phase == 1 ==>
                  code == if c.owner.None? then OwnerMissing
                          else if status.None? || status.value.state == NotFound then OwnerExitedEarly
                          else if status.value.state == PidReused then OwnerIdentityLost
                          else OwnerStatusInvalid)
            && (Follows(c, m) && IsNextPhase(c, m) && m.phase == 9 ==> code == OwnerTerminalUnverified)
  {}

  /** A refused message changes nothing but what is recorded of an owner that did not live to see T1. */
  lemma RefusalEffect(c: Coord, m: Control, now: real, status: Option<ProcessStatus>)
    requires AcceptControl(c, m, now, status).Raised?
    ensures var next := AcceptControl(c, m, now, status).next;
            next == if Follows(c, m) && IsNextPhase(c, m) && m.phase == 1 && c.owner.Some? then
                      if status.None? || status.value.state == NotFound then c.(ownerState := OwnerExited)
                      else if status.value.state == PidReused then c.(ownerState := IdentityLost)
                      else c
                    else c
  {}

  // ----- The session -----

  /** A nonce is 32 lower-case hexadecimal digits. */
  lemma NonceMeaning(nonce: string)
    ensures ValidNonce(nonce) <==>
      |nonce| == 32 && forall i :: 0 <= i < 32 ==> '0' <= nonce[i] <= '9' || 'a' <= nonce[i] <= 'f'
  {
    forall c: char ensures c in "0123456789abcdef" <==> '0' <= c <= '9' || 'a' <= c <= 'f' {
      IsHexDigit(c);
    }
  }

  lemma IsHexDigit(c: char)
    ensures c in "0123456789abcdef" <==> '0' <= c <= '9' || 'a' <= c <= 'f'
  {
    var digits := "0123456789abcdef";
    assert forall k :: 0 <= k < 10 ==> digits[k] as int == '0' as int + k;
    assert forall k :: 10 <= k < 16 ==> digits[k] as int == 'a' as int + k - 10;
    if '0' <= c <= '9' { assert digits[c as int - '0' as int] == c; }
    if 'a' <= c <= 'f' { assert digits[c as int - 'a' as int + 10] == c; }
  }

  // ----- The owner's process -----

  /** When a registered owner's status ends the timeline, with which code, and what is recorded of it. */
  lemma OwnerStatusMeaning(c: Coord, status: ProcessStatus)
    requires c.owner.Some?
    ensures var (d, failure) := ObserveOwnerStatus(c, Some(status));
            && d == c.(ownerStatus := Some(status), ownerState := d.ownerState)
            && (failure == None <==>
                  status.state == Running || (c.phase >= 7 && (status.state == Exited || status.state == NotFound)))
            && (failure == Some(OwnerExitedEarly) <==>
                  c.phase < 7 && (status.state == Exited || status.state == NotFound))
            && (failure == Some(OwnerIdentityLost) <==> status.state == PidReused)
            && (failure == Some(OwnerInaccessible) <==> status.state == Inaccessible)
            && (failure == Some(OwnerQueryFailed) <==> status.state == QueryFailed)
            && (d.ownerState == (match status.state
                                 case Running => OwnerRunning
                                 case PidReused => IdentityLost
                                 case Exited => OwnerExited
                                 case NotFound => if c.phase < 7 then c.ownerState
                                                  else if c.fallbackVerified then OwnerExited else TerminalUnverified
                                 case Inaccessible => c.ownerState
                                 case QueryFailed => c.ownerState))
  {}

  lemma NoOwnerNoFailure(c: Coord, status: Option<ProcessStatus>)
    ensures c.owner.None? ==> ObserveOwnerStatus(c, status) == (c, None)
    ensures c.owner.Some? && status.None? ==>
      ObserveOwnerStatus(c, status) == (c.(ownerStatus := None), Some(OwnerQueryFailed))
  {}
}
