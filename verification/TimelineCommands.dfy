/** What each command writes, and what that means for the register over whole runs. */
module TimelineCommands {
  import opened Wrappers
  import opened TimelineCoordinator
  import opened TimelineMeaning
  import opened TimelineLog
  import opened TimelineObserver
  import opened TimelineProtocol

  /** Exactly these phase commands write, and what they write. */
  lemma PhaseCommandMeaning(current: Control, c: Command)
    requires c.SetPhase?
    ensures PhaseMessage(current, c).Some?
       <==> && c.nonce == current.nonce && c.revision == current.revision + 1 && c.expectedPrevious == current.phase
            && c.phase == current.phase + 1 && (c.stop <==> c.phase == 9)
            && (c.phase == 1 ==> c.uiReady && c.valueAbsent)
            && (c.phase == 9 ==> CleanEnd(c.conditions))
    ensures PhaseMessage(current, c).Some? ==>
      var m := PhaseMessage(current, c).value;
      && m.nonce == current.nonce && m.revision == current.revision + 1 && m.expectedPrevious == Some(current.phase)
      && m.phase == current.phase + 1 && !m.abort && (m.stop <==> m.phase == 9)
      && m.terminal == if m.phase == 9 then Some(c.conditions) else None
  {}

  /** An abort command for the current phase and the next revision keeps the phase. */
  lemma AbortCommandMeaning(current: Control, c: Command)
    requires c.AbortProbe?
    ensures AbortMessage(current, c)
         == if c.nonce == current.nonce && c.revision == current.revision + 1 && c.expectedPrevious == current.phase
            then Some(Control(current.nonce, current.revision + 1, Some(current.phase), current.phase, false, true,
                              None))
            else None
  {}

  /** An owner is named once, before anything is commanded, and only with a known identity. */
  lemma OwnerCommandMeaning(w: World, c: Command)
    requires c.SetOwnerPid?
    ensures OwnerRecord(w, c).Some?
       <==> && c.processId > 0 && c.nonce == w.control.nonce && w.control.phase == 0 && w.control.revision == 0
            && w.ownerFile.None? && c.identity.Some?
    ensures OwnerRecord(w, c).Some? ==> OwnerRecord(w, c) == Some(Registration(c.nonce, c.processId, c.identity.value))
  {}

  /** A command writes only if the observer's files admit it and it knows the session, and then what its own rule
      says; nothing else writes. */
  lemma OnlyCommandsWrite(w: World, s: Step)
    ensures var n := Next(w, s);
            && (!s.Write? || !s.ready || s.command.nonce != w.observer.coord.nonce ==>
                  n.control == w.control && n.ownerFile == w.ownerFile)
            && (s.Write? && s.ready && s.command.nonce == w.observer.coord.nonce ==>
                  match s.command
                  case SetPhase(_, _, _, _, _, _, _, _) =>
                    && n.ownerFile == w.ownerFile
                    && n.control == (match PhaseMessage(w.control, s.command) case Some(m) => m case None => w.control)
                  case AbortProbe(_, _, _) =>
                    && n.ownerFile == w.ownerFile
                    && n.control == (match AbortMessage(w.control, s.command) case Some(m) => m case None => w.control)
                  case SetOwnerPid(_, _, _) =>
                    && n.control == w.control
                    && n.ownerFile == (match OwnerRecord(w, s.command)
                                       case Some(r) => Some(r)
                                       case None => w.ownerFile))
  {}

  // ----- Over whole runs -----

  /** A step leaves the register alone or moves it one revision on, by one phase or by none for an abort; a named
      owner stays named. */
  lemma RegisterStep(w: World, s: Step)
    ensures var n := Next(w, s);
            && (|| n.control == w.control
                || (&& n.control.revision == w.control.revision + 1 && n.control.nonce == w.control.nonce
                    && n.control.expectedPrevious == Some(w.control.phase)
                    && n.control.phase == if n.control.abort then w.control.phase else w.control.phase + 1))
            && (w.ownerFile.Some? ==> n.ownerFile == w.ownerFile)
  {
    OnlyCommandsWrite(w, s);
  }

  /** Over any run the register only moves on, by at least as many revisions as phases, and a named owner stays
      named. */
  lemma {:induction false} RegisterMovesOn(w: World, steps: seq<Step>)
    ensures var n := Run(w, steps);
            && n.control.revision >= w.control.revision && n.control.phase >= w.control.phase
            && n.control.revision - w.control.revision >= n.control.phase - w.control.phase
            && n.control.nonce == w.control.nonce
            && (w.ownerFile.Some? ==> n.ownerFile == w.ownerFile)
  {
    if steps != [] {
      RegisterMovesOn(w, steps[..|steps| - 1]);
      RegisterStep(Run(w, steps[..|steps| - 1]), steps[|steps| - 1]);
    }
  }

  /** A command for T1, given when the owner's interface was ready and the value absent. */
  predicate OpensTheTimeline(s: Step) {
    s.Write? && s.ready && s.command.SetPhase? && s.command.phase == 1 && s.command.uiReady && s.command.valueAbsent
  }

  /** The register leaves T0 only by such a command. */
  lemma {:induction false} TimelineOpensReady(w: World, steps: seq<Step>)
    requires w.control.phase == 0 && Run(w, steps).control.phase > 0
    ensures exists i :: 0 <= i < |steps| && OpensTheTimeline(steps[i])
  {
    var before, last := steps[..|steps| - 1], steps[|steps| - 1];
    if Run(w, before).control.phase > 0 {
      TimelineOpensReady(w, before);
      var i :| 0 <= i < |before| && OpensTheTimeline(before[i]);
      assert OpensTheTimeline(steps[i]);
    } else {
      OnlyCommandsWrite(Run(w, before), last);
      assert OpensTheTimeline(steps[|steps| - 1]);
    }
  }

  /** So no run of the protocol accepts T1, let alone returns 0, without one. */
  lemma ZeroNeedsReadyOpening(nonce: string, startedAt: real, first: Reading, readyAt: real, steps: seq<Step>)
    requires Run(InitialWorld(nonce, startedAt, first, readyAt), steps).observer.result == Some(0)
    ensures exists i :: 0 <= i < |steps| && OpensTheTimeline(steps[i])
  {
    var w0 := InitialWorld(nonce, startedAt, first, readyAt);
    InvInitially(nonce, startedAt, first, readyAt);
    RunKeepsInv(w0, steps);
    RegisterCountsPhases(nonce, startedAt, first, readyAt, steps);
    TimelineOpensReady(w0, steps);
  }

  /** The register is in a later phase than T0 once the observer is. */
  lemma {:induction false} RegisterCountsPhases(nonce: string, startedAt: real, first: Reading, readyAt: real,
                                                steps: seq<Step>)
    ensures var w := Run(InitialWorld(nonce, startedAt, first, readyAt), steps);
            w.observer.coord.phase <= w.control.phase
  {
    if steps != [] {
      var before, last := steps[..|steps| - 1], steps[|steps| - 1];
      RegisterCountsPhases(nonce, startedAt, first, readyAt, before);
      PhaseNotAhead(Run(InitialWorld(nonce, startedAt, first, readyAt), before), last);
    }
  }

  lemma PhaseNotAhead(w: World, s: Step)
    requires w.observer.coord.phase <= w.control.phase
    ensures Next(w, s).observer.coord.phase <= Next(w, s).control.phase
  {
    RegisterStep(w, s);
    match s
    case Write(_, _) =>
    case Begin(now, readable) =>
      BeginKeepsPhase(w.observer, now, if readable then Content(w.ownerFile) else Unreadable);
    case End(readable, acceptProbe, probe, reading) =>
      if w.pending.Some? && w.observer.result.None? {
        EndPhase(w.observer, w.pending.value.now, w.pending.value.registration,
                 if readable then Content(w.control) else Unreadable, acceptProbe, probe, reading);
      }
    case Crash =>
  }

  lemma BeginKeepsPhase(o: Observer, now: real, ownerFile: Read<Option<Registration>>)
    ensures BeginPass(o, now, ownerFile).coord.phase == o.coord.phase
  {}

  lemma LookKeepsPhase(o: Observer, probe: ProcessStatus, reading: Reading)
    ensures Look(o, probe, reading).coord.phase == o.coord.phase
  {}

  lemma EndPhase(o: Observer, now: real, registration: Option<Registration>, control: Read<Control>,
                 acceptProbe: ProcessStatus, probe: ProcessStatus, reading: Reading)
    ensures var n := EndPass(o, now, registration, control, acceptProbe, probe, reading);
            n.coord.phase == o.coord.phase || (control.Content? && n.coord.phase == control.value.phase)
  {
    LookKeepsPhase(o, probe, reading);
    if control.Content? && control.value.revision > o.coord.revision {
      var status := if registration.Some? then Some(acceptProbe) else None;
      var r := AcceptControl(o.coord, control.value, now, status);
      if r.Done? {
        AcceptedEffect(o.coord, control.value, now, status);
        LookKeepsPhase(o.(coord := if r.next.lifecycle == Armed then BeginObserving(r.next).next else r.next), probe,
                       reading);
      } else {
        RejectedControlChangesNothing(o.coord, control.value, now, status);
      }
    }
  }
}
