/** The control protocol: separate commands write a one-cell register, the observer polls it.

    A run is any sequence of command writes and half passes of the observer. A command is atomic (it
    reads, checks and writes the register without another command in between); the observer's two
    file reads are separate steps, so a command may fall between them. */
module TimelineProtocol {
  import opened Wrappers
  import opened TimelineCoordinator
  import opened TimelineLog
  import opened TimelineObserver

  datatype Command =
    | SetPhase(phase: Phase, expectedPrevious: Phase, revision: int, nonce: string, stop: bool,
               uiReady: bool, valueAbsent: bool, conditions: TerminalConditions)
    | AbortProbe(expectedPrevious: Phase, revision: int, nonce: string)
    | SetOwnerPid(processId: int, nonce: string, identity: Option<string>)

  /** What a pass has read before it reads the register. */
  datatype Pending = Pending(now: real, registration: Option<Registration>)

  /** A control message the observer accepted, with the process status it accepted it on. */
  datatype Acceptance = Acceptance(message: Control, status: Option<ProcessStatus>)

  datatype World = World(
    observer: Observer,
    pending: Option<Pending>,
    control: Control,
    ownerFile: Option<Registration>,
    accepted: seq<Acceptance>)

  /** `ready` says whether the observer's ready file and checkpoint admit the command. */
  datatype Step =
    | Write(ready: bool, command: Command)
    | Begin(now: real, readable: bool)
    | End(readable: bool, acceptProbe: ProcessStatus, probe: ProcessStatus, reading: Reading)
    | Crash

  function InitialWorld(nonce: string, startedAt: real, first: Reading, readyAt: real): World {
    World(Start(nonce, startedAt, first, readyAt), None, Control(nonce, 0, None, 0, false, false, None), None, [])
  }

  /** The message that the command writes, or nothing when it raises. */
  function PhaseMessage(current: Control, c: Command): Option<Control>
    requires c.SetPhase?
  {
    if || current.nonce != c.nonce
       || c.revision != current.revision + 1
       || c.expectedPrevious != current.phase
       || c.phase != current.phase + 1
       || c.stop != (c.phase == FINAL_PHASE)
    then None
    else if c.phase == 1 && (!c.uiReady || !c.valueAbsent) then None
    else if c.phase == FINAL_PHASE && !c.conditions.Verified() then None
    else Some(Control(c.nonce, c.revision, Some(c.expectedPrevious), c.phase, c.stop, false,
                      if c.phase == FINAL_PHASE then Some(c.conditions) else None))
  }

  function AbortMessage(current: Control, c: Command): Option<Control>
    requires c.AbortProbe?
  {
    if current.nonce != c.nonce || c.expectedPrevious != current.phase || c.revision != current.revision + 1 then None
    else Some(Control(c.nonce, c.revision, Some(c.expectedPrevious), current.phase, false, true, None))
  }

  function OwnerRecord(w: World, c: Command): Option<Registration>
    requires c.SetOwnerPid?
  {
    if || c.processId <= 0 || w.control.nonce != c.nonce || w.control.phase != 0 || w.control.revision != 0
       || w.ownerFile.Some? || c.identity.None?
    then None
    else Some(Registration(c.nonce, c.processId, c.identity.value))
  }

  function Perform(w: World, c: Command): World {
    if c.nonce != w.observer.coord.nonce then w
    else match c
      case SetPhase(_, _, _, _, _, _, _, _) =>
        var m := PhaseMessage(w.control, c);
        if m.Some? then w.(control := m.value) else w
      case AbortProbe(_, _, _) =>
        var m := AbortMessage(w.control, c);
        if m.Some? then w.(control := m.value) else w
      case SetOwnerPid(_, _, _) =>
        var r := OwnerRecord(w, c);
        if r.Some? then w.(ownerFile := r) else w
  }

  function BeginStep(w: World, now: real, readable: bool): World {
    if w.pending.Some? || w.observer.result.Some? then w
    else
      var o := BeginPass(w.observer, now, if readable then Content(w.ownerFile) else Unreadable);
      w.(observer := o, pending := if o.result.Some? then None else Some(Pending(now, w.ownerFile)))
  }

  function AcceptStatus(p: Pending, acceptProbe: ProcessStatus): Option<ProcessStatus> {
    if p.registration.Some? then Some(acceptProbe) else None
  }

  /** The observer's second half reads a new message and accepts it. */
  predicate Accepts(w: World, readable: bool, acceptProbe: ProcessStatus)
    requires w.pending.Some?
  {
    var p := w.pending.value;
    && readable
    && w.control.revision > w.observer.coord.revision
    && AcceptControl(w.observer.coord, w.control, p.now, AcceptStatus(p, acceptProbe)).Done?
  }

  function EndStep(w: World, readable: bool, acceptProbe: ProcessStatus, probe: ProcessStatus,
                   reading: Reading): World
  {
    if w.pending.None? || w.observer.result.Some? then w
    else
      var p := w.pending.value;
      w.(observer := EndPass(w.observer, p.now, p.registration, if readable then Content(w.control) else Unreadable,
                             acceptProbe, probe, reading),
         pending := None,
         accepted := if Accepts(w, readable, acceptProbe)
                     then w.accepted + [Acceptance(w.control, AcceptStatus(p, acceptProbe))]
                     else w.accepted)
  }

  function Next(w: World, s: Step): World {
    match s
    case Write(ready, command) => if ready then Perform(w, command) else w
    case Begin(now, readable) => BeginStep(w, now, readable)
    case End(readable, acceptProbe, probe, reading) => EndStep(w, readable, acceptProbe, probe, reading)
    case Crash => if w.observer.result.Some? then w else w.(observer := w.observer.(result := Some(2)))
  }

  function Run(w: World, steps: seq<Step>): World {
    if steps == [] then w else Next(Run(w, steps[..|steps| - 1]), steps[|steps| - 1])
  }

  /** A pass with no command between its two reads is one pass of the polling loop. */
  lemma UninterruptedPass(w: World, now: real, ownerReadable: bool, controlReadable: bool,
                          acceptProbe: ProcessStatus, probe: ProcessStatus, reading: Reading)
    requires w.pending.None? && w.observer.result.None?
    ensures Next(Next(w, Begin(now, ownerReadable)), End(controlReadable, acceptProbe, probe, reading)).observer
         == OnePass(w.observer, Pass(now, if ownerReadable then Content(w.ownerFile) else Unreadable,
                                     if controlReadable then Content(w.control) else Unreadable,
                                     acceptProbe, probe, reading))
  {}

  // ----- The invariant of every run -----

  /** The coordinator has accepted an abort exactly when its revision has moved past its phase. */
  ghost predicate CoordinatorInv(w: World) {
    var c := w.observer.coord;
    && Coherent(c, c.revision != c.phase)
    && (w.observer.result.None? ==> c.lifecycle in {ReadyUnarmed, Observing})
  }

  /** The register is never behind the observer, and its revision counts its phase and the aborts. */
  ghost predicate RegisterInv(w: World) {
    && w.control.nonce == w.observer.coord.nonce
    && w.observer.coord.revision <= w.control.revision
    && w.control.phase <= w.control.revision
  }

  ghost predicate OwnerInv(w: World) {
    && (w.ownerFile.Some? ==> w.ownerFile.value.nonce == w.observer.coord.nonce)
    && (w.observer.coord.owner.Some? ==> w.ownerFile == w.observer.coord.owner)
    && (w.observer.result.None? && w.pending.Some? ==> w.pending.value.registration == w.observer.coord.owner)
  }

  /** The i-th accepted message is phase T(i+1) at revision i+1, except that the last may be an abort. */
  ghost predicate AcceptedInOrder(accepted: seq<Acceptance>, c: Coord) {
    && |accepted| == c.revision
    && (forall i :: 0 <= i < |accepted| ==> accepted[i].message.revision == i + 1)
    && (forall i :: 0 <= i < |accepted| && i < c.phase ==>
          !accepted[i].message.abort && accepted[i].message.phase == i + 1)
    && (forall i :: c.phase <= i < |accepted| ==> accepted[i].message.abort)
    && (c.phase == FINAL_PHASE && |accepted| >= 9 ==> FinalEvidence(accepted[8].status, accepted[8].message.terminal))
  }

  /** Once an owner was seen running, it is running in every later observation before T7. */
  ghost predicate StaysRunning(log: seq<Entry>) {
    forall i, j :: 0 <= i < j < |log| && log[i].running && log[j].phase < BEFORE_SHUTDOWN_PHASE ==> log[j].running
  }

  /** Readings only, phases in order, an owner running in every observation of T1 to T6 and in every one
      before T7 after it was first seen. */
  ghost predicate LogInv(log: seq<Entry>, c: Coord) {
    && log != [] && log[0].phase == 0
    && (forall i :: 0 <= i < |log| ==> FactoryBuilt(log[i].obs))
    && (forall i :: 0 <= i < |log| ==> log[i].phase <= c.phase)
    && (forall i, j :: 0 <= i < j < |log| ==> log[i].phase <= log[j].phase)
    && (forall i :: 0 <= i < |log| && 1 <= log[i].phase < BEFORE_SHUTDOWN_PHASE ==> log[i].running)
    && (forall i :: 0 <= i < |log| && log[i].running ==> c.owner.Some?)
    && StaysRunning(log)
  }

  ghost predicate ResultInv(o: Observer) {
    && (o.result != Some(2) ==> forall p: Phase :: p <= o.coord.phase ==> PhaseSeen(o.log, p))
    && (o.result == Some(0) ==>
          o.coord.phase == FINAL_PHASE == o.coord.revision && Verdict(o.log) == TimelineVerified)
    && (o.result != Some(2) ==> o.log != [] && o.log[0].obs.state == Absent)
    && (o.result.Some? ==> o.result.value in {0, 2})
  }

  ghost predicate Inv(w: World) {
    && CoordinatorInv(w)
    && RegisterInv(w)
    && OwnerInv(w)
    && AcceptedInOrder(w.accepted, w.observer.coord)
    && LogInv(w.observer.log, w.observer.coord)
    && ResultInv(w.observer)
  }

  lemma InvInitially(nonce: string, startedAt: real, first: Reading, readyAt: real)
    ensures Inv(InitialWorld(nonce, startedAt, first, readyAt))
  {
    var o := Start(nonce, startedAt, first, readyAt);
    assert o.log[0].phase == 0;
  }

  lemma WriteKeepsInv(w: World, c: Command)
    requires Inv(w)
    ensures Inv(Perform(w, c))
  {}

  /** What the first half of a pass does: it fails, or has registered the owner the file names. */
  ghost predicate Begun(o: Observer, n: Observer, file: Option<Registration>) {
    var c, d := o.coord, n.coord;
    && n.log == o.log && d.phase == c.phase && d.revision == c.revision && d.nonce == c.nonce
    && Coherent(d, d.revision != d.phase)
    && (d.owner == c.owner || d.owner == file)
    && (c.owner.Some? ==> d.owner == c.owner)
    && (if n.result.None? then d.lifecycle in {ReadyUnarmed, Observing} && d.owner == file else n.result == Some(2))
  }

  lemma BeginPassBegins(w: World, now: real, readable: bool)
    requires CoordinatorInv(w) && OwnerInv(w) && w.observer.result.None?
    ensures Begun(w.observer, BeginPass(w.observer, now, if readable then Content(w.ownerFile) else Unreadable),
                  w.ownerFile)
  {
    CoherentNeverRaises(w.observer.coord, w.observer.coord.revision != w.observer.coord.phase, now);
  }

  lemma BegunKeepsInv(w: World, n: Observer, pending: Option<Pending>)
    requires Inv(w) && w.observer.result.None? && Begun(w.observer, n, w.ownerFile)
    requires pending.Some? ==> pending.value.registration == w.ownerFile
    ensures Inv(w.(observer := n, pending := pending))
  {}

  lemma BeginKeepsInv(w: World, now: real, readable: bool)
    requires Inv(w)
    ensures Inv(BeginStep(w, now, readable))
  {
    if w.pending.None? && w.observer.result.None? {
      BeginPassBegins(w, now, readable);
      var n := BeginPass(w.observer, now, if readable then Content(w.ownerFile) else Unreadable);
      BegunKeepsInv(w, n, if n.result.Some? then None else Some(Pending(now, w.ownerFile)));
    }
  }

  /** The coordinator between accepting and returning. */
  ghost predicate Looking(c: Coord) {
    Coherent(c, c.revision != c.phase) && c.lifecycle in {ReadyUnarmed, Observing, Finalizing}
  }

  /** Before T7, an owner that passes the check is running exactly when one is registered. */
  lemma OwnerCheckKeepsInv(c: Coord, probe: ProcessStatus)
    requires Looking(c)
    ensures var (d, failure) := ObserveOwnerStatus(c, if c.owner.Some? then Some(probe) else None);
            && Looking(d)
            && d == c.(ownerState := d.ownerState, ownerStatus := d.ownerStatus)
            && (failure.None? && c.phase < BEFORE_SHUTDOWN_PHASE ==> (d.ownerState == OwnerRunning <==> c.owner.Some?))
            && (d.ownerState == OwnerRunning ==> c.owner.Some?)
  {}

  lemma LogGrows(log: seq<Entry>, c: Coord, e: Entry)
    requires LogInv(log, c) && FactoryBuilt(e.obs) && e.phase == c.phase
    requires e.running ==> c.owner.Some?
    requires e.phase < BEFORE_SHUTDOWN_PHASE && c.owner.Some? ==> e.running
    requires 1 <= e.phase ==> c.owner.Some?
    requires forall p: Phase :: p < c.phase ==> PhaseSeen(log, p)
    ensures LogInv(log + [e], c)
    ensures forall p: Phase :: p <= c.phase ==> PhaseSeen(log + [e], p)
  {
    var grown := log + [e];
    assert grown[|log|] == e;
    forall p: Phase | p < c.phase ensures PhaseSeen(grown, p) {
      assert PhaseSeen(log, p);
      var i :| 0 <= i < |log| && log[i].phase == p;
      assert grown[i].phase == p;
    }
  }

  ghost predicate Looked(o: Observer, n: Observer) {
    && n.coord.revision == o.coord.revision && n.coord.phase == o.coord.phase
    && n.coord.nonce == o.coord.nonce && n.coord.owner == o.coord.owner
    && Coherent(n.coord, n.coord.revision != n.coord.phase)
    && (n.result.None? ==> n.coord.lifecycle in {ReadyUnarmed, Observing})
    && LogInv(n.log, n.coord)
    && ResultInv(n)
  }

  lemma ReturnTwoIsLooked(o: Observer, code: SafeCode)
    requires Looking(o.coord) && LogInv(o.log, o.coord)
    ensures Looked(o, Return2(o, code))
  {}

  lemma ReturnZeroIsLooked(o: Observer)
    requires Looking(o.coord) && LogInv(o.log, o.coord) && o.log[0].obs.state == Absent
    requires forall p: Phase :: p <= o.coord.phase ==> PhaseSeen(o.log, p)
    requires o.coord.lifecycle == Finalizing && o.coord.safeCode != ProbeAborted
    requires o.coord.phase == FINAL_PHASE && Verdict(o.log) == TimelineVerified
    ensures Looked(o, o.(coord := Complete(o.coord), result := Some(0)))
  {}

  lemma StillPollingIsLooked(o: Observer)
    requires o.result.None? && Looking(o.coord) && LogInv(o.log, o.coord) && o.log[0].obs.state == Absent
    requires forall p: Phase :: p <= o.coord.phase ==> PhaseSeen(o.log, p)
    requires o.coord.lifecycle != Finalizing
    ensures Looked(o, o)
  {}

  lemma JudgeKeepsInv(o: Observer, reading: Reading)
    requires o.result.None? && Looking(o.coord) && LogInv(o.log, o.coord) && o.log[0].obs.state == Absent
    requires forall p: Phase :: p <= o.coord.phase ==> PhaseSeen(o.log, p)
    ensures Looked(o, Judge(o, reading))
  {
    var n := Judge(o, reading);
    if n.result == Some(2) {
      ReturnTwoIsLooked(o, n.coord.safeCode);
    } else if n.result == Some(0) {
      ReturnZeroIsLooked(o);
    } else {
      StillPollingIsLooked(o);
    }
  }

  /** A look appends one entry of the current phase unless it fails on the owner. */
  lemma LookKeepsInv(o: Observer, probe: ProcessStatus, reading: Reading)
    requires o.result.None? && Looking(o.coord) && LogInv(o.log, o.coord) && o.log[0].obs.state == Absent
    requires forall p: Phase :: p < o.coord.phase ==> PhaseSeen(o.log, p)
    ensures Looked(o, Look(o, probe, reading))
  {
    OwnerCheckKeepsInv(o.coord, probe);
    var (c, failure) := ObserveOwnerStatus(o.coord, if o.coord.owner.Some? then Some(probe) else None);
    if failure.None? {
      var e := Entry(c.phase, c.ownerState == OwnerRunning, reading);
      LogGrows(o.log, c, e);
      JudgeKeepsInv(o.(coord := c, log := o.log + [e]), reading);
    }
  }

  /** What accepting the register's message does to the history. */
  lemma AcceptKeepsOrder(w: World, acceptProbe: ProcessStatus)
    requires Inv(w) && w.pending.Some? && w.observer.result.None? && Accepts(w, true, acceptProbe)
    ensures var p := w.pending.value;
            var status := AcceptStatus(p, acceptProbe);
            var c := AcceptControl(w.observer.coord, w.control, p.now, status).next;
            && Coherent(c, c.revision != c.phase)
            && c.revision == w.control.revision
            && c.lifecycle in {Armed, Observing, Finalizing}
            && c.nonce == w.observer.coord.nonce && c.owner == w.observer.coord.owner
            && w.observer.coord.phase <= c.phase <= w.observer.coord.phase + 1
            && AcceptedInOrder(w.accepted + [Acceptance(w.control, status)], c)
  {
    var p := w.pending.value;
    AcceptedControlIsNext(w.observer.coord, w.control, p.now, AcceptStatus(p, acceptProbe));
    AcceptKeepsCoherent(w.observer.coord, false, w.control, p.now, AcceptStatus(p, acceptProbe));
  }

  /** The world after a look at an observer that has accepted what `accepted` says. */
  lemma LookedKeepsInv(w: World, o: Observer, n: Observer, accepted: seq<Acceptance>)
    requires Inv(w) && Looked(o, n) && AcceptedInOrder(accepted, o.coord)
    requires o.coord.nonce == w.observer.coord.nonce && o.coord.owner == w.observer.coord.owner
    requires o.coord.revision <= w.control.revision
    ensures Inv(w.(observer := n, pending := None, accepted := accepted))
  {}

  lemma AcceptKeepsInv(w: World, acceptProbe: ProcessStatus, probe: ProcessStatus, reading: Reading)
    requires Inv(w) && w.pending.Some? && w.observer.result.None? && Accepts(w, true, acceptProbe)
    ensures Inv(EndStep(w, true, acceptProbe, probe, reading))
  {
    AcceptKeepsOrder(w, acceptProbe);
    var p := w.pending.value;
    var status := AcceptStatus(p, acceptProbe);
    var c := AcceptControl(w.observer.coord, w.control, p.now, status).next;
    var d := if c.lifecycle == Armed then BeginObserving(c).next else c;
    var o := w.observer.(coord := d);
    LookKeepsInv(o, probe, reading);
    LookedKeepsInv(w, o, Look(o, probe, reading), w.accepted + [Acceptance(w.control, status)]);
  }

  lemma RejectKeepsInv(w: World, acceptProbe: ProcessStatus, probe: ProcessStatus, reading: Reading)
    requires Inv(w) && w.pending.Some? && w.observer.result.None? && !Accepts(w, true, acceptProbe)
    requires w.control.revision > w.observer.coord.revision
    ensures Inv(EndStep(w, true, acceptProbe, probe, reading))
  {
    var p := w.pending.value;
    var status := AcceptStatus(p, acceptProbe);
    RejectedControlChangesNothing(w.observer.coord, w.control, p.now, status);
    AcceptKeepsCoherent(w.observer.coord, false, w.control, p.now, status);
    var r := AcceptControl(w.observer.coord, w.control, p.now, status);
    var o := w.observer.(coord := r.next);
    ReturnTwoIsLooked(o, r.code);
    LookedKeepsInv(w, o, Return2(o, r.code), w.accepted);
  }

  lemma EndKeepsInv(w: World, readable: bool, acceptProbe: ProcessStatus, probe: ProcessStatus, reading: Reading)
    requires Inv(w)
    ensures Inv(EndStep(w, readable, acceptProbe, probe, reading))
  {
    if w.pending.Some? && w.observer.result.None? && readable {
      if Accepts(w, readable, acceptProbe) {
        AcceptKeepsInv(w, acceptProbe, probe, reading);
      } else if w.control.revision > w.observer.coord.revision {
        RejectKeepsInv(w, acceptProbe, probe, reading);
      } else {
        LookKeepsInv(w.observer, probe, reading);
        LookedKeepsInv(w, w.observer, Look(w.observer, probe, reading), w.accepted);
      }
    }
  }

  lemma NextKeepsInv(w: World, s: Step)
    requires Inv(w)
    ensures Inv(Next(w, s))
  {
    match s
    case Write(ready, command) => WriteKeepsInv(w, command);
    case Begin(now, readable) => BeginKeepsInv(w, now, readable);
    case End(readable, acceptProbe, probe, reading) => EndKeepsInv(w, readable, acceptProbe, probe, reading);
    case Crash =>
  }

  lemma {:induction false} RunKeepsInv(w: World, steps: seq<Step>)
    requires Inv(w)
    ensures Inv(Run(w, steps))
  {
    if steps != [] {
      RunKeepsInv(w, steps[..|steps| - 1]);
      NextKeepsInv(Run(w, steps[..|steps| - 1]), steps[|steps| - 1]);
    }
  }

  // ----- Safety over whole runs -----

  /** In every interleaving the accepted phases are T1, T2, ... up to the current phase with no gap, at most
      one abort follows them, and the register is never behind the observer. */
  lemma AcceptedPhasesAreAPrefix(nonce: string, startedAt: real, first: Reading, readyAt: real, steps: seq<Step>)
    ensures var w := Run(InitialWorld(nonce, startedAt, first, readyAt), steps);
            var c := w.observer.coord;
            && c.revision <= w.control.revision
            && c.phase <= |w.accepted| <= c.phase + 1
            && (forall i :: 0 <= i < c.phase ==>
                  w.accepted[i].message.phase == i + 1 && !w.accepted[i].message.abort
                  && w.accepted[i].message.revision == i + 1)
            && (|w.accepted| > c.phase ==> w.accepted[c.phase].message.abort)
  {
    InvInitially(nonce, startedAt, first, readyAt);
    RunKeepsInv(InitialWorld(nonce, startedAt, first, readyAt), steps);
  }

  /** A register two or more revisions ahead makes the observer return 2 with the revision code; it
      neither skips a phase nor accepts the message. */
  lemma TwoAheadFails(nonce: string, startedAt: real, first: Reading, readyAt: real, steps: seq<Step>,
                      acceptProbe: ProcessStatus, probe: ProcessStatus, reading: Reading)
    requires var w := Run(InitialWorld(nonce, startedAt, first, readyAt), steps);
             w.pending.Some? && w.observer.result.None? && w.control.revision >= w.observer.coord.revision + 2
    ensures var w := Run(InitialWorld(nonce, startedAt, first, readyAt), steps);
            var n := Next(w, End(true, acceptProbe, probe, reading));
            && n.observer.result == Some(2) && n.observer.coord.safeCode == RevisionInvalid
            && n.observer.coord.phase == w.observer.coord.phase && n.accepted == w.accepted
  {
    InvInitially(nonce, startedAt, first, readyAt);
    RunKeepsInv(InitialWorld(nonce, startedAt, first, readyAt), steps);
    TwoAheadIsRejected(Run(InitialWorld(nonce, startedAt, first, readyAt), steps), acceptProbe);
  }

  lemma TwoAheadIsRejected(w: World, acceptProbe: ProcessStatus)
    requires CoordinatorInv(w) && RegisterInv(w) && w.pending.Some? && w.observer.result.None?
    requires w.control.revision >= w.observer.coord.revision + 2
    ensures AcceptControl(w.observer.coord, w.control, w.pending.value.now, AcceptStatus(w.pending.value, acceptProbe))
         == Raised(w.observer.coord, RevisionInvalid)
  {}

  /** Exit status 0 means: T1 to T9 accepted in order, every phase observed, the owner running in every
      observation of T1 to T6 and in every one before T7 after it was first seen, T9 accepted on verified
      exit evidence, and the value absent up to some
      point after T0, owned at every later observation and at the end of each of T3 to T9. */
  lemma ReturnsZeroOnlyForACompleteTimeline(nonce: string, startedAt: real, first: Reading, readyAt: real,
                                            steps: seq<Step>)
    requires Run(InitialWorld(nonce, startedAt, first, readyAt), steps).observer.result == Some(0)
    ensures var w := Run(InitialWorld(nonce, startedAt, first, readyAt), steps);
            var log := w.observer.log;
            && |w.accepted| == 9
            && (forall i :: 0 <= i < 9 ==> w.accepted[i].message.phase == i + 1 && !w.accepted[i].message.abort)
            && FinalEvidence(w.accepted[8].status, w.accepted[8].message.terminal)
            && (forall p: Phase :: PhaseSeen(log, p))
            && (forall i, j :: 0 <= i < j < |log| ==> log[i].phase <= log[j].phase)
            && (forall i :: 0 <= i < |log| && 1 <= log[i].phase < BEFORE_SHUTDOWN_PHASE ==> log[i].running)
            && StaysRunning(log)
            && log != [] && log[0].obs.state == Absent && AbsentThenOwned(log)
            && (forall p: Phase :: 3 <= p < 10 ==> PhaseEndsOwned(log, p))
  {
    InvInitially(nonce, startedAt, first, readyAt);
    RunKeepsInv(InitialWorld(nonce, startedAt, first, readyAt), steps);
    VerifiedIffAbsentThenOwned(Run(InitialWorld(nonce, startedAt, first, readyAt), steps).observer.log);
  }

  // ----- An abort is final -----

  /** The register has counted an abort, and the observer has not accepted the final phase. */
  ghost predicate AbortPending(w: World) {
    && w.control.revision > w.control.phase
    && w.observer.coord.phase < FINAL_PHASE
    && w.observer.result != Some(0)
  }

  /** A look returns 0 only in the final phase. */
  lemma LookReturnsZeroOnlyAtTheEnd(o: Observer, probe: ProcessStatus, reading: Reading)
    requires o.result.None? && o.coord.phase < FINAL_PHASE
    ensures var n := Look(o, probe, reading); n.result != Some(0) && n.coord.phase == o.coord.phase
  {}

  lemma EndKeepsAbortPending(w: World, acceptProbe: ProcessStatus, probe: ProcessStatus, reading: Reading)
    requires Inv(w) && AbortPending(w) && w.pending.Some? && w.observer.result.None?
    ensures AbortPending(EndStep(w, true, acceptProbe, probe, reading))
  {
    var p := w.pending.value;
    var status := AcceptStatus(p, acceptProbe);
    AcceptedControlIsNext(w.observer.coord, w.control, p.now, status);
    RejectedControlChangesNothing(w.observer.coord, w.control, p.now, status);
    var c := AcceptControl(w.observer.coord, w.control, p.now, status).next;
    assert c.phase == w.observer.coord.phase;
    LookReturnsZeroOnlyAtTheEnd(w.observer, probe, reading);
    LookReturnsZeroOnlyAtTheEnd(w.observer.(coord := if c.lifecycle == Armed then BeginObserving(c).next else c),
                                probe, reading);
  }

  lemma NextKeepsAbortPending(w: World, s: Step)
    requires Inv(w) && AbortPending(w)
    ensures AbortPending(Next(w, s))
  {
    if s.End? && s.readable && w.pending.Some? && w.observer.result.None? {
      EndKeepsAbortPending(w, s.acceptProbe, s.probe, s.reading);
    }
  }

  lemma {:induction false} RunKeepsAbortPending(w: World, steps: seq<Step>)
    requires Inv(w) && AbortPending(w)
    ensures AbortPending(Run(w, steps))
  {
    if steps != [] {
      RunKeepsAbortPending(w, steps[..|steps| - 1]);
      RunKeepsInv(w, steps[..|steps| - 1]);
      NextKeepsAbortPending(Run(w, steps[..|steps| - 1]), steps[|steps| - 1]);
    }
  }

  lemma {:induction false} RunAppend(w: World, a: seq<Step>, b: seq<Step>)
    ensures Run(w, a + b) == Run(Run(w, a), b)
  {
    if b == [] {
      assert a + b == a;
    } else {
      RunAppend(w, a, b[..|b| - 1]);
      assert (a + b)[..|a + b| - 1] == a + b[..|b| - 1];
    }
  }

  /** Once an abort is written before the observer has accepted T9, no continuation returns 0, even if
      later commands overwrite the abort before it is read. */
  lemma AbortIsFinal(nonce: string, startedAt: real, first: Reading, readyAt: real,
                     before: seq<Step>, abort: Command, after: seq<Step>)
    requires abort.AbortProbe? && abort.nonce == nonce
    requires var w := Run(InitialWorld(nonce, startedAt, first, readyAt), before);
             AbortMessage(w.control, abort).Some? && w.observer.coord.phase != FINAL_PHASE
    ensures Run(InitialWorld(nonce, startedAt, first, readyAt), before + [Write(true, abort)] + after).observer.result
            != Some(0)
  {
    var w0 := InitialWorld(nonce, startedAt, first, readyAt);
    var w := Run(w0, before);
    InvInitially(nonce, startedAt, first, readyAt);
    RunKeepsInv(w0, before);
    NextKeepsInv(w, Write(true, abort));
    var written := before + [Write(true, abort)];
    assert written[..|before|] == before;
    assert Run(w0, written) == Next(w, Write(true, abort));
    RunKeepsAbortPending(Run(w0, written), after);
    RunAppend(w0, written, after);
  }
}
