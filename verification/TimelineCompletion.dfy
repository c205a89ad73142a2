/** Runs that do everything in order, for any times within the deadlines, any number of passes per phase,
    and any process and registry answers that the observer tolerates: whether the observer returns 0 is then
    decided by what it logged alone. */
module TimelineCompletion {
  import opened Wrappers
  import opened TimelineCoordinator
  import opened TimelineLog
  import opened TimelineObserver
  import opened TimelineProtocol

  /** One pass: when it starts, and what it finds. */
  datatype Glance = Glance(now: real, probe: ProcessStatus, reading: Reading)

  /** The owner is registered, the phases are commanded in order, and `stays[p]` are the passes made in
      phase `p`; `accept[p]` is the process status on which the phase is accepted. */
  datatype Plan = Plan(
    nonce: string,
    startedAt: real,
    readyAt: real,
    registration: Registration,
    stays: seq<seq<Glance>>,
    accept: seq<ProcessStatus>,
    conditions: TerminalConditions)

  /** The owner runs until T7; the value is absent or owned. */
  predicate Tolerated(p: Phase, g: Glance) {
    && (if p < BEFORE_SHUTDOWN_PHASE then g.probe.state == Running else g.probe.state in {Running, Exited, NotFound})
    && g.reading.state in {Absent, Owned}
  }

  /** At least one pass in each of T1 to T8 and one in T9. */
  predicate Shaped(plan: Plan) {
    && |plan.stays| == |plan.accept| == 10
    && (forall p: Phase :: p > 0 ==> plan.stays[p] != [])
    && |plan.stays[9]| == 1
  }

  /** No deadline has passed when the pass starts. */
  predicate InTime(plan: Plan, q: Phase, now: real)
    requires Shaped(plan)
  {
    && now - plan.startedAt < DEFAULT_LIMITS.total
    && if q == 0 then now - plan.readyAt < DEFAULT_LIMITS.ready
       else now - plan.stays[1][0].now < DEFAULT_LIMITS.active && now - plan.stays[q][0].now < DEFAULT_LIMITS.lease
  }

  predicate GoodPass(plan: Plan, p: Phase, i: nat)
    requires Shaped(plan) && i < |plan.stays[p]|
  {
    Tolerated(p, plan.stays[p][i]) && InTime(plan, if i == 0 && p > 0 then p - 1 else p, plan.stays[p][i].now)
  }

  ghost predicate Admissible(plan: Plan) {
    && Shaped(plan)
    && plan.registration.nonce == plan.nonce && plan.registration.processId > 0
    && plan.accept[1].state == Running
    && FinalEvidence(Some(plan.accept[9]), Some(plan.conditions))
    && (forall p: Phase, i :: 0 <= i < |plan.stays[p]| ==> GoodPass(plan, p, i))
  }

  // ----- The steps and the log of a plan -----

  function PassSteps(g: Glance, accept: ProcessStatus): seq<Step> {
    [Begin(g.now, true), End(true, accept, g.probe, g.reading)]
  }

  function Passes(gs: seq<Glance>, accept: ProcessStatus): seq<Step> {
    if gs == [] then [] else Passes(gs[..|gs| - 1], accept) + PassSteps(gs[|gs| - 1], accept)
  }

  function CommandFor(plan: Plan, p: Phase): Step {
    if p == 0 then Write(true, SetOwnerPid(plan.registration.processId, plan.nonce, Some(plan.registration.identity)))
    else Write(true, SetPhase(p, p - 1, p, plan.nonce, p == FINAL_PHASE, true, true, plan.conditions))
  }

  /** The steps of the phases before `p`, then its command and its first `n` passes. */
  function StepsUpTo(plan: Plan, p: Phase, n: nat): seq<Step>
    requires Shaped(plan) && n <= |plan.stays[p]|
    decreases p
  {
    (if p == 0 then [] else StepsUpTo(plan, p - 1, |plan.stays[p - 1]|))
    + [CommandFor(plan, p)] + Passes(plan.stays[p][..n], plan.accept[p])
  }

  function EntryOf(p: Phase, g: Glance): Entry { Entry(p, g.probe.state == Running, g.reading) }

  function Entries(p: Phase, gs: seq<Glance>): seq<Entry> {
    if gs == [] then [] else Entries(p, gs[..|gs| - 1]) + [EntryOf(p, gs[|gs| - 1])]
  }

  function LogUpTo(plan: Plan, p: Phase, n: nat): seq<Entry>
    requires Shaped(plan) && n <= |plan.stays[p]|
    decreases p
  {
    (if p == 0 then [Entry(0, false, AbsentObservation())] else LogUpTo(plan, p - 1, |plan.stays[p - 1]|))
    + Entries(p, plan.stays[p][..n])
  }

  function MessageFor(plan: Plan, p: Phase): Control {
    if p == 0 then Control(plan.nonce, 0, None, 0, false, false, None)
    else Control(plan.nonce, p, Some(p - 1), p, p == FINAL_PHASE, false,
                 if p == FINAL_PHASE then Some(plan.conditions) else None)
  }

  function FirstWorld(plan: Plan): World {
    InitialWorld(plan.nonce, plan.startedAt, AbsentObservation(), plan.readyAt)
  }

  // ----- One pass -----

  /** The coordinator in phase `p` between passes. */
  ghost predicate At(c: Coord, plan: Plan, p: Phase)
    requires Shaped(plan)
  {
    && c.nonce == plan.nonce && c.phase == p == c.revision && c.safeCode == NoCode && c.limits == DEFAULT_LIMITS
    && c.startedAt == plan.startedAt && c.readyAt == Some(plan.readyAt)
    && if p == 0 then c.lifecycle == ReadyUnarmed && (c.owner.None? || c.owner == Some(plan.registration))
       else && c.lifecycle == Observing && c.owner == Some(plan.registration)
            && c.activeStartedAt == Some(plan.stays[1][0].now) && c.leaseStartedAt == Some(plan.stays[p][0].now)
  }

  /** The world between passes, when the observer is in phase `p` and the register in phase `q`. */
  ghost predicate Between(w: World, plan: Plan, p: Phase, q: Phase, log: seq<Entry>)
    requires Shaped(plan)
  {
    && w.observer.result.None? && w.pending.None? && At(w.observer.coord, plan, p)
    && w.control == MessageFor(plan, q) && w.ownerFile == Some(plan.registration)
    && w.observer.log == log
  }

  /** A pass begun in time has the owner registered. */
  lemma BeginInTime(w: World, plan: Plan, p: Phase, q: Phase, log: seq<Entry>, now: real)
    requires Admissible(plan) && Between(w, plan, p, q, log) && InTime(plan, p, now)
    ensures var b := BeginStep(w, now, true);
            && b == w.(observer := b.observer, pending := Some(Pending(now, Some(plan.registration))))
            && b.observer == w.observer.(coord := b.observer.coord)
            && At(b.observer.coord, plan, p) && b.observer.coord.owner == Some(plan.registration)
  {
    assert TimeoutCode(w.observer.coord, now) == NotDue;
  }

  /** A look at a tolerated owner and value before the end goes on. */
  lemma LookGoesOn(o: Observer, plan: Plan, p: Phase, g: Glance)
    requires Shaped(plan) && At(o.coord, plan, p) && o.coord.owner.Some? && Tolerated(p, g)
    ensures var n := Look(o, g.probe, g.reading);
            && n == o.(coord := n.coord, log := o.log + [EntryOf(p, g)])
            && At(n.coord, plan, p)
  {}

  /** A pass that finds nothing new in the register. */
  lemma IdlePass(w: World, plan: Plan, p: Phase, log: seq<Entry>, g: Glance, accept: ProcessStatus)
    requires Admissible(plan) && Between(w, plan, p, p, log) && InTime(plan, p, g.now) && Tolerated(p, g)
    ensures Between(Run(w, PassSteps(g, accept)), plan, p, p, log + [EntryOf(p, g)])
  {
    RunTwo(w, Begin(g.now, true), End(true, accept, g.probe, g.reading));
    BeginInTime(w, plan, p, p, log, g.now);
    var b := BeginStep(w, g.now, true);
    LookGoesOn(b.observer, plan, p, g);
    assert EndPass(b.observer, g.now, Some(plan.registration), Content(b.control), accept, g.probe, g.reading)
        == Look(b.observer, g.probe, g.reading);
  }

  /** The coordinator after accepting the next phase before the last. */
  lemma NextAccepted(c: Coord, plan: Plan, p: Phase)
    requires Admissible(plan) && 0 < p < FINAL_PHASE && At(c, plan, p - 1) && c.owner.Some?
    ensures var r := AcceptControl(c, MessageFor(plan, p), plan.stays[p][0].now, Some(plan.accept[p]));
            && r.Done?
            && var d := if r.next.lifecycle == Armed then BeginObserving(r.next).next else r.next;
            At(d, plan, p) && d.owner == c.owner
  {}

  /** The second half of the pass that accepts the next phase before the last. */
  lemma AcceptingEnd(o: Observer, plan: Plan, p: Phase)
    requires Admissible(plan) && 0 < p < FINAL_PHASE && At(o.coord, plan, p - 1) && o.coord.owner.Some?
    ensures var g := plan.stays[p][0];
            var n := EndPass(o, g.now, Some(plan.registration), Content(MessageFor(plan, p)), plan.accept[p],
                             g.probe, g.reading);
            n == o.(coord := n.coord, log := o.log + [EntryOf(p, g)]) && At(n.coord, plan, p)
  {
    var g := plan.stays[p][0];
    assert GoodPass(plan, p, 0);
    NextAccepted(o.coord, plan, p);
    var c := AcceptControl(o.coord, MessageFor(plan, p), g.now, Some(plan.accept[p])).next;
    var d := if c.lifecycle == Armed then BeginObserving(c).next else c;
    LookGoesOn(o.(coord := d), plan, p, g);
  }

  /** The pass that accepts the next phase before the last. */
  lemma AcceptingPass(w: World, plan: Plan, p: Phase, log: seq<Entry>)
    requires Admissible(plan) && 0 < p < FINAL_PHASE && Between(w, plan, p - 1, p, log)
    ensures var g := plan.stays[p][0];
            Between(Run(w, PassSteps(g, plan.accept[p])), plan, p, p, log + [EntryOf(p, g)])
  {
    var g := plan.stays[p][0];
    assert GoodPass(plan, p, 0);
    RunTwo(w, Begin(g.now, true), End(true, plan.accept[p], g.probe, g.reading));
    BeginInTime(w, plan, p - 1, p, log, g.now);
    AcceptingEnd(BeginStep(w, g.now, true).observer, plan, p);
  }

  /** The observer has returned what the log is worth. */
  predicate ReturnsFor(o: Observer, log: seq<Entry>) {
    o.log == log && o.result == Some(if Verdict(log) == TimelineVerified then 0 else 2)
  }

  /** The last pass returns what the log is worth. */
  lemma FinalPass(w: World, plan: Plan, p: Phase, log: seq<Entry>)
    requires Admissible(plan) && p == FINAL_PHASE && Between(w, plan, p - 1, p, log)
    ensures var g := plan.stays[p][0];
            ReturnsFor(Run(w, PassSteps(g, plan.accept[p])).observer, log + [EntryOf(p, g)])
  {
    var g, accept := plan.stays[p][0], plan.accept[p];
    assert GoodPass(plan, p, 0);
    RunTwo(w, Begin(g.now, true), End(true, accept, g.probe, g.reading));
    BeginInTime(w, plan, p - 1, p, log, g.now);
    var b := BeginStep(w, g.now, true);
    var accepted := AcceptControl(b.observer.coord, b.control, g.now, Some(accept));
    assert accepted.Done? && accepted.next.lifecycle == Finalizing && accepted.next.phase == FINAL_PHASE;
    FinalLook(b.observer.(coord := accepted.next), g);
    assert EndPass(b.observer, g.now, Some(plan.registration), Content(b.control), accept, g.probe, g.reading)
        == Look(b.observer.(coord := accepted.next), g.probe, g.reading);
  }

  lemma FinalLook(o: Observer, g: Glance)
    requires o.coord.lifecycle == Finalizing && o.coord.phase == FINAL_PHASE && o.coord.safeCode == NoCode
    requires o.coord.owner.Some? && Tolerated(9, g)
    ensures ReturnsFor(Look(o, g.probe, g.reading), o.log + [EntryOf(9, g)])
  {
    var c := ObserveOwnerStatus(o.coord, Some(g.probe)).0;
    assert c.lifecycle == Finalizing && c.safeCode == NoCode && c.phase == FINAL_PHASE;
  }

  lemma RunTwo(w: World, a: Step, b: Step)
    ensures Run(w, [a, b]) == Next(Next(w, a), b)
  {
    RunOne(w, a);
    assert [a, b][..1] == [a];
  }

  lemma RunOne(w: World, a: Step)
    ensures Run(w, [a]) == Next(w, a)
  {
    assert [a][..0] == [];
  }

  // ----- Whole runs -----

  lemma PassesGrow(gs: seq<Glance>, n: nat, p: Phase, accept: ProcessStatus)
    requires n < |gs|
    ensures Passes(gs[..n + 1], accept) == Passes(gs[..n], accept) + PassSteps(gs[n], accept)
    ensures Entries(p, gs[..n + 1]) == Entries(p, gs[..n]) + [EntryOf(p, gs[n])]
  {
    assert gs[..n + 1][..n] == gs[..n];
  }

  /** The command of a phase before the last puts its message into the register. */
  lemma Commanded(w: World, plan: Plan, p: Phase, log: seq<Entry>)
    requires Admissible(plan) && 0 < p && Between(w, plan, p - 1, p - 1, log)
    ensures Between(Next(w, CommandFor(plan, p)), plan, p - 1, p, log)
  {
    assert Next(w, CommandFor(plan, p)) == w.(control := MessageFor(plan, p));
  }

  lemma Registered(plan: Plan)
    requires Admissible(plan)
    ensures Between(Next(FirstWorld(plan), CommandFor(plan, 0)), plan, 0, 0, [Entry(0, false, AbsentObservation())])
  {}

  /** One more pass: the steps and the log of the longer run. */
  lemma StepsGrow(plan: Plan, p: Phase, n: nat)
    requires Shaped(plan) && n < |plan.stays[p]|
    ensures StepsUpTo(plan, p, n + 1) == StepsUpTo(plan, p, n) + PassSteps(plan.stays[p][n], plan.accept[p])
    ensures LogUpTo(plan, p, n + 1) == LogUpTo(plan, p, n) + [EntryOf(p, plan.stays[p][n])]
  {
    PassesGrow(plan.stays[p], n, p, plan.accept[p]);
  }

  lemma RunGrows(plan: Plan, p: Phase, n: nat)
    requires Shaped(plan) && n < |plan.stays[p]|
    ensures Run(FirstWorld(plan), StepsUpTo(plan, p, n + 1))
         == Run(Run(FirstWorld(plan), StepsUpTo(plan, p, n)), PassSteps(plan.stays[p][n], plan.accept[p]))
    ensures LogUpTo(plan, p, n + 1) == LogUpTo(plan, p, n) + [EntryOf(p, plan.stays[p][n])]
  {
    StepsGrow(plan, p, n);
    RunAppend(FirstWorld(plan), StepsUpTo(plan, p, n), PassSteps(plan.stays[p][n], plan.accept[p]));
  }

  lemma PhaseStarts(plan: Plan, p: Phase)
    requires Shaped(plan)
    ensures p == 0 ==> StepsUpTo(plan, p, 0) == [CommandFor(plan, p)]
                       && LogUpTo(plan, p, 0) == [Entry(0, false, AbsentObservation())]
    ensures p > 0 ==> StepsUpTo(plan, p, 0) == StepsUpTo(plan, p - 1, |plan.stays[p - 1]|) + [CommandFor(plan, p)]
                      && LogUpTo(plan, p, 0) == LogUpTo(plan, p - 1, |plan.stays[p - 1]|)
  {
    assert plan.stays[p][..0] == [];
  }

  /** Where a run is after the first `n` passes of a phase before the last. */
  lemma {:induction false} RunReaches(plan: Plan, p: Phase, n: nat)
    requires Admissible(plan) && p < FINAL_PHASE && n <= |plan.stays[p]|
    ensures Between(Run(FirstWorld(plan), StepsUpTo(plan, p, n)), plan, if n == 0 && p > 0 then p - 1 else p, p,
                    LogUpTo(plan, p, n))
    decreases p, n + 1
  {
    if n == 0 && p == 0 {
      PhaseStarts(plan, p);
      RunOne(FirstWorld(plan), CommandFor(plan, 0));
      Registered(plan);
    } else if n == 0 {
      PhaseReached(plan, p);
    } else {
      RunReaches(plan, p, n - 1);
      RunGrows(plan, p, n - 1);
      OneMorePass(Run(FirstWorld(plan), StepsUpTo(plan, p, n - 1)), plan, p, n - 1, LogUpTo(plan, p, n - 1));
    }
  }

  lemma OneMorePass(w: World, plan: Plan, p: Phase, n: nat, log: seq<Entry>)
    requires Admissible(plan) && p < FINAL_PHASE && n < |plan.stays[p]|
    requires Between(w, plan, if n == 0 && p > 0 then p - 1 else p, p, log)
    ensures var g := plan.stays[p][n];
            Between(Run(w, PassSteps(g, plan.accept[p])), plan, p, p, log + [EntryOf(p, g)])
  {
    if n == 0 && p > 0 {
      AcceptingPass(w, plan, p, log);
    } else {
      assert GoodPass(plan, p, n);
      IdlePass(w, plan, p, log, plan.stays[p][n], plan.accept[p]);
    }
  }

  /** The register commands the phase after the one before it has been run through. */
  lemma {:induction false} PhaseReached(plan: Plan, p: Phase)
    requires Admissible(plan) && 0 < p
    ensures Between(Run(FirstWorld(plan), StepsUpTo(plan, p, 0)), plan, p - 1, p, LogUpTo(plan, p, 0))
    decreases p, 0
  {
    var w0, before := FirstWorld(plan), StepsUpTo(plan, p - 1, |plan.stays[p - 1]|);
    PhaseStarts(plan, p);
    RunReaches(plan, p - 1, |plan.stays[p - 1]|);
    RunAppend(w0, before, [CommandFor(plan, p)]);
    RunOne(Run(w0, before), CommandFor(plan, p));
    Commanded(Run(w0, before), plan, p, LogUpTo(plan, p, 0));
  }

  /** Every pass is logged. */
  function FullLog(plan: Plan): seq<Entry>
    requires Shaped(plan)
  {
    LogUpTo(plan, 9, 1)
  }

  lemma FinalReturns(w: World, n: World, plan: Plan, p: Phase, log: seq<Entry>, full: seq<Entry>)
    requires Admissible(plan) && p == FINAL_PHASE && Between(w, plan, p - 1, p, log)
    requires n == Run(w, PassSteps(plan.stays[p][0], plan.accept[p])) && full == log + [EntryOf(p, plan.stays[p][0])]
    ensures ReturnsFor(n.observer, full)
  {
    FinalPass(w, plan, p, log);
  }

  /** The run up to the command of the last phase, and the pass that follows it. */
  lemma LastPhaseRun(plan: Plan, p: Phase) returns (w: World, n: World)
    requires Admissible(plan) && p > 0
    ensures Between(w, plan, p - 1, p, LogUpTo(plan, p, 0))
    ensures n == Run(w, PassSteps(plan.stays[p][0], plan.accept[p])) == Run(FirstWorld(plan), StepsUpTo(plan, p, 1))
    ensures LogUpTo(plan, p, 1) == LogUpTo(plan, p, 0) + [EntryOf(p, plan.stays[p][0])]
  {
    PhaseReached(plan, p);
    RunGrows(plan, p, 0);
    w, n := Run(FirstWorld(plan), StepsUpTo(plan, p, 0)), Run(FirstWorld(plan), StepsUpTo(plan, p, 1));
  }

  /** The log is absent and then owned, and each of T3 to T9 ends owned. */
  ghost predicate CompleteLog(log: seq<Entry>) {
    AbsentThenOwned(log) && forall p: Phase :: 3 <= p < 10 ==> PhaseEndsOwned(log, p)
  }

  /** A run in order returns at T9, with 0 exactly when its log is complete. */
  lemma InOrderRunReturnsZeroIff(plan: Plan)
    requires Admissible(plan)
    ensures var o := Run(FirstWorld(plan), StepsUpTo(plan, 9, 1)).observer;
            && o.log == FullLog(plan) && o.result.Some?
            && (o.result == Some(0) <==> CompleteLog(FullLog(plan)))
  {
    var w, n := LastPhaseRun(plan, 9);
    FinalReturns(w, n, plan, 9, LogUpTo(plan, 9, 0), FullLog(plan));
    LogIsBuilt(plan, 9, 1);
    VerifiedIffAbsentThenOwned(FullLog(plan));
  }

  lemma {:induction false} LogIsBuilt(plan: Plan, p: Phase, n: nat)
    requires Shaped(plan) && n <= |plan.stays[p]|
    ensures forall i :: 0 <= i < |LogUpTo(plan, p, n)| ==> FactoryBuilt(LogUpTo(plan, p, n)[i].obs)
    decreases p
  {
    if p > 0 { LogIsBuilt(plan, p - 1, |plan.stays[p - 1]|); }
    EntriesBuilt(p, plan.stays[p][..n]);
  }

  lemma {:induction false} EntriesBuilt(p: Phase, gs: seq<Glance>)
    ensures forall i :: 0 <= i < |Entries(p, gs)| ==> FactoryBuilt(Entries(p, gs)[i].obs)
  {
    if gs != [] { EntriesBuilt(p, gs[..|gs| - 1]); }
  }

  // ----- Such a run exists -----

  const RUNNING := ProcessStatus(Running, true, None)

  /** One pass per phase at one instant, the value owned from T3 on. */
  function SimplePlan(nonce: string, r: Registration, owned: Reading, conditions: TerminalConditions,
                      final: ProcessStatus): Plan
  {
    Plan(nonce, 0.0, 0.0, r,
         seq(10, p requires 0 <= p < 10 => [Glance(0.0, RUNNING, if p < 3 then AbsentObservation() else owned)]),
         seq(10, p => if p == 9 then final else RUNNING), conditions)
  }

  lemma {:induction false} SimpleLog(plan: Plan, nonce: string, r: Registration, owned: Reading,
                                     conditions: TerminalConditions, final: ProcessStatus, p: Phase)
    requires plan == SimplePlan(nonce, r, owned, conditions, final)
    ensures Shaped(plan) && |LogUpTo(plan, p, 1)| == p + 2
    ensures forall i :: 1 <= i <= p + 1 ==>
      LogUpTo(plan, p, 1)[i] == Entry(i - 1, true, if i - 1 < 3 then AbsentObservation() else owned)
    ensures LogUpTo(plan, p, 1)[0] == Entry(0, false, AbsentObservation())
  {
    if p > 0 { SimpleLog(plan, nonce, r, owned, conditions, final, p - 1); }
    var g := plan.stays[p][0];
    assert plan.stays[p][..1] == [g] && [g][..0] == [];
    assert Entries(p, [g]) == Entries(p, [g][..0]) + [EntryOf(p, g)] == [EntryOf(p, g)];
  }

  /** The protocol can be completed, with either kind of exit evidence. */
  lemma TimelineInOrderReturnsZero(nonce: string, r: Registration, owned: Reading, conditions: TerminalConditions,
                                   final: ProcessStatus)
    requires r.nonce == nonce && r.processId > 0 && owned.state == Owned
    requires FinalEvidence(Some(final), Some(conditions))
    ensures var plan := SimplePlan(nonce, r, owned, conditions, final);
            Admissible(plan) && Run(FirstWorld(plan), StepsUpTo(plan, 9, 1)).observer.result == Some(0)
  {
    var plan := SimplePlan(nonce, r, owned, conditions, final);
    SimplePlanAdmissible(nonce, r, owned, conditions, final);
    SimpleLog(plan, nonce, r, owned, conditions, final, 9);
    SimpleLogIsComplete(FullLog(plan), owned);
    InOrderRunReturnsZeroIff(plan);
  }

  lemma SimplePlanAdmissible(nonce: string, r: Registration, owned: Reading, conditions: TerminalConditions,
                             final: ProcessStatus)
    requires r.nonce == nonce && r.processId > 0 && owned.state == Owned
    requires FinalEvidence(Some(final), Some(conditions))
    ensures Admissible(SimplePlan(nonce, r, owned, conditions, final))
  {
    var plan := SimplePlan(nonce, r, owned, conditions, final);
    forall p: Phase, i | 0 <= i < |plan.stays[p]| ensures GoodPass(plan, p, i) {
      assert plan.stays[p] == [Glance(0.0, RUNNING, if p < 3 then AbsentObservation() else owned)];
    }
  }

  lemma SimpleLogIsComplete(log: seq<Entry>, owned: Reading)
    requires |log| == 11 && log[0] == Entry(0, false, AbsentObservation()) && owned.state == Owned
    requires forall i :: 1 <= i <= 10 ==> log[i] == Entry(i - 1, true, if i - 1 < 3 then AbsentObservation() else owned)
    ensures CompleteLog(log)
  {
    assert SwitchesAt(log, 4);
    forall p: Phase | 3 <= p < 10 ensures PhaseEndsOwned(log, p) {
      assert LastOwnedOf(log, p, p + 1);
    }
  }
}
