/**
 Theorems over every schedule of the step system, from the empty journal.
 */
module AdmissionRuns {
  import opened Wrappers
  import opened Journal
  import opened AdmissionTypes
  import opened AdmissionReplay
  import opened AdmissionBuild
  import opened AdmissionSystem
  import opened AdmissionFacts
  import opened AdmissionSafety
  import opened AdmissionQuotas

  // Schedules

  lemma RunNothing(cfg: Config, sys: System)
    ensures Run(cfg, sys, []) == sys
  {
  }

  lemma RunOne(cfg: Config, sys: System, step: Step)
    ensures Run(cfg, sys, [step]) == Next(cfg, sys, step)
  {
    hide Next;
    assert [step][..0] == [];
    RunNothing(cfg, sys);
  }

  lemma {:induction false} RunConcat(cfg: Config, sys: System, a: seq<Step>, b: seq<Step>)
    ensures Run(cfg, sys, a + b) == Run(cfg, Run(cfg, sys, a), b)
    decreases |b|
  {
    hide Next;
    if b == [] {
      assert a + b == a;
    } else {
      assert (a + b)[..|a + b| - 1] == a + b[..|b| - 1];
      RunConcat(cfg, sys, a, b[..|b| - 1]);
    }
  }

  // A committed pair, replayed

  function RecordFor(events: seq<JournalEvent>, c: CommitRequest): Record {
    RecordOf(c.action.request, c.body, OutcomeEventFor(events, c))
  }

  lemma ReservationReplays(cfg: Config, events: seq<JournalEvent>, c: CommitRequest)
    requires Replay(cfg.installation, events).Some? && Settled(Replay(cfg.installation, events).value)
    requires c.action.id.AdmissionAction?
    ensures var s := Replay(cfg.installation, events).value;
            var res := ReservationEventFor(events, c);
            Replay(cfg.installation, events + [res]) ==
            Some(ReplayState(Advance(s.p, res), s.reservations[c.action.id := res]))
  {
    HeadsMatchStore(cfg.installation, events);
    var res := ReservationEventFor(events, c);
    assert (events + [res])[..|events|] == events;
    hide StepOutcome;
  }

  lemma ReadyCommitIsBound(cfg: Config, p: Projection, call: Call, now: int, c: CommitRequest)
    requires Decide(cfg, p, call, now) == Ready(c)
    ensures var request := RequestFor(cfg, call);
            && SemanticKeyOf(request) !in p.transitions && IdempotencyKeyOf(request) !in p.idempotency
            && Build(cfg, p.ledger, call, now) == Ok(c.body) && ValidOutcome(request, c.body)
            && c.action == ActionFor(cfg, p, call) && c.outcomeId == OutcomeIdOf(request.binding)
            && c.occurredAt == now && call.identity.outcomeKind.ActionResult?
            && c.expectedRun == RunHead(p, call.Run()) && c.expectedGlobal == p.position
  {
    hide Build, ValidOutcome;
  }

  lemma PairIsBound(cfg: Config, events: seq<JournalEvent>, p: Projection, call: Call, c: CommitRequest)
    requires c.action == ActionFor(cfg, p, call) && c.outcomeId == OutcomeIdOf(BindingFor(cfg, call))
    requires RunHead(p, call.Run()) == CountRun(events, call.Run())
    ensures ValidPair(cfg.installation, ReservationEventFor(events, c), OutcomeEventFor(events, c), RequestFor(cfg, call))
  {
  }

  lemma OutcomeReplays(inst: string, s: ReplayState, e: JournalEvent)
    requires IsTransition(e) && e.position == s.p.position + 1 && e.runSequence == RunHead(s.p, e.run) + 1
    requires e.action in s.reservations && ValidPair(inst, s.reservations[e.action], e, RecordAt(e).request)
    requires ValidOutcome(RecordAt(e).request, RecordAt(e).body)
    requires SemanticKeyOf(RecordAt(e).request) !in s.p.transitions
    requires IdempotencyKeyOf(RecordAt(e).request) !in s.p.idempotency
    ensures var after := StepEvent(inst, s, e);
            var ledger := Apply(s.p.ledger, RecordAt(e));
            && (after.Some? <==> ledger.Some?)
            && (after.Some? ==> after.value.p.ledger == ledger.value && after.value.reservations == s.reservations - {e.action})
  {
    hide Apply, ValidPair, ValidOutcome;
  }

  /** Replaying a freshly committed pair is applying its transition to the projection it was built from. */
  lemma PairReplays(cfg: Config, events: seq<JournalEvent>, call: Call, now: int, c: CommitRequest)
    requires Rebuild(cfg.installation, events).Some?
    requires Decide(cfg, Rebuild(cfg.installation, events).value, call, now) == Ready(c)
    requires Commit(events, c).Appended?
    ensures var s := Replay(cfg.installation, events).value;
            var r := RecordFor(events, c);
            && r.request == RequestFor(cfg, call)
            && var after := Replay(cfg.installation, Commit(events, c).events);
            && (after.Some? <==> Apply(s.p.ledger, r).Some?)
            && (after.Some? ==>
                  && after.value.p.ledger == Apply(s.p.ledger, r).value
                  && after.value.reservations == s.reservations)
  {
    hide Apply, Decide, ValidOutcome, StepEvent, ValidPair;
    var inst := cfg.installation;
    var s := Replay(inst, events).value;
    var res, out := ReservationEventFor(events, c), OutcomeEventFor(events, c);
    ReadyCommitIsBound(cfg, s.p, call, now, c);
    HeadsMatchStore(inst, events);
    ReservationReplays(cfg, events, c);
    var pair := Commit(events, c).events;
    assert pair == events + [res] + [out];
    assert pair[..|pair| - 1] == events + [res];
    var mid := Replay(inst, events + [res]).value;
    assert Replay(inst, pair) == StepEvent(inst, mid, out);
    PairIsBound(cfg, events, s.p, call, c);
    OutcomeReplays(inst, mid, out);
    assert mid.reservations - {c.action.id} == s.reservations;
  }

  // The invariant

  /** A flight's request was decided from the projection of the prefix it expects to extend. */
  ghost predicate FlightSound(cfg: Config, events: seq<JournalEvent>, f: Flight) {
    && f.call.Valid(cfg) && f.commit.expectedGlobal <= |events|
    && var base := Rebuild(cfg.installation, events[..f.commit.expectedGlobal]);
    && base.Some? && Decide(cfg, base.value, f.call, f.now) == Ready(f.commit)
  }

  ghost predicate JournalSafe(cfg: Config, events: seq<JournalEvent>) {
    var replayed := Replay(cfg.installation, events);
    replayed.Some? ==> Settled(replayed.value) && Safe(cfg.policy, replayed.value.p.ledger)
  }

  ghost predicate SystemInv(cfg: Config, sys: System) {
    && JournalSafe(cfg, sys.journal)
    && forall slot | slot in sys.flights :: FlightSound(cfg, sys.journal, sys.flights[slot])
  }

  lemma FlightStaysSound(cfg: Config, events: seq<JournalEvent>, more: seq<JournalEvent>, f: Flight)
    requires FlightSound(cfg, events, f)
    ensures FlightSound(cfg, events + more, f)
  {
    hide Decide, Rebuild;
    assert (events + more)[..f.commit.expectedGlobal] == events[..f.commit.expectedGlobal];
  }

  /** Appends of other components leave the ledger alone, and block replay exactly when an outcome's payload cannot be read. */
  lemma ForeignReplays(inst: string, events: seq<JournalEvent>, e: JournalEvent)
    requires Replay(inst, events).Some? && Settled(Replay(inst, events).value) && ForeignAllowed(events, e)
    ensures var after := Replay(inst, events + [e]);
            && (after.Some? <==> PayloadReadable(e))
            && (after.Some? ==> Settled(after.value) && after.value.p.ledger == Replay(inst, events).value.p.ledger)
  {
    HeadsMatchStore(inst, events);
    ReservationsKnown(inst, events);
    assert (events + [e])[..|events|] == events;
    hide StepOutcome;
  }

  lemma AppendedExtends(events: seq<JournalEvent>, c: CommitRequest)
    requires Commit(events, c).Appended?
    ensures |events| + 2 == |Commit(events, c).events| && events <= Commit(events, c).events
    ensures c.expectedGlobal == |events|
  {
  }

  lemma CommitIsSafe(cfg: Config, events: seq<JournalEvent>, f: Flight)
    requires JournalSafe(cfg, events) && FlightSound(cfg, events, f) && Commit(events, f.commit).Appended?
    ensures JournalSafe(cfg, Commit(events, f.commit).events)
    ensures Rebuild(cfg.installation, events).Some?
    ensures Replay(cfg.installation, Commit(events, f.commit).events).Some?
            <==> Guard(Rebuild(cfg.installation, events).value.ledger, f.call, f.now)
  {
    hide Decide, StepEvent, Apply, Build, Guard, QuotasKept, LeasesExclusive, Commit;
    AppendedExtends(events, f.commit);
    assert events[..f.commit.expectedGlobal] == events;
    var p := Rebuild(cfg.installation, events).value;
    ReadyCommitIsBound(cfg, p, f.call, f.now, f.commit);
    PairReplays(cfg, events, f.call, f.now, f.commit);
    ReplayIndexed(cfg.installation, events);
    AcceptedIff(cfg, p, f.call, f.now, RecordFor(events, f.commit));
  }

  // One step

  /**
   The only steps that can put something unreadable into the journal are commits that
   miss their guard and other components' outcomes whose payload cannot be read.
   */
  ghost predicate GuardedStep(cfg: Config, sys: System, step: Step) {
    match step
    case Foreign(e) => ForeignAllowed(sys.journal, e) ==> PayloadReadable(e)
    case Prepare(_, _, _) => true
    case CommitFlight(slot) =>
      slot in sys.flights && Commit(sys.journal, sys.flights[slot].commit).Appended? ==>
        var p := Rebuild(cfg.installation, sys.journal);
        p.Some? ==> Guard(p.value.ledger, sys.flights[slot].call, sys.flights[slot].now)
  }

  lemma PrepareKeepsInv(cfg: Config, sys: System, slot: nat, call: Call, now: int)
    requires SystemInv(cfg, sys)
    ensures SystemInv(cfg, PrepareFlight(cfg, sys, slot, call, now))
  {
    hide StepEvent, JournalSafe, Decide;
    var next := PrepareFlight(cfg, sys, slot, call, now);
    if Rebuild(cfg.installation, sys.journal).Some? {
      HeadsMatchStore(cfg.installation, sys.journal);
      var p := Rebuild(cfg.installation, sys.journal).value;
      if Decide(cfg, p, call, now).Ready? {
        ReadyCommitIsBound(cfg, p, call, now, Decide(cfg, p, call, now).commit);
        assert sys.journal[..|sys.journal|] == sys.journal;
      }
    }
  }

  lemma NextKeepsInv(cfg: Config, sys: System, step: Step)
    requires SystemInv(cfg, sys)
    ensures SystemInv(cfg, Next(cfg, sys, step))
    ensures sys.journal <= Next(cfg, sys, step).journal
    ensures Rebuild(cfg.installation, Next(cfg, sys, step).journal).Some?
            <==> Rebuild(cfg.installation, sys.journal).Some? && GuardedStep(cfg, sys, step)
  {
    hide StepEvent, PrepareFlight, Commit, Guard, Safe, FlightSound, ForeignAllowed;
    var next := Next(cfg, sys, step);
    match step
    case Foreign(e) =>
      if ForeignAllowed(sys.journal, e) {
        if Replay(cfg.installation, sys.journal).Some? {
          ForeignReplays(cfg.installation, sys.journal, e);
        } else {
          assert (sys.journal + [e])[..|sys.journal|] == sys.journal;
        }
        forall slot | slot in next.flights ensures FlightSound(cfg, next.journal, next.flights[slot]) {
          FlightStaysSound(cfg, sys.journal, [e], sys.flights[slot]);
        }
      }
    case Prepare(slot, call, elapsed) =>
      PrepareKeepsInv(cfg, sys, slot, call, sys.clock + elapsed);
      PrepareKeepsJournal(cfg, sys, slot, call, sys.clock + elapsed);
    case CommitFlight(slot) =>
      if slot in sys.flights && Commit(sys.journal, sys.flights[slot].commit).Appended? {
        var f := sys.flights[slot];
        CommitIsSafe(cfg, sys.journal, f);
        AppendedExtends(sys.journal, f.commit);
        forall other | other in next.flights ensures FlightSound(cfg, next.journal, next.flights[other]) {
          FlightStaysSound(cfg, sys.journal, next.journal[|sys.journal|..], sys.flights[other]);
          assert next.journal == sys.journal + next.journal[|sys.journal|..];
        }
      }
  }

  lemma PrepareKeepsJournal(cfg: Config, sys: System, slot: nat, call: Call, now: int)
    ensures PrepareFlight(cfg, sys, slot, call, now).journal == sys.journal
    ensures PrepareFlight(cfg, sys, slot, call, now).clock == now
  {
    hide Rebuild, Decide;
  }

  // Every schedule

  ghost predicate GuardedRun(cfg: Config, steps: seq<Step>) {
    steps == [] ||
    (GuardedRun(cfg, steps[..|steps| - 1]) &&
     GuardedStep(cfg, Run(cfg, Initial, steps[..|steps| - 1]), steps[|steps| - 1]))
  }

  lemma InitialInv(cfg: Config)
    ensures SystemInv(cfg, Initial) && Rebuild(cfg.installation, Initial.journal).Some?
  {
    forall d ensures |Occupants(map[], d)| <= Limit(cfg.policy, d) {
      assert Occupants(map[], d) == {};
    }
  }

  /**
   The journal of a schedule rebuilds exactly when every commit met its guard and every
   other component's outcome can be read: one that did not, or cannot, leaves an event
   no later replay gets past.
   */
  lemma {:induction false} RebuildsIffGuarded(cfg: Config, steps: seq<Step>)
    ensures SystemInv(cfg, Run(cfg, Initial, steps))
    ensures Rebuild(cfg.installation, Run(cfg, Initial, steps).journal).Some? <==> GuardedRun(cfg, steps)
  {
    hide SystemInv, GuardedStep, Next, StepEvent, Settled;
    if steps == [] {
      InitialInv(cfg);
    } else {
      RebuildsIffGuarded(cfg, steps[..|steps| - 1]);
      NextKeepsInv(cfg, Run(cfg, Initial, steps[..|steps| - 1]), steps[|steps| - 1]);
    }
  }

  /** Under any interleaving every dimension of every rebuilt projection keeps its limit. */
  lemma QuotasHold(cfg: Config, steps: seq<Step>, d: Dimension)
    requires Rebuild(cfg.installation, Run(cfg, Initial, steps).journal).Some?
    ensures |Occupants(Rebuild(cfg.installation, Run(cfg, Initial, steps).journal).value.ledger.admissions, d)|
            <= Limit(cfg.policy, d)
  {
    hide Run, StepEvent, FlightSound, LeasesExclusive;
    RebuildsIffGuarded(cfg, steps);
  }

  /** Under any interleaving no rebuilt projection exceeds any of the policy's five limits. */
  lemma FiveQuotasHold(cfg: Config, steps: seq<Step>, principal: string, run: string, project: string, primitive: string)
    requires Rebuild(cfg.installation, Run(cfg, Initial, steps).journal).Some?
    ensures var m := Rebuild(cfg.installation, Run(cfg, Initial, steps).journal).value.ledger.admissions;
            && AdmittedInAll(m) <= cfg.policy.installationLimit
            && AdmittedFor(m, principal) <= cfg.policy.principalLimit
            && AdmittedIn(m, run) <= cfg.policy.runLimit
            && AdmittedOf(m, project) <= cfg.policy.projectLimit
            && AdmittedAs(m, primitive) <= cfg.policy.primitiveLimit
  {
    hide Rebuild, Run, Occupants, AdmittedInAll, AdmittedFor, AdmittedIn, AdmittedOf, AdmittedAs;
    var m := Rebuild(cfg.installation, Run(cfg, Initial, steps).journal).value.ledger.admissions;
    CountsAre(m, run, AdmissionSubject("", principal, project, primitive, ""));
    QuotasHold(cfg, steps, WholeInstallation);
    QuotasHold(cfg, steps, ForPrincipal(principal));
    QuotasHold(cfg, steps, ForRun(run));
    QuotasHold(cfg, steps, ForProject(project));
    QuotasHold(cfg, steps, ForPrimitive(primitive));
  }

  /** Under any interleaving two active leases on one resource are both shared. */
  lemma LeasesExclude(cfg: Config, steps: seq<Step>, j: Scoped, k: Scoped)
    requires Rebuild(cfg.installation, Run(cfg, Initial, steps).journal).Some?
    requires var m := Rebuild(cfg.installation, Run(cfg, Initial, steps).journal).value.ledger.leases;
             j in m && k in m && j != k && m[j].state.Active? && m[k].state.Active?
             && m[j].subject.resource == m[k].subject.resource
    ensures var m := Rebuild(cfg.installation, Run(cfg, Initial, steps).journal).value.ledger.leases;
            m[j].subject.mode.Shared? && m[k].subject.mode.Shared?
  {
    hide Run, StepEvent, FlightSound, QuotasKept;
    RebuildsIffGuarded(cfg, steps);
  }
}
