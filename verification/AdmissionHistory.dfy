/**
 Further theorems over every schedule: each transition is committed once, and the
 calling discipline under which the journal can always be replayed.
 */
module AdmissionHistory {
  import opened Wrappers
  import opened AdmissionTypes
  import opened AdmissionReplay
  import opened AdmissionBuild
  import opened AdmissionSystem
  import opened AdmissionFacts
  import opened AdmissionSafety
  import opened AdmissionRuns

  // Exactly-once commit, readable journal or not

  /** A transition sits right after the reservation that carries its action. */
  predicate BoundAt(inst: string, events: seq<JournalEvent>, i: nat)
    requires i < |events|
  {
    IsTransition(events[i]) ==>
      var b := RecordAt(events[i]).request.binding;
      && b.installation == inst && events[i].action == ActionIdOf(b)
      && i > 0 && events[i - 1].payload.ActionPayload? && events[i - 1].payload.action.key == ActionKeyOf(b)
  }

  ghost predicate CommitsUnique(inst: string, events: seq<JournalEvent>) {
    && (forall i | 0 <= i < |events| :: BoundAt(inst, events, i))
    && (forall i, j | 0 <= i < j < |events| && IsTransition(events[i]) && IsTransition(events[j]) ::
          DistinctKeys(RecordAt(events[i]).request, RecordAt(events[j]).request))
  }

  lemma UniqueAfterForeign(inst: string, events: seq<JournalEvent>, e: JournalEvent)
    requires CommitsUnique(inst, events) && ForeignAllowed(events, e)
    ensures CommitsUnique(inst, events + [e])
  {
    var after := events + [e];
    forall i | 0 <= i < |after| ensures BoundAt(inst, after, i) {
      if i < |events| {
        assert BoundAt(inst, events, i);
      }
    }
  }

  lemma UniqueAfterCommit(cfg: Config, events: seq<JournalEvent>, f: Flight)
    requires CommitsUnique(cfg.installation, events) && FlightSound(cfg, events, f)
    requires Commit(events, f.commit).Appended?
    ensures CommitsUnique(cfg.installation, Commit(events, f.commit).events)
  {
    hide Decide, Rebuild, ValidOutcome;
    var c, after := f.commit, Commit(events, f.commit).events;
    var base := Rebuild(cfg.installation, events[..c.expectedGlobal]).value;
    ReadyCommitIsBound(cfg, base, f.call, f.now, c);
    var n := |events|;
    var request := RequestFor(cfg, f.call);
    assert after[n + 1] == OutcomeEventFor(events, c) && after[n] == ReservationEventFor(events, c);
    forall i | 0 <= i < |after| ensures BoundAt(cfg.installation, after, i) {
      if i < n {
        assert BoundAt(cfg.installation, events, i);
      }
    }
    forall i | 0 <= i < n && IsTransition(events[i])
      ensures DistinctKeys(RecordAt(events[i]).request, request)
    {
      assert BoundAt(cfg.installation, events, i);
      assert events[i] in events && events[i - 1] in events;
    }
  }

  /** Over any schedule no two commits share an action generation or an idempotency key. */
  lemma {:induction false} CommittedOnce(cfg: Config, steps: seq<Step>)
    ensures CommitsUnique(cfg.installation, Run(cfg, Initial, steps).journal)
  {
    if steps != [] {
      hide CommitsUnique, Commit, SystemInv, ForeignAllowed, PrepareFlight;
      var before := Run(cfg, Initial, steps[..|steps| - 1]);
      CommittedOnce(cfg, steps[..|steps| - 1]);
      RebuildsIffGuarded(cfg, steps[..|steps| - 1]);
      match steps[|steps| - 1]
      case Foreign(e) =>
        if ForeignAllowed(before.journal, e) {
          UniqueAfterForeign(cfg.installation, before.journal, e);
        }
      case Prepare(slot, call, elapsed) =>
        PrepareKeepsJournal(cfg, before, slot, call, before.clock + elapsed);
      case CommitFlight(slot) =>
        if slot in before.flights && Commit(before.journal, before.flights[slot].commit).Appended? {
          FlightsSound(cfg, before, slot);
          UniqueAfterCommit(cfg, before.journal, before.flights[slot]);
        }
    }
  }

  lemma FlightsSound(cfg: Config, sys: System, slot: nat)
    requires SystemInv(cfg, sys) && slot in sys.flights
    ensures FlightSound(cfg, sys.journal, sys.flights[slot])
  {
    hide FlightSound, JournalSafe;
  }

  // A discipline that keeps the journal readable

  ghost predicate IssuedBy(l: Ledger, clock: int) {
    forall k | k in l.leases :: l.leases[k].issuedAt <= clock
  }

  /**
   Callers enqueue only what is still reserved, no service reads the clock backwards, and
   other components store a readable payload for every outcome they append.
   */
  ghost predicate DisciplinedStep(cfg: Config, sys: System, step: Step) {
    && (step.Foreign? ==> PayloadReadable(step.event))
    && (step.Prepare? ==>
          && step.elapsed >= 0
          && (step.call.AdmissionCall? && Rebuild(cfg.installation, sys.journal).Some? ==>
                Guard(Rebuild(cfg.installation, sys.journal).value.ledger, step.call, 0)))
  }

  ghost predicate DisciplinedRun(cfg: Config, steps: seq<Step>) {
    steps == [] ||
    (DisciplinedRun(cfg, steps[..|steps| - 1]) &&
     DisciplinedStep(cfg, Run(cfg, Initial, steps[..|steps| - 1]), steps[|steps| - 1]))
  }

  ghost predicate FlightGuarded(cfg: Config, sys: System, f: Flight) {
    && f.now <= sys.clock && f.commit.expectedGlobal <= |sys.journal|
    && var base := Rebuild(cfg.installation, sys.journal[..f.commit.expectedGlobal]);
    && base.Some? && Guard(base.value.ledger, f.call, f.now)
  }

  ghost predicate Clocked(cfg: Config, sys: System) {
    && Rebuild(cfg.installation, sys.journal).Some?
    && IssuedBy(Rebuild(cfg.installation, sys.journal).value.ledger, sys.clock)
    && forall slot | slot in sys.flights :: FlightGuarded(cfg, sys, sys.flights[slot])
  }

  lemma IssuedAfterLease(l: Ledger, run: string, lease: Lease, clock: int)
    requires IssuedBy(l, clock) && lease.issuedAt <= clock && ApplyLease(l, run, lease).Some?
    ensures IssuedBy(ApplyLease(l, run, lease).value, clock)
  {
  }

  lemma IssuedAfterEnd(l: Ledger, run: string, s: Subject, t: LeaseTombstone, clock: int)
    requires IssuedBy(l, clock) && ApplyLeaseEnd(l, run, s, t).Some?
    ensures IssuedBy(ApplyLeaseEnd(l, run, s, t).value, clock)
  {
  }

  lemma IssuedAfter(cfg: Config, l: Ledger, call: Call, now: int, r: Record, clock: int)
    requires IssuedBy(l, clock) && now <= clock
    requires Build(cfg, l, call, now) == Ok(r.body) && Apply(l, r).Some?
    ensures IssuedBy(Apply(l, r).value, clock)
  {
    hide ApplyAdmission, ApplyRelease, ApplyLease, ApplyLeaseEnd, ApplyHandoff, ApplyRecovery;
    hide LimitingQuota, LatestRecovery, ConflictingLease;
    if r.body.LeaseBody? {
      IssuedAfterLease(l, r.request.binding.run, r.body.lease, clock);
    } else if r.body.LeaseEndBody? {
      IssuedAfterEnd(l, r.request.binding.run, r.request.binding.subject, r.body.ended, clock);
    }
  }

  lemma FlightStaysGuarded(cfg: Config, sys: System, next: System, f: Flight)
    requires FlightGuarded(cfg, sys, f) && sys.journal <= next.journal && sys.clock <= next.clock
    ensures FlightGuarded(cfg, next, f)
  {
    hide Rebuild, Guard;
    assert next.journal[..f.commit.expectedGlobal] == sys.journal[..f.commit.expectedGlobal];
  }

  lemma ClockedAfterCommit(cfg: Config, events: seq<JournalEvent>, f: Flight, clock: int)
    requires JournalSafe(cfg, events) && FlightSound(cfg, events, f) && Commit(events, f.commit).Appended?
    requires Rebuild(cfg.installation, events).Some? && f.now <= clock
    requires IssuedBy(Rebuild(cfg.installation, events).value.ledger, clock)
    requires Guard(Rebuild(cfg.installation, events).value.ledger, f.call, f.now)
    ensures Rebuild(cfg.installation, Commit(events, f.commit).events).Some?
    ensures IssuedBy(Rebuild(cfg.installation, Commit(events, f.commit).events).value.ledger, clock)
  {
    hide Decide, StepEvent, Apply, Build, Guard, Safe, Commit, IssuedBy, Settled;
    AppendedExtends(events, f.commit);
    assert events[..f.commit.expectedGlobal] == events;
    var p := Rebuild(cfg.installation, events).value;
    CommitIsSafe(cfg, events, f);
    ReadyCommitIsBound(cfg, p, f.call, f.now, f.commit);
    PairReplays(cfg, events, f.call, f.now, f.commit);
    IssuedAfter(cfg, p.ledger, f.call, f.now, RecordFor(events, f.commit), clock);
  }

  lemma ClockedAfterForeign(cfg: Config, sys: System, e: JournalEvent)
    requires Clocked(cfg, sys) && ForeignAllowed(sys.journal, e) && PayloadReadable(e)
    ensures Clocked(cfg, sys.(journal := sys.journal + [e]))
  {
    hide StepEvent, FlightGuarded, IssuedBy;
    var next := sys.(journal := sys.journal + [e]);
    ForeignReplays(cfg.installation, sys.journal, e);
    forall slot | slot in next.flights ensures FlightGuarded(cfg, next, next.flights[slot]) {
      FlightStaysGuarded(cfg, sys, next, sys.flights[slot]);
    }
  }

  lemma ClockedAfterPrepare(cfg: Config, sys: System, slot: nat, call: Call, elapsed: int)
    requires Clocked(cfg, sys) && DisciplinedStep(cfg, sys, Prepare(slot, call, elapsed))
    ensures Clocked(cfg, PrepareFlight(cfg, sys, slot, call, sys.clock + elapsed))
  {
    hide StepEvent, Replay, Settled, Decide;
    var now := sys.clock + elapsed;
    var next := PrepareFlight(cfg, sys, slot, call, now);
    PrepareKeepsJournal(cfg, sys, slot, call, now);
    var p := Rebuild(cfg.installation, sys.journal).value;
    forall other | other in next.flights ensures FlightGuarded(cfg, next, next.flights[other]) {
      if other in sys.flights && next.flights[other] == sys.flights[other] {
        FlightStaysGuarded(cfg, sys, next, sys.flights[other]);
      } else {
        var f := next.flights[other];
        ReadyCommitIsBound(cfg, p, call, now, f.commit);
        PositionIsLength(cfg, sys.journal);
        assert sys.journal[..|sys.journal|] == sys.journal;
      }
    }
  }

  lemma PositionIsLength(cfg: Config, events: seq<JournalEvent>)
    requires Rebuild(cfg.installation, events).Some?
    ensures Rebuild(cfg.installation, events).value.position == |events|
  {
    HeadsMatchStore(cfg.installation, events);
  }

  lemma ClockedAfterFlight(cfg: Config, sys: System, slot: nat)
    requires Clocked(cfg, sys) && SystemInv(cfg, sys) && slot in sys.flights
    ensures Clocked(cfg, Next(cfg, sys, CommitFlight(slot)))
  {
    hide StepEvent, Rebuild, Commit, Guard, IssuedBy, FlightSound, JournalSafe;
    var next := Next(cfg, sys, CommitFlight(slot));
    var f := sys.flights[slot];
    assert FlightGuarded(cfg, sys, f);
    if Commit(sys.journal, f.commit).Appended? {
      AppendedExtends(sys.journal, f.commit);
      assert sys.journal[..f.commit.expectedGlobal] == sys.journal;
      ClockedAfterCommit(cfg, sys.journal, f, sys.clock);
    }
    forall other | other in next.flights ensures FlightGuarded(cfg, next, next.flights[other]) {
      FlightStaysGuarded(cfg, sys, next, sys.flights[other]);
    }
  }

  /** A journal written under the discipline always rebuilds, whatever the interleaving. */
  lemma {:induction false} DisciplinedRunsRebuild(cfg: Config, steps: seq<Step>)
    requires DisciplinedRun(cfg, steps)
    ensures Clocked(cfg, Run(cfg, Initial, steps))
    ensures Rebuild(cfg.installation, Run(cfg, Initial, steps).journal).Some?
  {
    hide StepEvent, PrepareFlight, Commit, SystemInv, FlightGuarded, IssuedBy, Settled, ForeignAllowed, DisciplinedStep;
    if steps == [] {
      InitialInv(cfg);
      EmptyIssued();
    } else {
      var before := Run(cfg, Initial, steps[..|steps| - 1]);
      DisciplinedRunsRebuild(cfg, steps[..|steps| - 1]);
      RebuildsIffGuarded(cfg, steps[..|steps| - 1]);
      match steps[|steps| - 1]
      case Foreign(e) =>
        if ForeignAllowed(before.journal, e) {
          DisciplinedForeign(cfg, before, e);
          ClockedAfterForeign(cfg, before, e);
        }
      case Prepare(slot, call, elapsed) => ClockedAfterPrepare(cfg, before, slot, call, elapsed);
      case CommitFlight(slot) =>
        if slot in before.flights {
          ClockedAfterFlight(cfg, before, slot);
        }
    }
  }

  lemma DisciplinedForeign(cfg: Config, sys: System, e: JournalEvent)
    requires DisciplinedStep(cfg, sys, Foreign(e))
    ensures PayloadReadable(e)
  {
  }

  lemma EmptyIssued()
    ensures IssuedBy(EmptyProjection.ledger, 0)
  {
  }
}
