/**
 How transitions lie in the journal: each right behind the reservation its request
 derives, in a journal whose numbering and identifiers no schedule can disturb.
 */
module AdmissionPairs {
  import opened Journal
  import opened AdmissionTypes
  import opened AdmissionReplay
  import opened AdmissionBuild
  import opened AdmissionSystem
  import opened AdmissionFacts
  import opened AdmissionRuns

  // Any replayable journal

  /** An open reservation is the event at its own position. */
  ghost predicate Held(m: map<ActionId, JournalEvent>, events: seq<JournalEvent>) {
    forall a | a in m ::
      && 0 < m[a].position <= |events| && events[m[a].position - 1] == m[a]
      && m[a].kind.ActionReserved? && m[a].action == a
  }

  lemma {:induction false} ReservationsHeld(inst: string, events: seq<JournalEvent>)
    requires Replay(inst, events).Some?
    ensures Held(Replay(inst, events).value.reservations, events)
  {
    if events != [] {
      hide StepEvent, Apply, ValidPair, ValidOutcome, Unseen, Remember;
      var n := |events| - 1;
      ReservationsHeld(inst, events[..n]);
      HeadsMatchStore(inst, events[..n]);
      StepCases(inst, Replay(inst, events[..n]).value, events[n]);
    }
  }

  /** What kind of action each operation is. */
  predicate KindOf(op: Operation, kind: ActionKind) {
    && (kind.AllocateResource? <==>
          || op.AdmissionReserve? || op.QueueEnqueue? || op.QueueAdmit? || op.BackpressureDefer?
          || op.LeaseAcquire? || op.LeaseRenew?)
    && (kind.DisposeResource? <==> op.AdmissionRelease? || op.QueueRelease? || op.LeaseRelease? || op.LeaseExpire?)
    && (kind.Observe? <==> op.StartObservation? || op.CancelOrFence? || op.ScannerApply?)
    && (kind.Send? <==> op.HandoffIssue? || op.HandoffGrant? || op.HandoffAcknowledge?)
  }

  /** The event before carries the action the request derives, and the event itself the outcome. */
  predicate Bound(inst: string, reservation: JournalEvent, e: JournalEvent)
    requires IsTransition(e)
  {
    var b := e.payload.request.binding;
    && reservation.kind.ActionReserved? && reservation.payload.ActionPayload?
    && var action := reservation.payload.action;
    && action.request == e.payload.request && action.run == b.run == e.run == reservation.run
    && action.id == AdmissionAction(inst, b.run, b.identity.action, b.identity.generation)
    && reservation.action == action.id == e.action
    && action.key == ActionKey(inst, b.run, b.identity.key) && KindOf(b.operation, action.kind)
    && action.graphRevision == b.identity.graphRevision != 0 && b.identity.generation != 0
    && action.task == b.identity.task && action.attempt == b.identity.attempt
    && (action.attempt != "" ==> action.task != "")
    && reservation.runSequence == action.expectedProjection + 1
    && e.id == AdmissionOutcomeEvent(inst, b.run, b.identity.outcome) && e.kind.ActionResult?
  }

  /** Every transition of a replayable journal follows directly on the reservation its request derives. */
  lemma TransitionsAreBound(inst: string, events: seq<JournalEvent>, i: nat)
    requires i < |events| && Replay(inst, events).Some? && IsTransition(events[i])
    ensures i > 0 && Bound(inst, events[i - 1], events[i])
  {
    hide StepEvent, Apply, Unseen, Remember;
    hide ValidAdmissionOutcome, ValidReleaseOutcome, ValidLeaseOutcome, ValidLeaseEndOutcome, ValidHandoffOutcome, ValidRecoveryOutcome;
    ReplayPrefix(inst, events, i);
    ReplayPrefix(inst, events, i + 1);
    assert events[..i + 1][..i] == events[..i];
    ReservationsHeld(inst, events[..i]);
    HeadsMatchStore(inst, events[..i]);
    StepCases(inst, Replay(inst, events[..i]).value, events[i]);
  }

  /** A reservation stays open until its transition arrives. */
  lemma {:induction false} OpenUntilSettled(inst: string, events: seq<JournalEvent>, i: nat)
    requires i < |events| && Replay(inst, events).Some? && events[i].kind.ActionReserved?
    requires forall k | i < k < |events| :: !(IsTransition(events[k]) && events[k].action == events[i].action)
    ensures events[i].action in Replay(inst, events).value.reservations
    decreases |events|
  {
    hide ValidOutcome, ValidPair, Apply, Unseen;
    var n := |events| - 1;
    ReplayPrefix(inst, events, n);
    if i < n {
      assert events[..n][i] == events[i];
      OpenUntilSettled(inst, events[..n], i);
    }
  }

  /** No action is reserved again while its reservation is open: its transition stands in between. */
  lemma ReservedAgainMeansSettled(inst: string, events: seq<JournalEvent>, i: nat, j: nat)
    requires i < j < |events| && Replay(inst, events).Some?
    requires events[i].kind.ActionReserved? && events[j].kind.ActionReserved? && events[i].action == events[j].action
    ensures exists k :: i < k < j && IsTransition(events[k]) && events[k].action == events[i].action
  {
    ReplayPrefix(inst, events, j);
    ReplayPrefix(inst, events, j + 1);
    assert events[..j + 1][..j] == events[..j];
    if forall k | i < k < j :: !(IsTransition(events[k]) && events[k].action == events[i].action) {
      OpenUntilSettled(inst, events[..j], i);
    }
  }

  // Any schedule

  /** Positions and run sequences count up, and no identifier repeats. */
  ghost predicate Ordered(events: seq<JournalEvent>) {
    && (forall i | 0 <= i < |events| ::
          events[i].position == i + 1 && events[i].runSequence == CountRun(events[..i], events[i].run) + 1)
    && (forall i, j | 0 <= i < j < |events| :: events[i].id != events[j].id)
  }

  lemma OrderedOne(events: seq<JournalEvent>, e: JournalEvent)
    requires Ordered(events) && e.position == |events| + 1 && e.runSequence == CountRun(events, e.run) + 1
    requires !KnownId(events, e.id)
    ensures Ordered(events + [e])
  {
    var after := events + [e];
    forall i | 0 <= i < |after|
      ensures after[i].position == i + 1 && after[i].runSequence == CountRun(after[..i], after[i].run) + 1
    {
      assert after[..i] == events[..i];
      assert i == |events| ==> events[..i] == events;
    }
    forall i | 0 <= i < |events| ensures events[i].id != e.id {
      assert events[i] in events;
    }
  }

  lemma OrderedPair(events: seq<JournalEvent>, c: CommitRequest)
    requires Ordered(events) && Commit(events, c).Appended? && c.outcomeId.AdmissionOutcomeEvent?
    ensures Ordered(Commit(events, c).events)
  {
    hide Ordered, FindCommit, KnownAction, KnownKey;
    var res, out := ReservationEventFor(events, c), OutcomeEventFor(events, c);
    assert (events + [res])[..|events|] == events;
    assert !KnownId(events + [res], out.id);
    OrderedOne(events, res);
    OrderedOne(events + [res], out);
    assert Commit(events, c).events == events + [res] + [out];
  }

  lemma FlightNamesOutcome(cfg: Config, sys: System, slot: nat)
    requires SystemInv(cfg, sys) && slot in sys.flights
    ensures sys.flights[slot].commit.outcomeId.AdmissionOutcomeEvent?
  {
    hide Decide, Rebuild, JournalSafe;
    var f := sys.flights[slot];
    assert FlightSound(cfg, sys.journal, f);
    ReadyCommitIsBound(cfg, Rebuild(cfg.installation, sys.journal[..f.commit.expectedGlobal]).value, f.call, f.now, f.commit);
  }

  /** Over any schedule, readable or not, the journal stays numbered without gaps and its identifiers unique. */
  lemma {:induction false} JournalStaysOrdered(cfg: Config, steps: seq<Step>)
    ensures Ordered(Run(cfg, Initial, steps).journal)
  {
    if steps != [] {
      hide Ordered, Commit, SystemInv, PrepareFlight;
      var before := Run(cfg, Initial, steps[..|steps| - 1]);
      JournalStaysOrdered(cfg, steps[..|steps| - 1]);
      RebuildsIffGuarded(cfg, steps[..|steps| - 1]);
      match steps[|steps| - 1]
      case Foreign(e) =>
        if ForeignAllowed(before.journal, e) {
          OrderedOne(before.journal, e);
        }
      case Prepare(slot, call, elapsed) =>
        PrepareKeepsJournal(cfg, before, slot, call, before.clock + elapsed);
      case CommitFlight(slot) =>
        if slot in before.flights && Commit(before.journal, before.flights[slot].commit).Appended? {
          FlightNamesOutcome(cfg, before, slot);
          OrderedPair(before.journal, before.flights[slot].commit);
        }
    }
  }
}
