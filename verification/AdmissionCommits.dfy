/**
 The store's commit without its scan, and what every transition a service commits was
 asked for.
 */
module AdmissionCommits {
  import opened Wrappers
  import opened Journal
  import opened AdmissionTypes
  import opened AdmissionReplay
  import opened AdmissionBuild
  import opened AdmissionSystem
  import opened AdmissionRuns
  import opened AdmissionHistory

  // One commit

  /** The two events at i are the request's reservation and outcome. */
  predicate PairAt(events: seq<JournalEvent>, i: nat, c: CommitRequest) {
    && i + 1 < |events|
    && events[i].kind.ActionReserved? && events[i].payload == ActionPayload(c.action)
    && events[i + 1].action == c.action.id && events[i + 1].id == c.outcomeId && events[i + 1].occurredAt == c.occurredAt
    && events[i + 1].kind == c.action.request.binding.identity.outcomeKind
    && events[i + 1].payload == AdmissionPayload(c.action.request, c.body)
  }

  lemma {:induction false} FindsPair(events: seq<JournalEvent>, c: CommitRequest)
    ensures FindCommit(events, c).Some? ==> PairAt(events, FindCommit(events, c).value, c)
    ensures FindCommit(events, c).None? ==> forall i: nat :: !PairAt(events, i, c)
  {
    if |events| >= 2 {
      var n := |events| - 1;
      FindsPair(events[..n], c);
      assert PairAt(events, n - 1, c) <==> SameCommit(events, n - 1, c);
      assert forall i: nat | i < n - 1 :: PairAt(events, i, c) <==> PairAt(events[..n], i, c);
    }
  }

  /** What the store knows stands against a new pair: its action, its key, its identifiers, or a head that moved. */
  ghost predicate Stands(events: seq<JournalEvent>, c: CommitRequest) {
    || (exists e | e in events ::
          || e.action == c.action.id || e.id == c.outcomeId || e.id == ReservationEvent(c.action.run, c.action.id)
          || (e.payload.ActionPayload? && e.payload.action.key == c.action.key))
    || c.expectedGlobal != |events| || c.expectedRun != CountRun(events, c.action.run)
  }

  /** A pair already there is found; otherwise it is appended, as asked, exactly when nothing stands against it. */
  lemma CommitAnswers(events: seq<JournalEvent>, c: CommitRequest)
    ensures match Commit(events, c)
            case Found(i) => PairAt(events, i, c)
            case Rejected => (forall i: nat :: !PairAt(events, i, c)) && Stands(events, c)
            case Appended(after) =>
              && (forall i: nat :: !PairAt(events, i, c)) && !Stands(events, c)
              && |after| == |events| + 2 && events <= after && PairAt(after, |events|, c)
              && after[|events|].run == after[|events| + 1].run == c.action.run
  {
    hide FindCommit, SameCommit, CountRun;
    FindsPair(events, c);
  }

  /** Whatever is appended later, a request that was committed is found again and never appended twice. */
  lemma CommittedIsFound(events: seq<JournalEvent>, c: CommitRequest, more: seq<JournalEvent>)
    requires Commit(events, c).Appended?
    ensures Commit(Commit(events, c).events + more, c).Found?
  {
    CommitAnswers(events, c);
    var later := Commit(events, c).events + more;
    assert PairAt(later, |events|, c);
    hide FindCommit, PairAt;
    CommitAnswers(later, c);
  }

  // Every schedule

  /** What a transition in the journal was asked for, by operation. */
  predicate Asked(cfg: Config, request: Request) {
    var b := request.binding;
    && b.installation == cfg.installation && b.identity.Valid()
    && (b.subject.AdmissionSubj? <==> request.policy == Some(cfg.policy)) && (request.policy.Some? ==> b.subject.AdmissionSubj?)
    && (b.operation.ScannerApply? ==>
          && b.subject.ScannerSubj? && b.subject.authority == cfg.scannerAuthority != ""
          && b.subject.fact.digest == b.subject.recovery.digest && b.subject.fact.receipt != "")
    && (b.operation.CancelOrFence? ==>
          && b.subject.FenceSubj? && b.subject.proof.receipt != ""
          && b.subject.proof.status in {ProviderCanceled, ProviderNotPerformed, ProviderFenced})
    && (b.operation.HandoffIssue? ==> request.predecessor.None?)
    && (b.operation.HandoffGrant? || b.operation.HandoffAcknowledge? ==> request.predecessor.Some?)
  }

  lemma ValidIsAsked(cfg: Config, call: Call)
    requires call.Valid(cfg)
    ensures Asked(cfg, RequestFor(cfg, call))
  {
  }

  ghost predicate AllAsked(cfg: Config, events: seq<JournalEvent>) {
    forall e | e in events && IsTransition(e) :: Asked(cfg, e.payload.request)
  }

  lemma AskedAfterCommit(cfg: Config, events: seq<JournalEvent>, f: Flight)
    requires AllAsked(cfg, events) && FlightSound(cfg, events, f) && Commit(events, f.commit).Appended?
    ensures AllAsked(cfg, Commit(events, f.commit).events)
  {
    hide Decide, Rebuild, ValidOutcome, Asked, Build;
    var c := f.commit;
    ReadyCommitIsBound(cfg, Rebuild(cfg.installation, events[..c.expectedGlobal]).value, f.call, f.now, c);
    ValidIsAsked(cfg, f.call);
    assert OutcomeEventFor(events, c).payload == AdmissionPayload(RequestFor(cfg, f.call), c.body);
  }

  /**
   Over any schedule every transition in the journal was asked for validly: under this
   installation's policy, a scan by its one scanner authority, a fence with a proof.
   */
  lemma {:induction false} EveryTransitionWasAsked(cfg: Config, steps: seq<Step>)
    ensures AllAsked(cfg, Run(cfg, Initial, steps).journal)
  {
    if steps != [] {
      hide Asked, Commit, SystemInv, PrepareFlight, FlightSound;
      var before := Run(cfg, Initial, steps[..|steps| - 1]);
      EveryTransitionWasAsked(cfg, steps[..|steps| - 1]);
      RebuildsIffGuarded(cfg, steps[..|steps| - 1]);
      match steps[|steps| - 1]
      case Foreign(e) =>
      case Prepare(slot, call, elapsed) =>
        PrepareKeepsJournal(cfg, before, slot, call, before.clock + elapsed);
      case CommitFlight(slot) =>
        if slot in before.flights && Commit(before.journal, before.flights[slot].commit).Appended? {
          FlightsSound(cfg, before, slot);
          AskedAfterCommit(cfg, before.journal, before.flights[slot]);
        }
    }
  }
}
