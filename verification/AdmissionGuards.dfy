/**
 The three ways a journal can come to hold what no later replay reads, as concrete
 schedules: enqueueing an admission that is no longer merely reserved, releasing a
 lease by a clock that stands before the lease was issued, and an outcome of another
 component whose payload was not stored or cannot be read.
 */
module AdmissionGuards {
  import opened Wrappers
  import opened Journal
  import opened AdmissionTypes
  import opened AdmissionReplay
  import opened AdmissionBuild
  import opened AdmissionSystem
  import opened AdmissionFacts
  import opened AdmissionRuns

  // The writer's own check never fails

  lemma AdmissionBuiltValid(cfg: Config, l: Ledger, call: Call, now: int)
    requires AdmissionsKeyed(l.admissions) && call.Valid(cfg) && cfg.policy.version != 0 && now != 0
    requires call.ReserveCall? || call.AdmissionCall? || call.ReleaseCall?
    requires call.identity.outcomeKind.ActionResult? && Build(cfg, l, call, now).Ok?
    ensures ValidOutcome(RequestFor(cfg, call), Build(cfg, l, call, now).value)
  {
    hide LimitingQuota;
  }

  lemma LeaseBuiltValid(cfg: Config, l: Ledger, call: Call, now: int)
    requires LeasesKeyed(l.leases) && call.Valid(cfg) && now != 0
    requires call.AcquireCall? || call.RenewCall? || call.EndLeaseCall?
    requires call.identity.outcomeKind.ActionResult? && Build(cfg, l, call, now).Ok?
    ensures ValidOutcome(RequestFor(cfg, call), Build(cfg, l, call, now).value)
  {
    hide ConflictingLease;
  }

  lemma RecoveryBuiltValid(cfg: Config, l: Ledger, call: Call, now: int)
    requires call.Valid(cfg) && call.identity.outcomeKind.ActionResult? && Build(cfg, l, call, now).Ok?
    requires call.StartCall? || call.FenceCall? || call.ScannerCall? || call.HandoffCall?
    ensures ValidOutcome(RequestFor(cfg, call), Build(cfg, l, call, now).value)
  {
    hide LatestRecovery, MayStartGeneration;
  }

  /** Whatever a builder produces from a replayed projection passes the checks made before the commit. */
  lemma BuiltIsValid(cfg: Config, p: Projection, call: Call, now: int)
    requires Indexed(p) && call.Valid(cfg) && cfg.policy.version != 0 && now != 0
    requires call.identity.outcomeKind.ActionResult? && Build(cfg, p.ledger, call, now).Ok?
    ensures ValidOutcome(RequestFor(cfg, call), Build(cfg, p.ledger, call, now).value)
    ensures Decide(cfg, p, call, now) != Refused(InvalidRecord)
  {
    hide Build, ValidOutcome, ReceiptsCommitted, TransitionsKeyed, RecoveriesKeyed;
    match call
    case ReserveCall(_, _, _) => AdmissionBuiltValid(cfg, p.ledger, call, now);
    case AdmissionCall(_, _, _, _, _) => AdmissionBuiltValid(cfg, p.ledger, call, now);
    case ReleaseCall(_, _, _, _) => AdmissionBuiltValid(cfg, p.ledger, call, now);
    case AcquireCall(_, _, _, _) => LeaseBuiltValid(cfg, p.ledger, call, now);
    case RenewCall(_, _, _, _) => LeaseBuiltValid(cfg, p.ledger, call, now);
    case EndLeaseCall(_, _, _, _, _) => LeaseBuiltValid(cfg, p.ledger, call, now);
    case HandoffCall(_, _, _, _, _) => RecoveryBuiltValid(cfg, p.ledger, call, now);
    case StartCall(_, _) => RecoveryBuiltValid(cfg, p.ledger, call, now);
    case FenceCall(_, _, _) => RecoveryBuiltValid(cfg, p.ledger, call, now);
    case ScannerCall(_, _, _, _) => RecoveryBuiltValid(cfg, p.ledger, call, now);
  }

  // A call whose identifiers are new is committed

  /** No event carries any identifier the call would write. */
  ghost predicate Unused(cfg: Config, events: seq<JournalEvent>, call: Call) {
    var b := BindingFor(cfg, call);
    forall e | e in events ::
      && e.action != ActionIdOf(b) && e.id != OutcomeIdOf(b) && e.id != ReservationEvent(call.Run(), ActionIdOf(b))
      && (e.payload.ActionPayload? ==> e.payload.action.key != ActionKeyOf(b) && e.payload.action.id != ActionIdOf(b))
      && (IsTransition(e) ==> DistinctKeys(RecordAt(e).request, RequestFor(cfg, call)))
  }

  lemma {:induction false} NotFound(cfg: Config, events: seq<JournalEvent>, call: Call, c: CommitRequest)
    requires Unused(cfg, events, call) && c.action.id == ActionIdOf(BindingFor(cfg, call))
    ensures FindCommit(events, c).None?
  {
    if |events| >= 2 {
      assert events[|events| - 2] in events;
      NotFound(cfg, events[..|events| - 1], call, c);
    }
  }

  lemma UnusedAppends(cfg: Config, events: seq<JournalEvent>, p: Projection, call: Call, c: CommitRequest)
    requires Unused(cfg, events, call) && HeadsCount(p, events)
    requires c.action == ActionFor(cfg, p, call) && c.outcomeId == OutcomeIdOf(BindingFor(cfg, call))
    requires c.expectedRun == RunHead(p, call.Run()) && c.expectedGlobal == p.position
    ensures Commit(events, c).Appended?
  {
    hide FindCommit, CountRun;
    NotFound(cfg, events, call, c);
  }

  lemma UnusedIsReady(cfg: Config, events: seq<JournalEvent>, call: Call, now: int)
    requires Rebuild(cfg.installation, events).Some? && Unused(cfg, events, call)
    requires call.Valid(cfg) && cfg.policy.version != 0 && now != 0 && call.identity.outcomeKind.ActionResult?
    requires Build(cfg, Rebuild(cfg.installation, events).value.ledger, call, now).Ok?
    ensures Decide(cfg, Rebuild(cfg.installation, events).value, call, now).Ready?
  {
    hide Build, ValidOutcome, StepEvent, Settled;
    var p := Rebuild(cfg.installation, events).value;
    IndexFromJournal(cfg.installation, events);
    ReplayIndexed(cfg.installation, events);
    BuiltIsValid(cfg, p, call, now);
  }

  ghost function After(cfg: Config, events: seq<JournalEvent>, call: Call, now: int): seq<JournalEvent> {
    var p := Rebuild(cfg.installation, events);
    if p.None? then events
    else
      var d := Decide(cfg, p.value, call, now);
      if d.Ready? && Commit(events, d.commit).Appended? then Commit(events, d.commit).events else events
  }

  /**
   Undisturbed, a call with new identifiers whose builder succeeds is committed, and
   the journal it leaves replays exactly when replay accepts the transition.
   */
  lemma UnusedCallLands(cfg: Config, events: seq<JournalEvent>, call: Call, now: int)
    requires Rebuild(cfg.installation, events).Some? && Unused(cfg, events, call)
    requires call.Valid(cfg) && cfg.policy.version != 0 && now != 0 && call.identity.outcomeKind.ActionResult?
    requires Build(cfg, Rebuild(cfg.installation, events).value.ledger, call, now).Ok?
    ensures var l := Rebuild(cfg.installation, events).value.ledger;
            var after := After(cfg, events, call, now);
            var r := Record(RequestFor(cfg, call), Build(cfg, l, call, now).value,
                            CountRun(events, call.Run()) + 2, |events| + 2);
            && |after| == |events| + 2
            && (Rebuild(cfg.installation, after).Some? <==> Apply(l, r).Some?)
            && (Apply(l, r).Some? ==> Rebuild(cfg.installation, after).value.ledger == Apply(l, r).value)
            && (forall other | Unused(cfg, events, other) && Apart(call, other) :: Unused(cfg, after, other))
  {
    hide Build, ValidOutcome, StepEvent, Apply, Decide, Unused, CountRun, FindCommit;
    var p := Rebuild(cfg.installation, events).value;
    UnusedIsReady(cfg, events, call, now);
    var c := Decide(cfg, p, call, now).commit;
    ReadyCommitIsBound(cfg, p, call, now, c);
    HeadsMatchStore(cfg.installation, events);
    UnusedAppends(cfg, events, p, call, c);
    PairReplays(cfg, events, call, now, c);
    forall other | Unused(cfg, events, other) && Apart(call, other)
      ensures Unused(cfg, After(cfg, events, call, now), other)
    {
      UnusedAfter(cfg, events, p, call, c, other);
    }
  }

  /** Two calls of one run that share no identifier. */
  predicate Apart(a: Call, b: Call) {
    && a.Run() == b.Run() && a.identity.action != b.identity.action
    && a.identity.key != b.identity.key && a.identity.outcome != b.identity.outcome
  }

  lemma UnusedAfter(cfg: Config, events: seq<JournalEvent>, p: Projection, call: Call, c: CommitRequest, other: Call)
    requires Unused(cfg, events, other) && Apart(call, other)
    requires c.action == ActionFor(cfg, p, call) && c.outcomeId == OutcomeIdOf(BindingFor(cfg, call))
    requires Commit(events, c).Appended?
    ensures Unused(cfg, Commit(events, c).events, other)
  {
    hide FindCommit, CountRun, KnownAction, KnownKey, KnownId;
  }

  // Concrete schedules

  function CallSteps(call: Call, elapsed: int): seq<Step> {
    [Prepare(0, call, elapsed), CommitFlight(0)]
  }

  lemma CallRuns(cfg: Config, sys: System, call: Call, elapsed: int)
    requires call.Valid(cfg)
    ensures Run(cfg, sys, CallSteps(call, elapsed)).journal == After(cfg, sys.journal, call, sys.clock + elapsed)
    ensures Run(cfg, sys, CallSteps(call, elapsed)).clock == sys.clock + elapsed
  {
    hide Decide, Rebuild, Commit, ForeignAllowed, Run;
    var prepare := Prepare(0, call, elapsed);
    assert CallSteps(call, elapsed) == [prepare] + [CommitFlight(0)];
    RunConcat(cfg, sys, [prepare], [CommitFlight(0)]);
    RunOne(cfg, sys, prepare);
    RunOne(cfg, Run(cfg, sys, [prepare]), CommitFlight(0));
  }

  const EXAMPLE: Config := Config("installation", Policy(1, 1, 1, 1, 1, 1), "")

  function Named(name: string): TransitionIdentity {
    TransitionIdentity(name, name, name, ActionResult, 1, 1, "", "")
  }

  const WORK: AdmissionSubject := AdmissionSubject("id", "principal", "project", "primitive", "work")

  const RESERVE: Call := ReserveCall("run", Named("first"), WORK)
  const ENQUEUE: Call := AdmissionCall("run", Named("second"), WORK, QueueEnqueue, NoQuota)
  const ENQUEUE_AGAIN: Call := AdmissionCall("run", Named("third"), WORK, QueueEnqueue, NoQuota)

  lemma EmptyRebuilds(cfg: Config)
    ensures Rebuild(cfg.installation, []) == Some(EmptyProjection)
  {
  }

  lemma NamesDiffer()
    ensures "first" != "second" && "first" != "third" && "second" != "third"
  {
    assert "first"[0] == 'f' && "second"[0] == 's' && "third"[0] == 't';
  }

  /** Reserve, enqueue, enqueue again: all three are committed, and the journal can no longer be replayed. */
  lemma EnqueueTwiceIsUnreadable()
    ensures var steps := CallSteps(RESERVE, 1) + CallSteps(ENQUEUE, 0) + CallSteps(ENQUEUE_AGAIN, 0);
            var journal := Run(EXAMPLE, Initial, steps).journal;
            |journal| == 6 && Rebuild(EXAMPLE.installation, journal).None?
  {
    hide Rebuild, Decide, Commit, Run, After, Unused, CountRun;
    NamesDiffer();
    EmptyRebuilds(EXAMPLE);
    var s1 := Run(EXAMPLE, Initial, CallSteps(RESERVE, 1));
    CallRuns(EXAMPLE, Initial, RESERVE, 1);
    UnusedEmpty(EXAMPLE, RESERVE);
    UnusedEmpty(EXAMPLE, ENQUEUE);
    UnusedEmpty(EXAMPLE, ENQUEUE_AGAIN);
    UnusedCallLands(EXAMPLE, [], RESERVE, 1);
    var s2 := Run(EXAMPLE, s1, CallSteps(ENQUEUE, 0));
    RunConcat(EXAMPLE, Initial, CallSteps(RESERVE, 1), CallSteps(ENQUEUE, 0));
    CallRuns(EXAMPLE, s1, ENQUEUE, 0);
    UnusedCallLands(EXAMPLE, s1.journal, ENQUEUE, 1);
    RunConcat(EXAMPLE, Initial, CallSteps(RESERVE, 1) + CallSteps(ENQUEUE, 0), CallSteps(ENQUEUE_AGAIN, 0));
    CallRuns(EXAMPLE, s2, ENQUEUE_AGAIN, 0);
    UnusedCallLands(EXAMPLE, s2.journal, ENQUEUE_AGAIN, 1);
  }

  lemma UnusedEmpty(cfg: Config, call: Call)
    ensures Unused(cfg, [], call)
  {
  }

  const HELD: LeaseSubject := LeaseSubject("id", ResourceKey("space", "project", "name"), Exclusive, "holder")
  const ACQUIRE: Call := AcquireCall("run", Named("first"), HELD, 100)
  const RELEASE_EARLY: Call := EndLeaseCall("run", Named("second"), HELD, 100, false)

  /** A lease acquired at 10 and released by a clock at 5: both are committed, and replay stops at the release. */
  lemma EarlyReleaseIsUnreadable()
    ensures var steps := CallSteps(ACQUIRE, 10) + CallSteps(RELEASE_EARLY, -5);
            var journal := Run(EXAMPLE, Initial, steps).journal;
            |journal| == 4 && Rebuild(EXAMPLE.installation, journal).None?
  {
    hide Rebuild, Decide, Commit, Run, After, Unused, CountRun;
    NamesDiffer();
    EmptyRebuilds(EXAMPLE);
    var s1 := Run(EXAMPLE, Initial, CallSteps(ACQUIRE, 10));
    CallRuns(EXAMPLE, Initial, ACQUIRE, 10);
    UnusedEmpty(EXAMPLE, ACQUIRE);
    UnusedEmpty(EXAMPLE, RELEASE_EARLY);
    UnusedCallLands(EXAMPLE, [], ACQUIRE, 10);
    RunConcat(EXAMPLE, Initial, CallSteps(ACQUIRE, 10), CallSteps(RELEASE_EARLY, -5));
    CallRuns(EXAMPLE, s1, RELEASE_EARLY, -5);
    UnusedCallLands(EXAMPLE, s1.journal, RELEASE_EARLY, 5);
  }

  const OTHER_RESERVED: JournalEvent :=
    Event(OtherEvent("r"), "run", 1, 1, OtherAction("a"), ActionReserved, ForeignPayload("request"), 1)

  const OTHER_RESULT: JournalEvent :=
    Event(OtherEvent("o"), "run", 2, 2, OtherAction("a"), ActionResult, MalformedPayload, 1)

  lemma ShortNames()
    ensures !HasAdmissionPrefix(OtherAction("a")) && OtherEvent("r") != OtherEvent("o")
  {
    assert "r"[0] == 'r' && "o"[0] == 'o';
  }

  lemma CountOfOne(e: JournalEvent)
    ensures CountRun<Payload>([], e.run) == 0 && CountRun([e], e.run) == 1
  {
    assert [e][..0] == [];
  }

  lemma ReservedAllowed()
    ensures ForeignAllowed([], OTHER_RESERVED)
  {
    hide HasAdmissionPrefix, CountRun;
    ShortNames();
    CountOfOne(OTHER_RESERVED);
  }

  lemma ResultAllowed()
    ensures ForeignAllowed([OTHER_RESERVED], OTHER_RESULT) && !PayloadReadable(OTHER_RESULT)
  {
    hide HasAdmissionPrefix, CountRun;
    ShortNames();
    CountOfOne(OTHER_RESERVED);
  }

  /**
   Another component reserves its action and appends the result without storing the
   payload it names: both are appended, and replay stops at the result.
   */
  lemma UnstoredPayloadIsUnreadable()
    ensures var journal := Run(EXAMPLE, Initial, [Foreign(OTHER_RESERVED), Foreign(OTHER_RESULT)]).journal;
            |journal| == 2 && Rebuild(EXAMPLE.installation, journal).None?
  {
    hide Run, Rebuild, ForeignAllowed, PayloadReadable, SystemInv, PrepareFlight, Commit;
    ReservedAllowed();
    ResultAllowed();
    var s1 := Next(EXAMPLE, Initial, Foreign(OTHER_RESERVED));
    var s2 := Next(EXAMPLE, s1, Foreign(OTHER_RESULT));
    RunConcat(EXAMPLE, Initial, [Foreign(OTHER_RESERVED)], [Foreign(OTHER_RESULT)]);
    RunOne(EXAMPLE, Initial, Foreign(OTHER_RESERVED));
    RunOne(EXAMPLE, s1, Foreign(OTHER_RESULT));
    assert [Foreign(OTHER_RESERVED)] + [Foreign(OTHER_RESULT)] == [Foreign(OTHER_RESERVED), Foreign(OTHER_RESULT)];
    assert s1.journal == [OTHER_RESERVED];
    InitialInv(EXAMPLE);
    NextKeepsInv(EXAMPLE, Initial, Foreign(OTHER_RESERVED));
    NextKeepsInv(EXAMPLE, s1, Foreign(OTHER_RESULT));
  }
}
