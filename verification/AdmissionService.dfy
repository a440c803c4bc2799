/**
 The service object: cached rebuild over pages, and the bounded compare-and-swap
 loop of commitTransition, run against a store that other parties keep changing.

 Everything a call cannot control arrives as an input: what the others do between
 its reads, how the clock moves, and what becomes of the commit's response.
 */
module AdmissionService {
  import opened Wrappers
  import opened Journal
  import opened AdmissionTypes
  import opened AdmissionReplay
  import opened AdmissionBuild
  import opened AdmissionSystem
  import opened AdmissionFacts
  import opened AdmissionCache
  import opened Sums
  import opened AdmissionRuns
  import opened AdmissionLoops

  const MAX_CAS_ATTEMPTS: nat := 256
  const PAGE_LIMIT: nat := 1000

  // Schedules of the other parties

  predicate Spares(steps: seq<Step>, slot: nat) {
    forall s | s in steps :: !s.Foreign? ==> s.slot != slot
  }

  ghost predicate Positioned(events: seq<JournalEvent>) {
    forall i | 0 <= i < |events| :: events[i].position == i + 1
  }

  ghost predicate StoreInv(cfg: Config, sys: System) {
    SystemInv(cfg, sys) && ReservationsUnique(sys.journal) && Positioned(sys.journal)
  }

  lemma UniqueAfterPair(events: seq<JournalEvent>, res: JournalEvent, out: JournalEvent)
    requires ReservationsUnique(events) && !out.kind.ActionReserved?
    requires forall e | e in events :: e.action != res.action
    ensures ReservationsUnique(events + [res, out])
  {
    var after := events + [res, out];
    forall i, j | 0 <= i < j < |after| && after[i].kind.ActionReserved? && after[j].kind.ActionReserved?
      ensures after[i].action != after[j].action
    {
      assert i < |events| ==> after[i] in events;
    }
  }

  lemma UniqueAfterOne(events: seq<JournalEvent>, e: JournalEvent)
    requires ReservationsUnique(events) && ForeignAllowed(events, e)
    ensures ReservationsUnique(events + [e])
  {
    var after := events + [e];
    forall i, j | 0 <= i < j < |after| && after[i].kind.ActionReserved? && after[j].kind.ActionReserved?
      ensures after[i].action != after[j].action
    {
      assert i < |events| ==> after[i] in events;
    }
  }

  lemma NextKeepsStore(cfg: Config, sys: System, step: Step)
    requires StoreInv(cfg, sys)
    ensures StoreInv(cfg, Next(cfg, sys, step))
    ensures sys.journal <= Next(cfg, sys, step).journal
  {
    hide SystemInv, ReservationsUnique, Rebuild, Decide, PrepareFlight, FlightSound;
    NextKeepsInv(cfg, sys, step);
    match step
    case Foreign(e) =>
      if ForeignAllowed(sys.journal, e) {
        UniqueAfterOne(sys.journal, e);
      }
    case Prepare(slot, call, elapsed) => PrepareKeepsJournal(cfg, sys, slot, call, sys.clock + elapsed);
    case CommitFlight(slot) =>
      if slot in sys.flights && Commit(sys.journal, sys.flights[slot].commit).Appended? {
        var c := sys.flights[slot].commit;
        FlightsBound(cfg, sys, slot);
        UniqueAfterPair(sys.journal, ReservationEventFor(sys.journal, c), OutcomeEventFor(sys.journal, c));
      }
  }

  lemma FlightsBound(cfg: Config, sys: System, slot: nat)
    requires SystemInv(cfg, sys) && slot in sys.flights
    ensures sys.flights[slot].commit.action.request.binding.identity.outcomeKind.ActionResult?
  {
    hide Decide, Rebuild, JournalSafe;
    var f := sys.flights[slot];
    assert FlightSound(cfg, sys.journal, f);
    var base := Rebuild(cfg.installation, sys.journal[..f.commit.expectedGlobal]).value;
    ReadyCommitIsBound(cfg, base, f.call, f.now, f.commit);
  }

  lemma {:induction false} RunKeepsStore(cfg: Config, sys: System, steps: seq<Step>)
    requires StoreInv(cfg, sys)
    ensures StoreInv(cfg, Run(cfg, sys, steps))
    ensures sys.journal <= Run(cfg, sys, steps).journal
  {
    hide StoreInv, Next;
    if steps != [] {
      RunKeepsStore(cfg, sys, steps[..|steps| - 1]);
      NextKeepsStore(cfg, Run(cfg, sys, steps[..|steps| - 1]), steps[|steps| - 1]);
    }
  }

  lemma NextSparesSlot(cfg: Config, sys: System, step: Step, slot: nat)
    requires slot in sys.flights && (!step.Foreign? ==> step.slot != slot)
    ensures slot in Next(cfg, sys, step).flights && Next(cfg, sys, step).flights[slot] == sys.flights[slot]
  {
    hide Rebuild, Decide, Commit, ForeignAllowed;
  }

  lemma {:induction false} RunSparesSlot(cfg: Config, sys: System, steps: seq<Step>, slot: nat)
    requires slot in sys.flights && Spares(steps, slot)
    ensures slot in Run(cfg, sys, steps).flights && Run(cfg, sys, steps).flights[slot] == sys.flights[slot]
  {
    hide Next;
    if steps != [] {
      RunSparesSlot(cfg, sys, steps[..|steps| - 1], slot);
      NextSparesSlot(cfg, Run(cfg, sys, steps[..|steps| - 1]), steps[|steps| - 1], slot);
    }
  }

  /** The store every service shares, with the requests the other parties have in flight. */
  class Store {
    const cfg: Config
    var sys: System

    constructor (cfg: Config)
      ensures this.cfg == cfg && sys == Initial
    {
      this.cfg := cfg;
      this.sys := Initial;
    }

    method Perform(steps: seq<Step>)
      requires StoreInv(cfg, sys)
      modifies this
      ensures sys == Run(cfg, old(sys), steps)
      ensures StoreInv(cfg, sys) && old(sys.journal) <= sys.journal
    {
      RunKeepsStore(cfg, sys, steps);
      sys := Run(cfg, sys, steps);
    }

    method Feed(cursor: nat, limit: nat) returns (page: seq<JournalEvent>)
      requires cursor <= |sys.journal| && limit > 0
      ensures cursor + |page| <= |sys.journal| && page == sys.journal[cursor..cursor + |page|]
      ensures page == [] <==> cursor == |sys.journal|
    {
      var end := if cursor + limit < |sys.journal| then cursor + limit else |sys.journal|;
      page := sys.journal[cursor..end];
    }
  }

  datatype CachedProjection = CachedProjection(cursor: nat, projection: Projection)

  ghost predicate CacheHonest(cfg: Config, events: seq<JournalEvent>, cache: Option<CachedProjection>) {
    cache.Some? ==>
      && cache.value.cursor <= |events| && cache.value.projection.position == cache.value.cursor
      && Rebuild(cfg.installation, events[..cache.value.cursor]) == Some(cache.value.projection)
  }

  lemma HonestStays(cfg: Config, events: seq<JournalEvent>, more: seq<JournalEvent>, cache: Option<CachedProjection>)
    requires CacheHonest(cfg, events, cache) && events <= more
    ensures CacheHonest(cfg, more, cache)
  {
    hide Rebuild;
    if cache.Some? {
      assert more[..cache.value.cursor] == events[..cache.value.cursor];
    }
  }

  /** Replaying the events read so far and then one more page is replaying that much of the journal. */
  lemma ReadOn(inst: string, s: ReplayState, events: seq<JournalEvent>, from: nat, cursor: nat, k: nat)
    requires from <= cursor && cursor + k <= |events| && ReplayFrom(inst, s, events[from..cursor]).Some?
    ensures ReplayFrom(inst, s, events[from..cursor + k]) ==
            ReplayFrom(inst, ReplayFrom(inst, s, events[from..cursor]).value, events[cursor..cursor + k])
    ensures ReplayFrom(inst, s, events[from..cursor + k]).None? ==> ReplayFrom(inst, s, events[from..]).None?
  {
    hide StepEvent;
    assert events[from..cursor + k] == events[from..cursor] + events[cursor..cursor + k];
    ReplayConcat(inst, s, events[from..cursor], events[cursor..cursor + k]);
    assert events[from..] == events[from..cursor + k] + events[cursor + k..];
    ReplayConcat(inst, s, events[from..cursor + k], events[cursor + k..]);
  }

  /** rebuildFrom's inner loop over one page of events. */
  method ReplayPage(inst: string, start: ReplayState, page: seq<JournalEvent>) returns (out: Option<ReplayState>)
    ensures out == ReplayFrom(inst, start, page)
  {
    hide StepEvent;
    var s := start;
    var k := 0;
    while k < |page|
      invariant k <= |page| && ReplayFrom(inst, start, page[..k]) == Some(s)
    {
      assert page[..k + 1][..k] == page[..k];
      var step := StepEvent(inst, s, page[k]);
      if step.None? {
        ReadOn(inst, start, page, 0, 0, k + 1);
        return None;
      }
      s := step.value;
      k := k + 1;
    }
    assert page[..k] == page;
    out := Some(s);
  }

  lemma NothingYet(cfg: Config, sys: System, s: ReplayState, events: seq<JournalEvent>, from: nat)
    requires from <= |events|
    ensures Run(cfg, sys, []) == sys && ReplayFrom(cfg.installation, s, events[from..from]) == Some(s)
  {
  }

  lemma HonestCounts(cfg: Config, events: seq<JournalEvent>, cached: CachedProjection)
    requires CacheHonest(cfg, events, Some(cached))
    ensures Total(cached.projection.runHeads) == cached.cursor
  {
    hide StepEvent;
    HeadsAddUp(cfg.installation, events[..cached.cursor]);
  }

  lemma FullIsResumeFromNothing(inst: string, events: seq<JournalEvent>)
    ensures RebuildFromCache(inst, EmptyProjection, events) == Rebuild(inst, events)
  {
    hide StepEvent;
  }

  lemma RebuiltPosition(cfg: Config, events: seq<JournalEvent>)
    requires Rebuild(cfg.installation, events).Some?
    ensures Rebuild(cfg.installation, events).value.position == |events|
  {
    hide StepEvent;
    HeadsMatchStore(cfg.installation, events);
  }

  /** What the others do before each read of a rebuild, and before each read of its fallback. */
  datatype Growth = Growth(reading: seq<seq<Step>>, fallback: seq<seq<Step>>)

  const Still: Growth := Growth([], [])

  /** What becomes of a commit: answered, or answered with an error after or without taking effect. */
  datatype Response = Delivered | Lost(applied: bool, conflict: bool)

  /** Everything one pass of the loop meets from outside. */
  datatype Attempt = Attempt(
    canceled: bool,
    growth: Growth,
    elapsed: int,
    between: seq<Step>,
    response: Response,
    after: Growth,
    recoverable: bool)

  const Quiet: Attempt := Attempt(false, Still, 0, [], Delivered, Still, true)

  /** Nobody else moves during this pass. */
  ghost predicate Calm(a: Attempt) {
    !a.canceled && a.growth == Still && a.between == [] && a.after == Still
  }

  /**
   What an undisturbed pass must answer, and the journal it must leave: the decision
   taken on the journal it found, the appended record if the commit was answered, and
   the same record as an old one if the commit took effect but its answer was lost.
   */
  ghost predicate CalmAnswer(cfg: Config, sys: System, call: Call, a: Attempt,
                             answer: Option<Result<(Record, bool), Error>>, after: seq<JournalEvent>)
  {
    var p := Rebuild(cfg.installation, sys.journal);
    Calm(a) && p.Some? ==>
      match Decide(cfg, p.value, call, sys.clock + a.elapsed)
      case Replayed(r) => answer == Some(Ok((r, false))) && after == sys.journal
      case Refused(e) => answer == Some(Err(e)) && after == sys.journal
      case Ready(c) => CalmLanding(cfg, sys.journal, c, a, answer, after)
  }

  ghost predicate CalmLanding(cfg: Config, events: seq<JournalEvent>, c: CommitRequest, a: Attempt,
                              answer: Option<Result<(Record, bool), Error>>, after: seq<JournalEvent>)
  {
    var result := Commit(events, c);
    result.Appended? ==>
      && (a.response.Delivered? ==> answer == Some(Ok((RecordFor(events, c), true))) && after == result.events)
      && (a.response.Lost? && a.response.applied && a.recoverable && Rebuild(cfg.installation, result.events).Some? ==>
            answer == Some(Ok((RecordFor(events, c), false))) && after == result.events)
  }

  class Service {
    const store: Store
    var cache: Option<CachedProjection>

    constructor (store: Store)
      requires StoreInv(store.cfg, store.sys)
      ensures this.store == store && cache == None && Valid()
    {
      this.store := store;
      this.cache := None;
    }

    ghost predicate Valid()
      reads this, store
    {
      StoreInv(store.cfg, store.sys) && CacheHonest(store.cfg, store.sys.journal, cache)
    }

    /**
     rebuildFrom: pages are read until an empty one, and the journal may grow before
     each read.  The result is that of the journal as the last read found it.
     */
    method RebuildFrom(start: Projection, from: nat, growth: seq<seq<Step>>)
      returns (out: Option<Projection>, ghost trace: seq<Step>)
      requires Valid() && from <= |store.sys.journal|
      modifies store
      ensures Valid() && old(store.sys.journal) <= store.sys.journal
      ensures store.sys == Run(store.cfg, old(store.sys), trace)
      ensures growth == [] ==> trace == []
      ensures out == RebuildFromCache(store.cfg.installation, start, store.sys.journal[from..])
    {
      hide StoreInv, StepEvent, Next, Rebuild, ReplayFrom, Run;
      var inst := store.cfg.installation;
      var s := ReplayState(start, map[]);
      ghost var s0 := s;
      var cursor, feeds, exhausted := from, 0, false;
      trace := [];
      NothingYet(store.cfg, store.sys, s0, store.sys.journal, from);
      while !exhausted
        invariant Valid() && old(store.sys.journal) <= store.sys.journal
        invariant store.sys == Run(store.cfg, old(store.sys), trace)
        invariant from <= cursor <= |store.sys.journal|
        invariant ReplayFrom(inst, s0, store.sys.journal[from..cursor]) == Some(s)
        invariant exhausted ==> cursor == |store.sys.journal|
        invariant growth == [] ==> trace == []
        decreases if feeds < |growth| then |growth| - feeds else 0, !exhausted, |store.sys.journal| - cursor
      {
        if feeds < |growth| {
          ghost var before := store.sys.journal;
          store.Perform(growth[feeds]);
          HonestStays(store.cfg, before, store.sys.journal, cache);
          RunConcat(store.cfg, old(store.sys), trace, growth[feeds]);
          trace := trace + growth[feeds];
          assert store.sys.journal[from..cursor] == before[from..cursor];
        }
        feeds := feeds + 1;
        var page := store.Feed(cursor, PAGE_LIMIT);
        var replayed := ReplayPage(inst, s, page);
        ReadOn(inst, s0, store.sys.journal, from, cursor, |page|);
        if replayed.None? {
          return None, trace;
        }
        s := replayed.value;
        cursor := cursor + |page|;
        exhausted := page == [];
      }
      assert store.sys.journal[from..cursor] == store.sys.journal[from..];
      out := if Settled(s) then Some(s.p) else None;
    }

    /** rebuild: resume from the cache if there is one, fall back to a full replay, install what was found. */
    method RebuildProjection(growth: Growth)
      returns (out: Option<Projection>, ghost trace: seq<Step>)
      requires Valid()
      modifies this, store
      ensures Valid() && old(store.sys.journal) <= store.sys.journal
      ensures store.sys == Run(store.cfg, old(store.sys), trace)
      ensures growth == Still ==> trace == []
      ensures out == Rebuild(store.cfg.installation, store.sys.journal)
    {
      hide StoreInv, StepEvent, Next, Rebuild, RebuildFromCache;
      var cached := false;
      if cache.Some? {
        cached := CountsMatch(cache.value.projection.runHeads, cache.value.cursor);
        if !cached {
          cache := None;
        }
      }
      if cached {
        out, trace := RebuildFrom(cache.value.projection, cache.value.cursor, growth.reading);
        ExactResume(store.cfg, store.sys, cache.value);
      } else {
        out, trace := RebuildFrom(EmptyProjection, 0, growth.reading);
        FullIsResumeFromNothing(store.cfg.installation, store.sys.journal);
        assert store.sys.journal[0..] == store.sys.journal;
      }
      if out.None? && cached {
        cache := None;
        ghost var again;
        out, again := RebuildFrom(EmptyProjection, 0, growth.fallback);
        FullIsResumeFromNothing(store.cfg.installation, store.sys.journal);
        assert store.sys.journal[0..] == store.sys.journal;
        RunConcat(store.cfg, old(store.sys), trace, again);
        trace := trace + again;
      }
      if out.Some? {
        RebuiltPosition(store.cfg, store.sys.journal);
        assert store.sys.journal[..|store.sys.journal|] == store.sys.journal;
        if cache.None? || cache.value.cursor != out.value.position {
          InstallCache(out.value);
        }
      }
    }

    /** installProjectionCache: of two projections the one further ahead stays. */
    method InstallCache(p: Projection)
      requires Valid() && p.position <= |store.sys.journal|
      requires Rebuild(store.cfg.installation, store.sys.journal[..p.position]) == Some(p)
      modifies this
      ensures Valid()
      ensures cache.Some? && cache.value.cursor >= p.position
      ensures cache == old(cache) || cache == Some(CachedProjection(p.position, p))
    {
      hide StoreInv, Rebuild;
      var candidate := CachedProjection(p.position, p);
      if cache.None? || cache.value.cursor < candidate.cursor {
        cache := Some(candidate);
      } else if cache.value.cursor == candidate.cursor {
        cache := if cache.value == candidate then cache else None;
      }
    }

    /** After a reported failure: is the transition in the journal all the same? */
    method LookBack(call: Call, growth: Growth)
      returns (found: Option<Result<(Record, bool), Error>>, ghost trace: seq<Step>)
      requires Valid()
      modifies this, store
      ensures Valid() && old(store.sys.journal) <= store.sys.journal
      ensures store.sys == Run(store.cfg, old(store.sys), trace)
      ensures growth == Still ==> trace == []
      ensures found.Some? && found.value.Ok? ==>
                && WrittenAt(store.sys.journal, found.value.value.0)
                && found.value.value.0.request == RequestFor(store.cfg, call) && !found.value.value.1
      ensures found != Some(Err(DecisionChanged))
      ensures Rebuild(store.cfg.installation, store.sys.journal).Some? ==>
                forall r | Answers(store.sys.journal, RequestFor(store.cfg, call), r) ::
                  found == Some(if r.request == RequestFor(store.cfg, call) then Ok((r, false)) else Err(Conflict))
    {
      hide StoreInv, StepEvent, Next, Rebuild, WrittenAt, Run, RequestFor, CacheHonest, SemanticKeyOf, Answers;
      found := None;
      var q;
      q, trace := RebuildProjection(growth);
      if q.Some? {
        var request := RequestFor(store.cfg, call);
        IndexReadsJournal(store.cfg, store.sys.journal, request);
        if SemanticKeyOf(request) in q.value.transitions {
          var existing := q.value.transitions[SemanticKeyOf(request)];
          found := Some(if existing.request == request then Ok((existing, false)) else Err(Conflict));
        }
      }
    }

    /** The second half of a pass: the commit, and the look back after a reported failure. */
    method Land(call: Call, slot: nat, c: CommitRequest, a: Attempt)
      returns (answer: Option<Result<(Record, bool), Error>>, ghost trace: seq<Step>, ghost appended: bool)
      requires Valid() && Spares(a.between, slot)
      requires slot in store.sys.flights && store.sys.flights[slot].commit == c
      requires c.action.request == RequestFor(store.cfg, call)
      modifies this, store
      ensures Valid() && old(store.sys.journal) <= store.sys.journal
      ensures store.sys == Run(store.cfg, old(store.sys), trace)
      ensures appended ==> Committed(store.sys.journal, RequestFor(store.cfg, call))
      ensures answer.Some? && answer.value.Ok? ==>
                && WrittenAt(store.sys.journal, answer.value.value.0)
                && answer.value.value.0.request == RequestFor(store.cfg, call)
                && (answer.value.value.1 ==> appended)
      ensures answer != Some(Err(DecisionChanged))
      ensures Calm(a) ==> CalmLanding(store.cfg, old(store.sys.journal), c, a, answer, store.sys.journal)
    {
      hide StoreInv, StepEvent, Next, Rebuild, Decide, Commit, WrittenAt, Run, RequestFor, CacheHonest, Answers;
      RunNothing(store.cfg, store.sys);
      ghost var cfg, sys0 := store.cfg, store.sys;
      store.Perform(a.between);
      RunSparesSlot(cfg, sys0, a.between, slot);
      HonestStays(cfg, sys0.journal, store.sys.journal, cache);
      trace, appended := a.between, false;
      if a.response.Delivered? || a.response.applied {
        ghost var sys1 := store.sys;
        var result, written := Commit(store.sys.journal, c), RecordFor(store.sys.journal, c);
        CommitReported(cfg, sys1, slot);
        store.Perform([CommitFlight(slot)]);
        CommitTakesEffect(cfg, sys1, slot);
        HonestStays(cfg, sys1.journal, store.sys.journal, cache);
        RunConcat(cfg, sys0, a.between, [CommitFlight(slot)]);
        trace, appended := trace + [CommitFlight(slot)], result.Appended?;
        if a.response.Delivered? {
          match result
          case Appended(events) =>
            answer := Some(Ok((written, true)));
            return;
          case Found(i) =>
            answer := Some(Ok((RecordOf(c.action.request, c.body, store.sys.journal[i + 1]), false)));
            return;
          case Rejected =>
        }
      }
      if a.recoverable {
        ghost var sys2 := store.sys;
        ghost var looked;
        answer, looked := LookBack(call, a.after);
        RunNothing(cfg, sys2);
        RunConcat(cfg, sys0, trace, looked);
        trace := trace + looked;
        AnswersStay(sys2.journal, store.sys.journal, RequestFor(cfg, call));
        if appended {
          CommittedStays(sys2.journal, store.sys.journal, RequestFor(cfg, call));
        }
        if answer.Some? {
          return;
        }
      }
      answer := if a.response.Delivered? || a.response.conflict then None else Some(Err(StoreFailure));
    }

    /**
     One pass of commitTransition's loop: rebuild, decide, try the commit, and after a
     reported failure look whether the transition is there all the same.  No answer
     means the loop goes round again.
     */
    method TryCommit(call: Call, slot: nat, a: Attempt)
      returns (answer: Option<Result<(Record, bool), Error>>, ghost trace: seq<Step>, ghost appended: bool)
      requires Valid() && call.Valid(store.cfg) && Spares(a.between, slot)
      modifies this, store
      ensures Valid() && old(store.sys.journal) <= store.sys.journal
      ensures store.sys == Run(store.cfg, old(store.sys), trace)
      ensures appended ==> !KeyTaken(old(store.sys.journal), RequestFor(store.cfg, call))
      ensures appended ==> Committed(store.sys.journal, RequestFor(store.cfg, call))
      ensures answer.Some? && answer.value.Ok? ==>
                && WrittenAt(store.sys.journal, answer.value.value.0)
                && answer.value.value.0.request == RequestFor(store.cfg, call)
                && (answer.value.value.1 ==> appended)
      ensures answer == Some(Err(DecisionChanged)) ==>
                !appended && !KeyTaken(old(store.sys.journal), RequestFor(store.cfg, call))
      ensures CalmAnswer(store.cfg, old(store.sys), call, a, answer, store.sys.journal)
      ensures forall r | Answers(old(store.sys.journal), RequestFor(store.cfg, call), r) ::
                answer.Some? && (answer.value.Ok? ==> answer.value.value == (r, false))
      ensures !a.canceled && Rebuild(store.cfg.installation, store.sys.journal).Some? ==>
                forall r | Answers(old(store.sys.journal), RequestFor(store.cfg, call), r) ::
                  answer == Some(AnswerFor(store.cfg, call, r))
    {
      hide StoreInv, StepEvent, Next, Rebuild, Decide, Commit, WrittenAt, Run, RequestFor, CacheHonest, Spares;
      trace, appended := [], false;
      RunNothing(store.cfg, store.sys);
      ghost var cfg, sys0 := store.cfg, store.sys;
      if a.canceled {
        return Some(Err(ContextCanceled)), trace, false;
      }
      var p;
      p, trace := RebuildProjection(a.growth);
      if p.None? {
        return Some(Err(InvalidRecord)), trace, false;
      }
      ghost var sys1 := store.sys;
      store.Perform([Prepare(slot, call, a.elapsed)]);
      PrepareTakesEffect(cfg, sys1, slot, call, a.elapsed);
      RunConcat(cfg, sys0, trace, [Prepare(slot, call, a.elapsed)]);
      trace := trace + [Prepare(slot, call, a.elapsed)];
      var decision := Decide(store.cfg, p.value, call, store.sys.clock);
      DecisionReadsJournal(cfg, store.sys.journal, call, store.sys.clock);
      AnswersStay(sys0.journal, store.sys.journal, RequestFor(cfg, call));
      match decision
      case Replayed(record) => answer := Some(Ok((record, false)));
      case Refused(e) =>
        answer := Some(Err(e));
        if KeyTaken(sys0.journal, RequestFor(cfg, call)) {
          TakenStays(sys0.journal, store.sys.journal, RequestFor(cfg, call));
        }
      case Ready(c) =>
        if KeyTaken(sys0.journal, RequestFor(cfg, call)) {
          TakenStays(sys0.journal, store.sys.journal, RequestFor(cfg, call));
        }
        ghost var landed;
        answer, landed, appended := Land(call, slot, c, a);
        RunConcat(cfg, sys0, trace, landed);
        trace := trace + landed;
    }

    /**
     commitTransition.  Whatever the schedule, the faults and the retries: the call is a
     run of the step system, it appends at most one pair, the record it reports is in
     the journal and carries its request, and a transition already there is returned
     unchanged with nothing appended.
     */
    method CommitTransition(call: Call, slot: nat, env: seq<Attempt>)
      returns (r: Result<(Record, bool), Error>, ghost trace: seq<Step>, ghost mine: nat)
      requires Valid() && forall a | a in env :: Spares(a.between, slot)
      modifies this, store
      ensures Valid() && old(store.sys.journal) <= store.sys.journal
      ensures store.sys == Run(store.cfg, old(store.sys), trace)
      ensures mine <= 1
      ensures r == Err(DecisionChanged) ==> mine == 0
      ensures !call.Valid(store.cfg) ==> r == Err(InvalidRequest) && mine == 0
      ensures mine == 1 ==> !KeyTaken(old(store.sys.journal), RequestFor(store.cfg, call))
                            && Committed(store.sys.journal, RequestFor(store.cfg, call))
      ensures r.Ok? ==>
                && WrittenAt(store.sys.journal, r.value.0)
                && r.value.0.request == RequestFor(store.cfg, call)
                && (r.value.1 ==> mine == 1)
      ensures call.Valid(store.cfg) && env != [] ==>
                CalmAnswer(store.cfg, old(store.sys), call, env[0], Some(r), store.sys.journal)
      ensures forall e | Answers(old(store.sys.journal), RequestFor(store.cfg, call), e) ::
                mine == 0 && (r.Ok? ==> r.value == (e, false))
      ensures call.Valid(store.cfg) && (env == [] || !env[0].canceled)
              && Rebuild(store.cfg.installation, store.sys.journal).Some? ==>
                forall e | Answers(old(store.sys.journal), RequestFor(store.cfg, call), e) ::
                  r == AnswerFor(store.cfg, call, e)
    {
      hide StoreInv, StepEvent, Next, Rebuild, WrittenAt, Run, RequestFor, CacheHonest, Spares, KeyTaken, Answers, CalmAnswer, Committed,
           AnswerFor;
      trace, mine := [], 0;
      RunNothing(store.cfg, store.sys);
      ghost var cfg, sys0 := store.cfg, store.sys;
      ghost var request := RequestFor(cfg, call);
      if !call.Valid(store.cfg) {
        return Err(InvalidRequest), trace, mine;
      }
      AnswerTakesKey(sys0.journal, request);
      ghost var first := [];
      var attempt := 0;
      while attempt < MAX_CAS_ATTEMPTS
        invariant Valid() && sys0.journal <= store.sys.journal
        invariant store.sys == Run(cfg, sys0, trace)
        invariant mine <= 1
        invariant mine == 1 ==> !KeyTaken(sys0.journal, request) && Committed(store.sys.journal, request)
        invariant attempt > 0 ==> forall e :: !Answers(sys0.journal, request, e)
        invariant attempt == 0 ==> store.sys == sys0
        invariant attempt > 0 && env != [] ==> CalmAnswer(cfg, sys0, call, env[0], None, first)
      {
        ghost var before := store.sys.journal;
        AnswersStay(sys0.journal, before, request);
        var a := if attempt < |env| then env[attempt] else Quiet;
        assert Spares(a.between, slot) by {
          QuietSpares(slot);
        }
        ghost var ran, appended;
        var answer;
        answer, ran, appended := TryCommit(call, slot, a);
        RunConcat(cfg, sys0, trace, ran);
        trace := trace + ran;
        if mine == 1 {
          CommittedTakes(before, request);
          CommittedStays(before, store.sys.journal, request);
        }
        if appended {
          OpenBefore(sys0.journal, before, request);
          mine := mine + 1;
        }
        if attempt > 0 && env != [] {
          CalmUnforced(cfg, sys0, call, env[0], first);
        }
        if answer.Some? {
          return answer.value, trace, mine;
        }
        first := if attempt == 0 then store.sys.journal else first;
        attempt := attempt + 1;
      }
      if env != [] {
        CalmUnforced(cfg, sys0, call, env[0], first);
      }
      r := Err(Conflict);
    }

    /**
     Admit: choose admission or deferral by the quotas seen, commit it, and choose again
     whenever the quotas changed in between.  All its rounds together append at most one
     pair, and an undisturbed first round answers what the quotas it saw call for.
     */
    method Admit(run: string, identity: TransitionIdentity, subject: AdmissionSubject, slot: nat, rounds: seq<Round>)
      returns (r: Result<(Record, bool), Error>, ghost trace: seq<Step>, ghost mine: nat)
      requires Valid() && store.cfg.policy.Valid() && RoundsSpare(rounds, slot)
      modifies this, store
      ensures Valid() && old(store.sys.journal) <= store.sys.journal
      ensures store.sys == Run(store.cfg, old(store.sys), trace)
      ensures mine <= 1
      ensures mine == 1 ==> !KeyUsed(old(store.sys.journal), SemanticKey(run, identity.action, identity.generation))
      ensures r.Ok? ==>
                && WrittenAt(store.sys.journal, r.value.0) && (r.value.1 ==> mine == 1)
                && (exists q ::
                      && SawQuota(store.cfg, store.sys.journal, run, subject, q)
                      && r.value.0.request == RequestFor(store.cfg, AdmitCall(run, identity, subject, q)))
      ensures var p := Rebuild(store.cfg.installation, old(store.sys.journal));
              identity.Valid() && p.Some? && CalmRound(rounds) ==>
                CalmAnswer(store.cfg, old(store.sys),
                           AdmitCall(run, identity, subject,
                                     LimitingQuota(store.cfg.policy, p.value.ledger.admissions, run, subject)),
                           rounds[0].env[0], Some(r), store.sys.journal)
    {
      hide StoreInv, StepEvent, Next, Rebuild, WrittenAt, Run, RequestFor, CacheHonest, KeyUsed, Answers, CalmAnswer,
           LimitingQuota, Decide, Spares, SawQuota, KeyTaken, Committed, AnswerFor, SemanticKeyOf;
      trace, mine := [], 0;
      RunNothing(store.cfg, store.sys);
      ghost var cfg, sys0 := store.cfg, store.sys;
      ghost var key := SemanticKey(run, identity.action, identity.generation);
      ghost var p0 := Rebuild(cfg.installation, sys0.journal);
      ghost var wanted := AdmitCall(run, identity, subject,
        if p0.Some? then LimitingQuota(cfg.policy, p0.value.ledger.admissions, run, subject) else NoQuota);
      if !identity.Valid() {
        return Err(InvalidRequest), trace, mine;
      }
      var attempt := 0;
      while attempt < MAX_CAS_ATTEMPTS
        invariant Valid() && sys0.journal <= store.sys.journal
        invariant store.sys == Run(cfg, sys0, trace) && mine == 0
        invariant attempt == 0 ==> store.sys == sys0
        invariant attempt > 0 && p0.Some? && CalmRound(rounds) ==>
                    forall x, after :: CalmAnswer(cfg, sys0, wanted, rounds[0].env[0], Some(x), after)
      {
        var round := if attempt < |rounds| then rounds[attempt] else Round(Still, []);
        var p;
        ghost var rebuilt, ran, before;
        p, rebuilt := RebuildProjection(round.growth);
        RunConcat(cfg, sys0, trace, rebuilt);
        trace := trace + rebuilt;
        RunNothing(cfg, sys0);
        if p.None? {
          return Err(InvalidRecord), trace, mine;
        }
        var limiting := FindLimitingQuota(store.cfg.policy, p.value.ledger.admissions, run, subject);
        var call := AdmitCall(run, identity, subject, limiting);
        before := store.sys.journal;
        r, ran, mine := CommitTransition(call, slot, round.env);
        RunConcat(cfg, sys0, trace, ran);
        trace := trace + ran;
        SameKey(cfg, call, key);
        UsedStays(sys0.journal, before, key);
        if r != Err(DecisionChanged) {
          QuotaWasSeen(cfg, before, store.sys.journal, run, subject);
          return;
        }
        if attempt == 0 && p0.Some? && CalmRound(rounds) {
          DecisionHolds(cfg, p0.value, run, identity, subject, sys0.clock + rounds[0].env[0].elapsed);
          CalmUndecided(cfg, sys0, wanted, rounds[0].env[0], store.sys.journal);
        }
        attempt := attempt + 1;
      }
      r := Err(Conflict);
    }

    /** Release: the release operation follows the state seen, and is chosen again when that state moved on. */
    method Release(run: string, identity: TransitionIdentity, subject: AdmissionSubject, slot: nat, rounds: seq<Round>)
      returns (r: Result<(Record, bool), Error>, ghost trace: seq<Step>, ghost mine: nat)
      requires Valid() && RoundsSpare(rounds, slot)
      modifies this, store
      ensures Valid() && old(store.sys.journal) <= store.sys.journal
      ensures store.sys == Run(store.cfg, old(store.sys), trace)
      ensures mine <= 1
      ensures mine == 1 ==> !KeyUsed(old(store.sys.journal), SemanticKey(run, identity.action, identity.generation))
      ensures r.Ok? ==>
                && WrittenAt(store.sys.journal, r.value.0) && (r.value.1 ==> mine == 1)
                && (exists state ::
                      && SawState(store.cfg, store.sys.journal, run, subject, state)
                      && r.value.0.request == RequestFor(store.cfg, ReleasedBy(run, identity, subject, state)))
      ensures var p, key := Rebuild(store.cfg.installation, old(store.sys.journal)), Scoped(run, subject.id);
              identity.Valid() && p.Some? && CalmRound(rounds) ==>
                if key !in p.value.ledger.admissions then r == Err(NotFound) && store.sys.journal == old(store.sys.journal)
                else CalmAnswer(store.cfg, old(store.sys),
                                ReleasedBy(run, identity, subject, p.value.ledger.admissions[key].state),
                                rounds[0].env[0], Some(r), store.sys.journal)
    {
      hide StoreInv, StepEvent, Next, Rebuild, WrittenAt, Run, RequestFor, CacheHonest, KeyUsed, Answers, CalmAnswer,
           Decide, Spares, SawState, KeyTaken, Committed, AnswerFor, SemanticKeyOf, ReleaseOperation;
      trace, mine := [], 0;
      RunNothing(store.cfg, store.sys);
      ghost var cfg, sys0 := store.cfg, store.sys;
      ghost var key := SemanticKey(run, identity.action, identity.generation);
      ghost var p0, scoped := Rebuild(cfg.installation, sys0.journal), Scoped(run, subject.id);
      ghost var calm := p0.Some? && CalmRound(rounds);
      ghost var wanted := ReleasedBy(run, identity, subject,
        if p0.Some? && scoped in p0.value.ledger.admissions then p0.value.ledger.admissions[scoped].state else Reserved);
      if !identity.Valid() {
        return Err(InvalidRequest), trace, mine;
      }
      var attempt := 0;
      while attempt < MAX_CAS_ATTEMPTS
        invariant Valid() && sys0.journal <= store.sys.journal
        invariant store.sys == Run(cfg, sys0, trace) && mine == 0
        invariant attempt == 0 ==> store.sys == sys0
        invariant attempt > 0 && calm ==>
                    && scoped in p0.value.ledger.admissions
                    && forall x, after :: CalmAnswer(cfg, sys0, wanted, rounds[0].env[0], Some(x), after)
      {
        var round := if attempt < |rounds| then rounds[attempt] else Round(Still, []);
        var p;
        ghost var rebuilt, ran, before;
        p, rebuilt := RebuildProjection(round.growth);
        RunConcat(cfg, sys0, trace, rebuilt);
        trace := trace + rebuilt;
        RunNothing(cfg, sys0);
        if p.None? {
          return Err(InvalidRecord), trace, mine;
        }
        if Scoped(run, subject.id) !in p.value.ledger.admissions {
          return Err(NotFound), trace, mine;
        }
        var state := p.value.ledger.admissions[Scoped(run, subject.id)].state;
        var call := ReleasedBy(run, identity, subject, state);
        ReleaseIsValid(cfg, run, identity, subject, state);
        before := store.sys.journal;
        r, ran, mine := CommitTransition(call, slot, round.env);
        RunConcat(cfg, sys0, trace, ran);
        trace := trace + ran;
        SameKey(cfg, call, key);
        UsedStays(sys0.journal, before, key);
        if r != Err(DecisionChanged) {
          StateWasSeen(cfg, before, store.sys.journal, run, subject);
          return;
        }
        if attempt == 0 && calm {
          ReleaseHolds(cfg, p0.value, run, identity, subject, sys0.clock + rounds[0].env[0].elapsed);
          CalmUndecided(cfg, sys0, wanted, rounds[0].env[0], store.sys.journal);
        }
        attempt := attempt + 1;
      }
      r := Err(Conflict);
    }
  }

  /**
   A caller that asks twice, not trusting the first answer.  The two calls together
   append at most one pair.  As long as the journal rebuilds and the second call is not
   canceled, the second answers with the record the first reported, and with the record
   the first wrote even where the first lost the response and reported an error.
   */
  method CommitTwice(service: Service, call: Call, slot: nat, env: seq<Attempt>, again: seq<Attempt>)
    returns (first: Result<(Record, bool), Error>, second: Result<(Record, bool), Error>, ghost one: nat, ghost two: nat)
    requires service.Valid() && forall a | a in env + again :: Spares(a.between, slot)
    modifies service, service.store
    ensures service.Valid() && one + two <= 1
    ensures KeyTaken(old(service.store.sys.journal), RequestFor(service.store.cfg, call)) ==> one + two == 0
    ensures Trustworthy(service.store.cfg, service.store.sys.journal, again) && first.Ok? ==>
              second == Ok((first.value.0, false))
    ensures Trustworthy(service.store.cfg, service.store.sys.journal, again) && one == 1 ==>
              && second.Ok? && !second.value.1 && WrittenAt(service.store.sys.journal, second.value.0)
              && second.value.0.request == RequestFor(service.store.cfg, call)
    ensures first.Ok? && second.Ok? ==> second.value == (first.value.0, false)
  {
    hide StoreInv, Rebuild, WrittenAt, Run, RequestFor, CacheHonest, Spares, CalmAnswer;
    ghost var ran, reran, cfg := [], [], service.store.cfg;
    ghost var before, request := service.store.sys.journal, RequestFor(cfg, call);
    first, ran, one := service.CommitTransition(call, slot, env);
    if KeyTaken(before, request) {
      TakenStays(before, service.store.sys.journal, request);
    }
    if one == 1 {
      CommittedTakes(service.store.sys.journal, request);
    }
    ghost var between := service.store.sys.journal;
    second, reran, two := service.CommitTransition(call, slot, again);
    if first.Ok? {
      assert Answers(between, request, first.value.0);
    } else if one == 1 {
      ghost var e :| WrittenAt(between, e) && e.request == request;
      assert Answers(between, request, e);
      AnswersStay(between, service.store.sys.journal, request);
    }
    if first.Ok? {
      AnswersStay(between, service.store.sys.journal, request);
    }
  }

  /** The journal rebuilds, and the call was not canceled before its first pass. */
  ghost predicate Trustworthy(cfg: Config, events: seq<JournalEvent>, env: seq<Attempt>) {
    Rebuild(cfg.installation, events).Some? && (env == [] || !env[0].canceled)
  }

  /** What Admit meets in one of its rounds: the growth during its own rebuild, then the commit's attempts. */
  datatype Round = Round(growth: Growth, env: seq<Attempt>)

  ghost predicate RoundsSpare(rounds: seq<Round>, slot: nat) {
    forall round, a | round in rounds && a in round.env :: Spares(a.between, slot)
  }

  ghost predicate CalmRound(rounds: seq<Round>) {
    rounds != [] && rounds[0].growth == Still && rounds[0].env != [] && Calm(rounds[0].env[0])
  }

  /** The call Admit makes when it saw this limiting quota. */
  function AdmitCall(run: string, identity: TransitionIdentity, subject: AdmissionSubject, limiting: Quota): Call {
    AdmissionCall(run, identity, subject, if limiting.NoQuota? then QueueAdmit else BackpressureDefer, limiting)
  }

  /** Some transition has already been written for the action generation. */
  ghost predicate KeyUsed(events: seq<JournalEvent>, key: SemanticKey) {
    exists r :: WrittenAt(events, r) && SemanticKeyOf(r.request) == key
  }

  lemma SameKey(cfg: Config, call: Call, key: SemanticKey)
    requires key == SemanticKey(call.Run(), call.identity.action, call.identity.generation)
    ensures forall events :: KeyTaken(events, RequestFor(cfg, call)) <==> KeyUsed(events, key)
  {
    hide WrittenAt;
    forall events
      ensures KeyTaken(events, RequestFor(cfg, call)) <==> KeyUsed(events, key)
    {
      if KeyUsed(events, key) {
        var r :| WrittenAt(events, r) && SemanticKeyOf(r.request) == key;
        assert Answers(events, RequestFor(cfg, call), r);
      }
    }
  }

  lemma UsedStays(events: seq<JournalEvent>, more: seq<JournalEvent>, key: SemanticKey)
    requires events <= more
    ensures KeyUsed(events, key) ==> KeyUsed(more, key)
  {
    if KeyUsed(events, key) {
      var r :| WrittenAt(events, r) && SemanticKeyOf(r.request) == key;
      assert WrittenAt(more, r);
    }
  }

  /** The call Release makes when it saw the entry in this state. */
  function ReleasedBy(run: string, identity: TransitionIdentity, subject: AdmissionSubject, state: AdmissionState): Call {
    ReleaseCall(run, identity, subject, ReleaseOperation(state))
  }

  lemma ReleaseIsValid(cfg: Config, run: string, identity: TransitionIdentity, subject: AdmissionSubject, state: AdmissionState)
    requires identity.Valid()
    ensures ReleasedBy(run, identity, subject, state).Valid(cfg)
  {
  }

  /** At some point the journal had this limiting quota. */
  ghost predicate SawQuota(cfg: Config, events: seq<JournalEvent>, run: string, subject: AdmissionSubject, q: Quota) {
    exists n | 0 <= n <= |events| ::
      var p := Rebuild(cfg.installation, events[..n]);
      p.Some? && q == LimitingQuota(cfg.policy, p.value.ledger.admissions, run, subject)
  }

  /** At some point the journal had the entry in this state. */
  ghost predicate SawState(cfg: Config, events: seq<JournalEvent>, run: string, subject: AdmissionSubject, state: AdmissionState) {
    exists n | 0 <= n <= |events| ::
      var p := Rebuild(cfg.installation, events[..n]);
      && p.Some? && Scoped(run, subject.id) in p.value.ledger.admissions
      && state == p.value.ledger.admissions[Scoped(run, subject.id)].state
  }

  lemma QuotaWasSeen(cfg: Config, events: seq<JournalEvent>, more: seq<JournalEvent>, run: string, subject: AdmissionSubject)
    requires events <= more && Rebuild(cfg.installation, events).Some?
    ensures var p := Rebuild(cfg.installation, events).value;
            SawQuota(cfg, more, run, subject, LimitingQuota(cfg.policy, p.ledger.admissions, run, subject))
  {
    hide Rebuild, LimitingQuota;
    assert more[..|events|] == events;
  }

  lemma StateWasSeen(cfg: Config, events: seq<JournalEvent>, more: seq<JournalEvent>, run: string, subject: AdmissionSubject)
    requires events <= more && Rebuild(cfg.installation, events).Some?
    requires Scoped(run, subject.id) in Rebuild(cfg.installation, events).value.ledger.admissions
    ensures var p := Rebuild(cfg.installation, events).value;
            SawState(cfg, more, run, subject, p.ledger.admissions[Scoped(run, subject.id)].state)
  {
    hide Rebuild;
    assert more[..|events|] == events;
  }

  /** The same for Release, on the projection whose entry it was chosen by. */
  lemma ReleaseHolds(cfg: Config, p: Projection, run: string, identity: TransitionIdentity, subject: AdmissionSubject, now: int)
    requires Scoped(run, subject.id) in p.ledger.admissions
    ensures var state := p.ledger.admissions[Scoped(run, subject.id)].state;
            Decide(cfg, p, ReleasedBy(run, identity, subject, state), now) != Refused(DecisionChanged)
  {
    hide ValidOutcome;
  }

  /** On the projection whose quotas it was chosen by, Admit's choice is never turned down as out of date. */
  lemma DecisionHolds(cfg: Config, p: Projection, run: string, identity: TransitionIdentity, subject: AdmissionSubject, now: int)
    ensures var q := LimitingQuota(cfg.policy, p.ledger.admissions, run, subject);
            Decide(cfg, p, AdmitCall(run, identity, subject, q), now) != Refused(DecisionChanged)
  {
    hide LimitingQuota, ValidOutcome;
  }

  lemma CalmUndecided(cfg: Config, sys: System, call: Call, a: Attempt, events: seq<JournalEvent>)
    requires CalmAnswer(cfg, sys, call, a, Some(Err(DecisionChanged)), events)
    requires Rebuild(cfg.installation, sys.journal).Some?
    requires Decide(cfg, Rebuild(cfg.installation, sys.journal).value, call, sys.clock + a.elapsed) != Refused(DecisionChanged)
    ensures forall r, after :: CalmAnswer(cfg, sys, call, a, Some(r), after)
  {
    hide Rebuild, Decide, Commit;
  }

  /** A calm pass that gave no answer was one whose answer is not determined. */
  lemma CalmUnforced(cfg: Config, sys: System, call: Call, a: Attempt, events: seq<JournalEvent>)
    requires CalmAnswer(cfg, sys, call, a, None, events)
    ensures forall r, after :: CalmAnswer(cfg, sys, call, a, Some(r), after)
  {
    hide Rebuild, Decide, Commit;
  }

  lemma QuietSpares(slot: nat)
    ensures Spares(Quiet.between, slot)
  {
  }

  lemma OpenBefore(events: seq<JournalEvent>, more: seq<JournalEvent>, request: Request)
    requires events <= more && !KeyTaken(more, request)
    ensures !KeyTaken(events, request)
  {
    hide KeyTaken;
    if KeyTaken(events, request) {
      TakenStays(events, more, request);
    }
  }

  lemma AnswerTakesKey(events: seq<JournalEvent>, request: Request)
    ensures forall e | Answers(events, request, e) :: KeyTaken(events, request)
  {
  }

  lemma CommitReported(cfg: Config, sys: System, slot: nat)
    requires StoreInv(cfg, sys) && slot in sys.flights
    ensures var c := sys.flights[slot].commit;
            var result := Commit(sys.journal, c);
            && (result.Appended? ==>
                  && Answers(result.events, c.action.request, RecordFor(sys.journal, c))
                  && WrittenAt(result.events, RecordFor(sys.journal, c)))
            && (result.Found? ==>
                  && result.position + 1 < |sys.journal|
                  && WrittenAt(sys.journal, RecordOf(c.action.request, c.body, sys.journal[result.position + 1])))
  {
    hide SystemInv, FindCommit, CountRun, ReservationsUnique, KnownAction, KnownKey, KnownId;
    FlightsBound(cfg, sys, slot);
    CommitWrites(sys.journal, sys.flights[slot].commit);
  }

  lemma CommitTakesEffect(cfg: Config, sys: System, slot: nat)
    requires slot in sys.flights
    ensures var result := Commit(sys.journal, sys.flights[slot].commit);
            Run(cfg, sys, [CommitFlight(slot)]).journal ==
            (if result.Appended? then result.events else sys.journal)
  {
    hide Commit, Run, ForeignAllowed, PrepareFlight;
    RunOne(cfg, sys, CommitFlight(slot));
  }

  lemma PrepareTakesEffect(cfg: Config, sys: System, slot: nat, call: Call, elapsed: int)
    requires call.Valid(cfg) && Rebuild(cfg.installation, sys.journal).Some?
    ensures var next := Run(cfg, sys, [Prepare(slot, call, elapsed)]);
            var d := Decide(cfg, Rebuild(cfg.installation, sys.journal).value, call, next.clock);
            && next.journal == sys.journal && next.clock == sys.clock + elapsed
            && (d.Ready? ==>
                  && slot in next.flights && next.flights[slot].commit == d.commit
                  && d.commit.action.request == RequestFor(cfg, call))
  {
    hide Run, Rebuild, Decide, ForeignAllowed, Commit, RequestFor;
    RunOne(cfg, sys, Prepare(slot, call, elapsed));
    ReadyCarriesRequest(cfg, Rebuild(cfg.installation, sys.journal).value, call, sys.clock + elapsed);
  }

  lemma ReadyCarriesRequest(cfg: Config, p: Projection, call: Call, now: int)
    ensures var d := Decide(cfg, p, call, now); d.Ready? ==> d.commit.action.request == RequestFor(cfg, call)
  {
    hide Decide, Build, ValidOutcome;
    if Decide(cfg, p, call, now).Ready? {
      ReadyCommitIsBound(cfg, p, call, now, Decide(cfg, p, call, now).commit);
    }
  }

  // One call against the changing store

  /** The record was written under this request's action generation. */
  ghost predicate Answers(events: seq<JournalEvent>, request: Request, r: Record) {
    WrittenAt(events, r) && SemanticKeyOf(r.request) == SemanticKeyOf(request)
  }

  /** This very request was committed. */
  ghost predicate Committed(events: seq<JournalEvent>, request: Request) {
    exists r :: WrittenAt(events, r) && r.request == request
  }

  /** What a repeated call is told about the transition already there. */
  function AnswerFor(cfg: Config, call: Call, r: Record): Result<(Record, bool), Error> {
    if r.request == RequestFor(cfg, call) then Ok((r, false)) else Err(Conflict)
  }

  ghost predicate KeyTaken(events: seq<JournalEvent>, request: Request) {
    exists r :: Answers(events, request, r)
  }

  lemma AnswersStay(events: seq<JournalEvent>, more: seq<JournalEvent>, request: Request)
    requires events <= more
    ensures forall r | Answers(events, request, r) :: Answers(more, request, r)
  {
  }

  lemma TakenStays(events: seq<JournalEvent>, more: seq<JournalEvent>, request: Request)
    requires KeyTaken(events, request) && events <= more
    ensures KeyTaken(more, request)
  {
    var r :| Answers(events, request, r);
    assert Answers(more, request, r);
  }

  lemma CommittedStays(events: seq<JournalEvent>, more: seq<JournalEvent>, request: Request)
    requires Committed(events, request) && events <= more
    ensures Committed(more, request)
  {
    var r :| WrittenAt(events, r) && r.request == request;
    assert WrittenAt(more, r);
  }

  lemma CommittedTakes(events: seq<JournalEvent>, request: Request)
    requires Committed(events, request)
    ensures KeyTaken(events, request)
  {
    hide WrittenAt;
    var r :| WrittenAt(events, r) && r.request == request;
    assert Answers(events, request, r);
  }

  /** The transition index of a readable journal answers with the one record written under the key. */
  lemma IndexReadsJournal(cfg: Config, events: seq<JournalEvent>, request: Request)
    requires Rebuild(cfg.installation, events).Some?
    ensures var p := Rebuild(cfg.installation, events).value;
            var key := SemanticKeyOf(request);
            && (key in p.transitions ==> WrittenAt(events, p.transitions[key]))
            && (forall r | Answers(events, request, r) ::
                  key in p.transitions && p.transitions[key] == r)
  {
    hide StepEvent;
    var inst := cfg.installation;
    IndexFromJournal(inst, events);
    forall r | Answers(events, request, r)
      ensures SemanticKeyOf(request) in Rebuild(inst, events).value.transitions
              && Rebuild(inst, events).value.transitions[SemanticKeyOf(request)] == r
    {
      ReplayKeepsRecord(inst, events, r.position - 1);
    }
  }

  /** What a decision says about the journal it was taken on. */
  lemma DecisionReadsJournal(cfg: Config, events: seq<JournalEvent>, call: Call, now: int)
    requires Rebuild(cfg.installation, events).Some?
    ensures var request := RequestFor(cfg, call);
            var d := Decide(cfg, Rebuild(cfg.installation, events).value, call, now);
            && (d.Ready? ==> !KeyTaken(events, request))
            && (d.Replayed? ==> WrittenAt(events, d.record) && d.record.request == request)
            && (forall r | Answers(events, request, r) ::
                  d == (if r.request == request then Replayed(r) else Refused(Conflict)))
  {
    hide StepEvent, Build, ValidOutcome, WrittenAt, Replay, RequestFor, SemanticKeyOf, IdempotencyKeyOf;
    IndexReadsJournal(cfg, events, RequestFor(cfg, call));
    IndexFromJournal(cfg.installation, events);
  }

  lemma {:induction false} FindCommitSound(events: seq<JournalEvent>, c: CommitRequest)
    requires FindCommit(events, c).Some?
    ensures var i := FindCommit(events, c).value; i + 1 < |events| && SameCommit(events, i, c)
  {
    if !SameCommit(events, |events| - 2, c) {
      FindCommitSound(events[..|events| - 1], c);
    }
  }

  /** Whatever the commit did, the record it reports is in the journal. */
  lemma CommitWrites(events: seq<JournalEvent>, c: CommitRequest)
    requires c.action.request.binding.identity.outcomeKind.ActionResult? && Positioned(events)
    ensures var result := Commit(events, c);
            && (result.Appended? ==> WrittenAt(result.events, RecordFor(events, c)))
            && (result.Found? ==>
                  && result.position + 1 < |events|
                  && WrittenAt(events, RecordOf(c.action.request, c.body, events[result.position + 1])))
  {
    if FindCommit(events, c).Some? {
      FindCommitSound(events, c);
    } else if Commit(events, c).Appended? {
      var after := Commit(events, c).events;
      assert after[|events| + 1] == OutcomeEventFor(events, c);
    }
  }

  lemma ExactResume(cfg: Config, sys: System, cached: CachedProjection)
    requires StoreInv(cfg, sys) && CacheHonest(cfg, sys.journal, Some(cached))
    ensures RebuildFromCache(cfg.installation, cached.projection, sys.journal[cached.cursor..])
            == Rebuild(cfg.installation, sys.journal)
  {
    hide SystemInv, Rebuild, RebuildFromCache, ReservationsUnique;
    CacheIsExact(cfg.installation, sys.journal, cached.cursor);
  }
}
