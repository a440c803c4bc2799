/**
 The shared store and the step system: any number of in-flight calls, each of
 which rebuilds, decides and later tries its compare-and-swap, interleaved with
 other components that append to the same journal.
 */
module AdmissionSystem {
  import opened Wrappers
  import opened Journal
  import opened AdmissionTypes
  import opened AdmissionReplay
  import opened AdmissionBuild

  // The store's atomic commit

  datatype CommitResult = Appended(events: seq<JournalEvent>) | Found(position: nat) | Rejected

  function ReservationEventFor(events: seq<JournalEvent>, c: CommitRequest): JournalEvent {
    Event(ReservationEvent(c.action.run, c.action.id), c.action.run, CountRun(events, c.action.run) + 1,
          |events| + 1, c.action.id, ActionReserved, ActionPayload(c.action), 0)
  }

  function OutcomeEventFor(events: seq<JournalEvent>, c: CommitRequest): JournalEvent {
    Event(c.outcomeId, c.action.run, CountRun(events, c.action.run) + 2, |events| + 2, c.action.id,
          c.action.request.binding.identity.outcomeKind, AdmissionPayload(c.action.request, c.body), c.occurredAt)
  }

  predicate KnownAction(events: seq<JournalEvent>, id: ActionId) {
    exists e | e in events :: e.action == id
  }

  predicate KnownKey(events: seq<JournalEvent>, key: ActionKey) {
    exists e | e in events :: e.payload.ActionPayload? && e.payload.action.key == key
  }

  predicate KnownId(events: seq<JournalEvent>, id: EventId) {
    exists e | e in events :: e.id == id
  }

  /** The pair at i is exactly what this request would have written. */
  predicate SameCommit(events: seq<JournalEvent>, i: nat, c: CommitRequest)
    requires i + 1 < |events|
  {
    && events[i].kind.ActionReserved? && events[i].payload == ActionPayload(c.action)
    && events[i + 1].action == c.action.id && events[i + 1].id == c.outcomeId
    && events[i + 1].kind == c.action.request.binding.identity.outcomeKind
    && events[i + 1].payload == AdmissionPayload(c.action.request, c.body)
    && events[i + 1].occurredAt == c.occurredAt
  }

  function FindCommit(events: seq<JournalEvent>, c: CommitRequest): Option<nat> {
    if |events| < 2 then None
    else if SameCommit(events, |events| - 2, c) then Some(|events| - 2)
    else FindCommit(events[..|events| - 1], c)
  }

  function Commit(events: seq<JournalEvent>, c: CommitRequest): CommitResult {
    var found := FindCommit(events, c);
    if found.Some? then Found(found.value)
    else if || KnownAction(events, c.action.id) || KnownKey(events, c.action.key)
            || c.expectedRun != CountRun(events, c.action.run) || c.expectedGlobal != |events|
            || KnownId(events, ReservationEvent(c.action.run, c.action.id)) || KnownId(events, c.outcomeId)
    then Rejected
    else Appended(events + [ReservationEventFor(events, c), OutcomeEventFor(events, c)])
  }

  // Steps

  datatype Flight = Flight(call: Call, now: int, commit: CommitRequest)

  datatype System = System(journal: seq<JournalEvent>, clock: int, flights: map<nat, Flight>)

  const Initial: System := System([], 0, map[])

  /** Prepare reads the clock, which may have moved by any amount, backwards included. */
  datatype Step =
    | Foreign(event: JournalEvent)
    | Prepare(slot: nat, call: Call, elapsed: int)
    | CommitFlight(slot: nat)

  /**
   Another component's append: it reserves and settles its own actions, each reserved
   once, and never writes admission records.  Nothing obliges it to store the payload
   an outcome names, or to store one that replay can read.
   */
  predicate ForeignAllowed(events: seq<JournalEvent>, e: JournalEvent) {
    && e.position == |events| + 1 && e.runSequence == CountRun(events, e.run) + 1
    && (e.payload.ForeignPayload? || e.payload.MalformedPayload?)
    && !HasAdmissionPrefix(e.action)
    && !KnownId(events, e.id)
    && (e.kind.ActionReserved? ==> forall f | f in events :: f.kind.ActionReserved? ==> f.action != e.action)
  }

  /** Replay fetches and reads the payload of every outcome, whoever wrote it, and of nothing else. */
  predicate PayloadReadable(e: JournalEvent) {
    IsOutcome(e.kind) ==> !e.payload.MalformedPayload?
  }

  function PrepareFlight(cfg: Config, sys: System, slot: nat, call: Call, now: int): System {
    var rest := sys.(clock := now, flights := sys.flights - {slot});
    if !call.Valid(cfg) then rest
    else
      match Rebuild(cfg.installation, sys.journal)
      case None => rest
      case Some(p) =>
        match Decide(cfg, p, call, now)
        case Ready(commit) => rest.(flights := sys.flights[slot := Flight(call, now, commit)])
        case _ => rest
  }

  function Next(cfg: Config, sys: System, step: Step): System {
    match step
    case Foreign(e) => if ForeignAllowed(sys.journal, e) then sys.(journal := sys.journal + [e]) else sys
    case Prepare(slot, call, elapsed) => PrepareFlight(cfg, sys, slot, call, sys.clock + elapsed)
    case CommitFlight(slot) =>
      if slot !in sys.flights then sys
      else
        var landed := sys.(flights := sys.flights - {slot});
        match Commit(sys.journal, sys.flights[slot].commit)
        case Appended(events) => landed.(journal := events)
        case _ => landed
  }

  function Run(cfg: Config, sys: System, steps: seq<Step>): System {
    if steps == [] then sys
    else Next(cfg, Run(cfg, sys, steps[..|steps| - 1]), steps[|steps| - 1])
  }
}
