/**
 The authoritative journal's vocabulary: events, the identifiers they carry and
 the kinds the readers distinguish.

 Stable identifiers are hashes of tagged, ordered field lists.  They are modelled
 as datatype values, so equal identifiers mean equal fields.  Payload digests are
 modelled by the payload they name.
 */
module Journal {

  const MAX_UINT64: nat := 0xFFFF_FFFF_FFFF_FFFF

  datatype ActionId =
    | NoAction
    | AdmissionAction(installation: string, run: string, action: string, generation: nat)
    | OtherAction(name: string)

  datatype EventId =
    | ReservationEvent(run: string, action: ActionId)
    | AdmissionOutcomeEvent(installation: string, run: string, outcome: string)
    | OtherEvent(name: string)

  datatype EventKind =
    | ActionReserved
    | ActionResult
    | ActionNotPerformed
    | ActionSuperseded
    | ActionAmbiguous
    | MigrationAction
    | OtherKind

  datatype Event<+P> = Event(
    id: EventId,
    run: string,
    runSequence: nat,
    position: nat,
    action: ActionId,
    kind: EventKind,
    payload: P,
    occurredAt: int)

  predicate IsOutcome(kind: EventKind) {
    kind.ActionResult? || kind.ActionNotPerformed? || kind.ActionSuperseded? || kind.ActionAmbiguous?
  }

  /** True of every identifier whose text starts with the admission action prefix. */
  predicate HasAdmissionPrefix(a: ActionId) {
    a.AdmissionAction? || (a.OtherAction? && "admission_action_" <= a.name)
  }

  /** How many of the events belong to the run: the run's head in the store. */
  function CountRun<P>(events: seq<Event<P>>, run: string): nat {
    if events == [] then 0
    else CountRun(events[..|events| - 1], run) + (if events[|events| - 1].run == run then 1 else 0)
  }

}
