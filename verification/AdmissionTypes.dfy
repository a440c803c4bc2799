/**
 Records of the admission service: what callers ask for, what the journal keeps
 and what replay projects.

 A digest of a request, a subject or a policy is modelled by the value it digests,
 and an opaque receipt by the fields it hashes.
 */
module AdmissionTypes {
  import opened Wrappers
  import opened Journal

  datatype Operation =
    | AdmissionReserve | QueueEnqueue | QueueAdmit | BackpressureDefer
    | AdmissionRelease | QueueRelease
    | LeaseAcquire | LeaseRenew | LeaseRelease | LeaseExpire
    | StartObservation | CancelOrFence | ScannerApply
    | HandoffIssue | HandoffGrant | HandoffAcknowledge

  datatype ActionKind = AllocateResource | DisposeResource | Observe | Send

  function OperationKind(op: Operation): ActionKind {
    match op
    case AdmissionReserve | QueueEnqueue | QueueAdmit | BackpressureDefer | LeaseAcquire | LeaseRenew =>
      AllocateResource
    case AdmissionRelease | QueueRelease | LeaseRelease | LeaseExpire => DisposeResource
    case StartObservation | CancelOrFence | ScannerApply => Observe
    case HandoffIssue | HandoffGrant | HandoffAcknowledge => Send
  }

  datatype Policy = Policy(
    version: nat,
    installationLimit: nat,
    principalLimit: nat,
    runLimit: nat,
    projectLimit: nat,
    primitiveLimit: nat)
  {
    predicate Valid() {
      && version != 0
      && 0 < installationLimit <= MAX_UINT64
      && 0 < principalLimit <= MAX_UINT64
      && 0 < runLimit <= MAX_UINT64
      && 0 < projectLimit <= MAX_UINT64
      && 0 < primitiveLimit <= MAX_UINT64
    }
  }

  datatype TransitionIdentity = TransitionIdentity(
    action: string,
    key: string,
    outcome: string,
    outcomeKind: EventKind,
    graphRevision: nat,
    generation: nat,
    task: string,
    attempt: string)
  {
    predicate Valid() {
      && graphRevision != 0
      && generation != 0
      && (attempt != "" ==> task != "")
      && (outcomeKind.ActionResult? || outcomeKind.ActionNotPerformed? || outcomeKind.ActionAmbiguous?)
    }
  }

  // Admissions

  datatype AdmissionState = Reserved | Queued | Admitted | Deferred | Released

  datatype Quota = NoQuota | InstallationQuota | PrincipalQuota | RunQuota | ProjectQuota | PrimitiveQuota

  datatype AdmissionSubject = AdmissionSubject(
    id: string, principal: string, project: string, primitive: string, work: string)

  datatype RunAdmission = RunAdmission(
    run: string,
    subject: AdmissionSubject,
    state: AdmissionState,
    limiter: Quota,
    sequence: nat,
    graphRevision: nat,
    generation: nat,
    policy: Policy,
    original: Request,
    receipt: ReceiptId)

  datatype AdmissionTombstone = AdmissionTombstone(
    run: string,
    subject: AdmissionSubject,
    graphRevision: nat,
    generation: nat,
    policy: Policy,
    original: Request,
    receipt: ReceiptId,
    releasedAt: int)

  // Leases

  datatype ResourceKey = ResourceKey(namespace: string, project: string, name: string)

  datatype LeaseMode = Shared | Exclusive

  datatype LeaseState = Active | LeaseReleased | LeaseExpired

  datatype LeaseSubject = LeaseSubject(id: string, resource: ResourceKey, mode: LeaseMode, holder: string)

  datatype Lease = Lease(
    run: string,
    subject: LeaseSubject,
    state: LeaseState,
    issuedAt: int,
    expiresAt: int,
    generation: nat,
    graphRevision: nat,
    original: Request,
    receipt: ReceiptId)

  datatype LeaseTombstone = LeaseTombstone(
    run: string,
    subject: LeaseSubject,
    state: LeaseState,
    issuedAt: int,
    expiresAt: int,
    generation: nat,
    graphRevision: nat,
    original: Request,
    receipt: ReceiptId,
    terminalAt: int)

  // Evidence handoffs

  datatype HandoffState = Issued | Granted | Acknowledged

  datatype Endpoint = Endpoint(project: string, task: string, attempt: string, action: string, generation: nat)

  datatype HandoffSubject = HandoffSubject(
    graphRevision: nat, edge: string, producer: Endpoint, consumer: Endpoint, evidence: string)

  datatype Handoff = Handoff(
    id: HandoffId,
    run: string,
    subject: HandoffSubject,
    state: HandoffState,
    receipt: ReceiptId,
    predecessor: Option<ReceiptId>,
    sequence: nat)

  datatype HandoffId = HandoffId(run: string, subject: HandoffSubject)

  // Fenced recovery

  datatype RecoveryState =
    | ObservationStarted | EffectObserved | NotPerformed | Canceled | Fenced | Ambiguous | Applied

  datatype ProviderStatus =
    | ProviderEffectObserved | ProviderNotPerformed | ProviderCanceled | ProviderFenced | ProviderAmbiguous

  datatype RecoveryIdentity = RecoveryIdentity(
    installation: string, run: string, action: string, generation: nat, digest: string)

  datatype ProviderFact = ProviderFact(status: ProviderStatus, receipt: string, digest: string)

  datatype FenceProof = FenceProof(status: ProviderStatus, receipt: string)

  datatype RecoveryRecord = RecoveryRecord(
    identity: RecoveryIdentity, state: RecoveryState, receipt: ReceiptId, fact: Option<ProviderFact>)

  // Requests and persisted transitions

  datatype Subject =
    | AdmissionSubj(admission: AdmissionSubject)
    | LeaseSubj(lease: LeaseSubject, expiresAt: int)
    | HandoffSubj(handoff: HandoffSubject)
    | RecoverySubj(recovery: RecoveryIdentity)
    | FenceSubj(recovery: RecoveryIdentity, proof: FenceProof)
    | ScannerSubj(recovery: RecoveryIdentity, authority: string, fact: ProviderFact)

  datatype Binding = Binding(
    installation: string,
    run: string,
    identity: TransitionIdentity,
    operation: Operation,
    subject: Subject)

  datatype Request = Request(binding: Binding, predecessor: Option<ReceiptId>, policy: Option<Policy>)

  datatype ReceiptId =
    | Receipt(operation: Operation, installation: string, run: string, action: string, generation: nat, request: Request)
    | UnknownReceipt(text: string)

  function OpaqueReceipt(op: Operation, b: Binding, request: Request): ReceiptId {
    Receipt(op, b.installation, b.run, b.identity.action, b.identity.generation, request)
  }

  datatype Body =
    | AdmissionBody(admission: RunAdmission)
    | ReleaseBody(released: AdmissionTombstone)
    | LeaseBody(lease: Lease)
    | LeaseEndBody(ended: LeaseTombstone)
    | HandoffBody(handoff: Handoff)
    | RecoveryBody(recovery: RecoveryRecord)

  datatype Action = Action(
    id: ActionId,
    run: string,
    task: string,
    attempt: string,
    kind: ActionKind,
    graphRevision: nat,
    expectedProjection: nat,
    request: Request,
    key: ActionKey)

  datatype ActionKey = ActionKey(installation: string, run: string, key: string)

  /** What a payload digest resolves to in the payload store. */
  datatype Payload =
    | ActionPayload(action: Action)
    | AdmissionPayload(request: Request, body: Body)
    | ForeignPayload(text: string)
    | MalformedPayload

  type JournalEvent = Event<Payload>

  datatype Record = Record(request: Request, body: Body, runSequence: nat, position: nat)

  // Index keys

  datatype Scoped = Scoped(run: string, id: string)

  datatype SemanticKey = SemanticKey(run: string, action: string, generation: nat)

  datatype RecoveryKey = RecoveryKey(installation: string, run: string, action: string, generation: nat)

  datatype HandoffKey = HandoffKey(run: string, id: HandoffId)

  function SemanticKeyOf(r: Request): SemanticKey {
    SemanticKey(r.binding.run, r.binding.identity.action, r.binding.identity.generation)
  }

  function IdempotencyKeyOf(r: Request): Scoped {
    Scoped(r.binding.run, r.binding.identity.key)
  }

  function RecoveryKeyOf(i: RecoveryIdentity): RecoveryKey {
    RecoveryKey(i.installation, i.run, i.action, i.generation)
  }

  function ActionIdOf(b: Binding): ActionId {
    AdmissionAction(b.installation, b.run, b.identity.action, b.identity.generation)
  }

  function ActionKeyOf(b: Binding): ActionKey {
    ActionKey(b.installation, b.run, b.identity.key)
  }

  function OutcomeIdOf(b: Binding): EventId {
    AdmissionOutcomeEvent(b.installation, b.run, b.identity.outcome)
  }

  /** The projected records. */
  datatype Ledger = Ledger(
    admissions: map<Scoped, RunAdmission>,
    admissionTombs: map<Scoped, AdmissionTombstone>,
    leases: map<Scoped, Lease>,
    leaseTombs: map<Scoped, LeaseTombstone>,
    handoffs: map<HandoffKey, Handoff>,
    handoffReceipts: map<ReceiptId, HandoffKey>,
    recoveries: map<RecoveryKey, RecoveryRecord>)

  /** The cursor, the run heads, the transition indexes and the projected records. */
  datatype Projection = Projection(
    position: nat,
    runHeads: map<string, nat>,
    transitions: map<SemanticKey, Record>,
    idempotency: map<Scoped, Record>,
    ledger: Ledger)

  const EmptyProjection: Projection :=
    Projection(0, map[], map[], map[], Ledger(map[], map[], map[], map[], map[], map[], map[]))

  function RunHead(p: Projection, run: string): nat {
    if run in p.runHeads then p.runHeads[run] else 0
  }
}
