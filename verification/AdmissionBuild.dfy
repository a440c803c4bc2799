/**
 The writer: what each service call asks for, the outcome its builder computes
 from a projection, and the decision one commit attempt takes.
 */
module AdmissionBuild {
  import opened Wrappers
  import opened Journal
  import opened AdmissionTypes
  import opened AdmissionReplay

  /** What distinguishes one installation's services: all share the store and the policy. */
  datatype Config = Config(installation: string, policy: Policy, scannerAuthority: string)

  datatype Error =
    | InvalidRequest | InvalidRecord | Conflict | NotFound | LeaseBusy | Terminal | NotExpired
    | AmbiguousFact | FencedGeneration | StoreFailure | DecisionChanged | ContextCanceled

  /** One call to commitTransition: the operation with everything its builder closes over. */
  datatype Call =
    | ReserveCall(run: string, identity: TransitionIdentity, subject: AdmissionSubject)
    | AdmissionCall(run: string, identity: TransitionIdentity, subject: AdmissionSubject,
                    operation: Operation, limiter: Quota)
    | ReleaseCall(run: string, identity: TransitionIdentity, subject: AdmissionSubject, operation: Operation)
    | AcquireCall(run: string, identity: TransitionIdentity, lease: LeaseSubject, expiresAt: int)
    | RenewCall(run: string, identity: TransitionIdentity, lease: LeaseSubject, expiresAt: int)
    | EndLeaseCall(run: string, identity: TransitionIdentity, lease: LeaseSubject, expiresAt: int, expire: bool)
    | HandoffCall(run: string, identity: TransitionIdentity, handoff: HandoffSubject, state: HandoffState,
                  predecessor: Option<ReceiptId>)
    | StartCall(identity: TransitionIdentity, recovery: RecoveryIdentity)
    | FenceCall(identity: TransitionIdentity, recovery: RecoveryIdentity, proof: FenceProof)
    | ScannerCall(identity: TransitionIdentity, recovery: RecoveryIdentity, authority: string, fact: ProviderFact)
  {
    function Run(): string {
      match this
      case StartCall(_, i) => i.run
      case FenceCall(_, i, _) => i.run
      case ScannerCall(_, i, _, _) => i.run
      case ReserveCall(r, _, _) => r
      case AdmissionCall(r, _, _, _, _) => r
      case ReleaseCall(r, _, _, _) => r
      case AcquireCall(r, _, _, _) => r
      case RenewCall(r, _, _, _) => r
      case EndLeaseCall(r, _, _, _, _) => r
      case HandoffCall(r, _, _, _, _) => r
    }

    function Op(): Operation {
      match this
      case ReserveCall(_, _, _) => AdmissionReserve
      case AdmissionCall(_, _, _, op, _) => op
      case ReleaseCall(_, _, _, op) => op
      case AcquireCall(_, _, _, _) => LeaseAcquire
      case RenewCall(_, _, _, _) => LeaseRenew
      case EndLeaseCall(_, _, _, _, expire) => if expire then LeaseExpire else LeaseRelease
      case HandoffCall(_, _, _, state, _) =>
        (match state case Issued => HandoffIssue case Granted => HandoffGrant case Acknowledged => HandoffAcknowledge)
      case StartCall(_, _) => StartObservation
      case FenceCall(_, _, _) => CancelOrFence
      case ScannerCall(_, _, _, _) => ScannerApply
    }

    function Subj(): Subject {
      match this
      case ReserveCall(_, _, s) => AdmissionSubj(s)
      case AdmissionCall(_, _, s, _, _) => AdmissionSubj(s)
      case ReleaseCall(_, _, s, _) => AdmissionSubj(s)
      case AcquireCall(_, _, l, x) => LeaseSubj(l, x)
      case RenewCall(_, _, l, x) => LeaseSubj(l, x)
      case EndLeaseCall(_, _, l, x, _) => LeaseSubj(l, x)
      case HandoffCall(_, _, h, _, _) => HandoffSubj(h)
      case StartCall(_, i) => RecoverySubj(i)
      case FenceCall(_, i, proof) => FenceSubj(i, proof)
      case ScannerCall(_, i, authority, fact) => ScannerSubj(i, authority, fact)
    }

    /** The checks a call passes before it reaches the journal. */
    predicate Valid(cfg: Config) {
      && identity.Valid()
      && match this
         case ReserveCall(_, _, _) => true
         case AdmissionCall(_, _, _, op, limiter) =>
           (op.QueueEnqueue? || op.QueueAdmit? || op.BackpressureDefer?) &&
           (op.BackpressureDefer? <==> !limiter.NoQuota?)
         case ReleaseCall(_, _, _, op) => op.AdmissionRelease? || op.QueueRelease?
         case AcquireCall(_, _, _, x) => x != 0
         case RenewCall(_, _, _, x) => x != 0
         case EndLeaseCall(_, _, _, x, _) => x != 0
         case HandoffCall(_, id, h, state, predecessor) =>
           && (state.Issued? <==> predecessor.None?)
           && id.graphRevision == h.graphRevision
         case StartCall(_, i) => i.generation != 0
         case FenceCall(_, i, proof) =>
           && i.generation != 0 && proof.receipt != ""
           && (proof.status.ProviderCanceled? || proof.status.ProviderNotPerformed? || proof.status.ProviderFenced?)
         case ScannerCall(_, i, authority, fact) =>
           && authority != "" && authority == cfg.scannerAuthority
           && i.generation != 0 && ValidProviderFact(fact, i.digest) && !fact.status.ProviderAmbiguous?
    }
  }

  function BindingFor(cfg: Config, call: Call): Binding {
    Binding(cfg.installation, call.Run(), call.identity, call.Op(), call.Subj())
  }

  function RequestFor(cfg: Config, call: Call): Request {
    Request(BindingFor(cfg, call),
            if call.HandoffCall? then call.predecessor else None,
            if call.Subj().AdmissionSubj? then Some(cfg.policy) else None)
  }

  // Quotas

  datatype Dimension =
    | WholeInstallation
    | ForPrincipal(principal: string)
    | ForRun(run: string)
    | ForProject(project: string)
    | ForPrimitive(primitive: string)

  predicate InDimension(a: RunAdmission, d: Dimension) {
    match d
    case WholeInstallation => true
    case ForPrincipal(x) => a.subject.principal == x
    case ForRun(x) => a.run == x
    case ForProject(x) => a.subject.project == x
    case ForPrimitive(x) => a.subject.primitive == x
  }

  function Limit(policy: Policy, d: Dimension): nat {
    match d
    case WholeInstallation => policy.installationLimit
    case ForPrincipal(_) => policy.principalLimit
    case ForRun(_) => policy.runLimit
    case ForProject(_) => policy.projectLimit
    case ForPrimitive(_) => policy.primitiveLimit
  }

  /** The admitted entries that count against one dimension. */
  function Occupants(admissions: map<Scoped, RunAdmission>, d: Dimension): set<Scoped> {
    set k | k in admissions && admissions[k].state.Admitted? && InDimension(admissions[k], d)
  }

  predicate Full(policy: Policy, admissions: map<Scoped, RunAdmission>, d: Dimension) {
    |Occupants(admissions, d)| >= Limit(policy, d)
  }

  function LimitingQuota(policy: Policy, admissions: map<Scoped, RunAdmission>, run: string, s: AdmissionSubject): Quota {
    if Full(policy, admissions, WholeInstallation) then InstallationQuota
    else if Full(policy, admissions, ForPrincipal(s.principal)) then PrincipalQuota
    else if Full(policy, admissions, ForRun(run)) then RunQuota
    else if Full(policy, admissions, ForProject(s.project)) then ProjectQuota
    else if Full(policy, admissions, ForPrimitive(s.primitive)) then PrimitiveQuota
    else NoQuota
  }

  // Leases

  /** Two leases exclude one another when they name one resource and one of them is exclusive. */
  predicate Excludes(a: LeaseSubject, b: LeaseSubject) {
    a.resource == b.resource && (a.mode.Exclusive? || b.mode.Exclusive?)
  }

  predicate ConflictingLease(leases: map<Scoped, Lease>, run: string, subject: LeaseSubject) {
    exists k | k in leases ::
      leases[k].state.Active? && k != Scoped(run, subject.id) && Excludes(leases[k].subject, subject)
  }

  // Builders

  function BuildReserve(cfg: Config, l: Ledger, call: Call): Result<Body, Error>
    requires call.ReserveCall?
  {
    var request := RequestFor(cfg, call);
    if Scoped(call.run, call.subject.id) in l.admissions then Err(Conflict)
    else Ok(AdmissionBody(RunAdmission(
      call.run, call.subject, Reserved, NoQuota, 0, call.identity.graphRevision, call.identity.generation,
      cfg.policy, request, OpaqueReceipt(AdmissionReserve, request.binding, request))))
  }

  function NextState(op: Operation): AdmissionState {
    match op
    case QueueEnqueue => Queued
    case BackpressureDefer => Deferred
    case _ => Admitted
  }

  function BuildAdmission(cfg: Config, l: Ledger, call: Call): Result<Body, Error>
    requires call.AdmissionCall?
  {
    var key := Scoped(call.run, call.subject.id);
    if key !in l.admissions then Err(NotFound)
    else
      var prior := l.admissions[key];
      var limiting := LimitingQuota(cfg.policy, l.admissions, call.run, call.subject);
      if prior.subject != call.subject || prior.state.Released? || prior.state.Admitted? then Err(Conflict)
      else if (call.operation.QueueAdmit? && !limiting.NoQuota?)
           || (call.operation.BackpressureDefer? && limiting != call.limiter) then Err(DecisionChanged)
      else Ok(AdmissionBody(prior.(
        state := NextState(call.operation), limiter := call.limiter,
        generation := call.identity.generation, graphRevision := call.identity.graphRevision,
        policy := cfg.policy, sequence := 0,
        receipt := OpaqueReceipt(call.operation, BindingFor(cfg, call), prior.original))))
  }

  function BuildRelease(cfg: Config, l: Ledger, call: Call, now: int): Result<Body, Error>
    requires call.ReleaseCall?
  {
    var key := Scoped(call.run, call.subject.id);
    if key !in l.admissions then Err(NotFound)
    else
      var prior := l.admissions[key];
      if prior.subject != call.subject || prior.state.Released? then Err(Conflict)
      else if ReleaseOperation(prior.state) != call.operation then Err(DecisionChanged)
      else Ok(ReleaseBody(AdmissionTombstone(
        call.run, call.subject, call.identity.graphRevision, call.identity.generation, cfg.policy,
        prior.original, OpaqueReceipt(call.operation, BindingFor(cfg, call), prior.original), now)))
  }

  function BuildAcquire(cfg: Config, l: Ledger, call: Call, now: int): Result<Body, Error>
    requires call.AcquireCall?
  {
    var request := RequestFor(cfg, call);
    if now >= call.expiresAt then Err(Terminal)
    else if Scoped(call.run, call.lease.id) in l.leases then Err(Conflict)
    else if ConflictingLease(l.leases, call.run, call.lease) then Err(LeaseBusy)
    else Ok(LeaseBody(Lease(
      call.run, call.lease, Active, now, call.expiresAt, call.identity.generation, call.identity.graphRevision,
      request, OpaqueReceipt(LeaseAcquire, request.binding, request))))
  }

  function BuildRenew(cfg: Config, l: Ledger, call: Call, now: int): Result<Body, Error>
    requires call.RenewCall?
  {
    var key := Scoped(call.run, call.lease.id);
    if now >= call.expiresAt then Err(Terminal)
    else if key !in l.leases then Err(NotFound)
    else
      var prior := l.leases[key];
      if prior.subject != call.lease then Err(Conflict)
      else if !prior.state.Active? || now >= prior.expiresAt then Err(Terminal)
      else if call.identity.generation <= prior.generation || call.expiresAt <= prior.expiresAt then Err(Conflict)
      else Ok(LeaseBody(prior.(
        expiresAt := call.expiresAt, generation := call.identity.generation,
        graphRevision := call.identity.graphRevision,
        receipt := OpaqueReceipt(LeaseRenew, BindingFor(cfg, call), prior.original))))
  }

  function BuildEndLease(cfg: Config, l: Ledger, call: Call, now: int): Result<Body, Error>
    requires call.EndLeaseCall?
  {
    var key := Scoped(call.run, call.lease.id);
    if key !in l.leases then Err(NotFound)
    else
      var prior := l.leases[key];
      if prior.subject != call.lease || prior.expiresAt != call.expiresAt then Err(Conflict)
      else if !prior.state.Active? then Err(Terminal)
      else if call.expire && now < prior.expiresAt then Err(NotExpired)
      else Ok(LeaseEndBody(LeaseTombstone(
        call.run, call.lease, if call.expire then LeaseExpired else LeaseReleased,
        prior.issuedAt, prior.expiresAt, call.identity.generation, call.identity.graphRevision,
        prior.original, OpaqueReceipt(call.Op(), BindingFor(cfg, call), prior.original), now)))
  }

  function BuildHandoff(cfg: Config, l: Ledger, call: Call): Result<Body, Error>
    requires call.HandoffCall?
  {
    var request := RequestFor(cfg, call);
    var id := HandoffId(call.run, call.handoff);
    var key := HandoffKey(call.run, id);
    var built := Ok(HandoffBody(Handoff(
      id, call.run, call.handoff, call.state, OpaqueReceipt(call.Op(), request.binding, request),
      call.predecessor, 0)));
    if call.state.Issued? then
      if key in l.handoffs then Err(Conflict) else built
    else if key !in l.handoffs then
      if && call.predecessor.Some? && call.predecessor.value in l.handoffReceipts
         && l.handoffReceipts[call.predecessor.value] != key
      then Err(Conflict) else Err(NotFound)
    else
      var prior := l.handoffs[key];
      if || prior.subject != call.handoff || Some(prior.receipt) != call.predecessor
         || !ValidHandoffTransition(prior.state, call.state)
      then Err(Conflict) else built
  }

  function Normalize(cfg: Config, i: RecoveryIdentity): Result<RecoveryIdentity, Error> {
    if i.installation != "" && i.installation != cfg.installation then Err(Conflict)
    else Ok(i.(installation := cfg.installation))
  }

  function BuildStart(cfg: Config, l: Ledger, call: Call): Result<Body, Error>
    requires call.StartCall?
  {
    match Normalize(cfg, call.recovery)
    case Err(e) => Err(e)
    case Ok(identity) =>
      var request := RequestFor(cfg, call);
      if RecoveryKeyOf(identity) in l.recoveries then Err(Conflict)
      else if !MayStartGeneration(LatestRecovery(l.recoveries, identity), identity) then Err(Conflict)
      else Ok(RecoveryBody(RecoveryRecord(
        identity, ObservationStarted, OpaqueReceipt(StartObservation, request.binding, request), None)))
  }

  predicate Superseded(l: Ledger, i: RecoveryIdentity) {
    var latest := LatestRecovery(l.recoveries, i);
    latest.Some? && latest.value.identity.generation > i.generation
  }

  function BuildFence(cfg: Config, l: Ledger, call: Call): Result<Body, Error>
    requires call.FenceCall?
  {
    match Normalize(cfg, call.recovery)
    case Err(e) => Err(e)
    case Ok(identity) =>
      var request := RequestFor(cfg, call);
      var key := RecoveryKeyOf(identity);
      if key !in l.recoveries then Err(NotFound)
      else if Superseded(l, identity) then Err(FencedGeneration)
      else if !l.recoveries[key].state.ObservationStarted? && !l.recoveries[key].state.EffectObserved? then Err(Conflict)
      else
        match SettledState(call.proof.status)
        case None => Err(InvalidRequest)
        case Some(state) => Ok(RecoveryBody(RecoveryRecord(
          identity, state, OpaqueReceipt(CancelOrFence, request.binding, request),
          Some(ProviderFact(call.proof.status, call.proof.receipt, identity.digest)))))
  }

  function BuildScanner(cfg: Config, l: Ledger, call: Call): Result<Body, Error>
    requires call.ScannerCall?
  {
    match Normalize(cfg, call.recovery)
    case Err(e) => Err(e)
    case Ok(identity) =>
      var request := RequestFor(cfg, call);
      var key := RecoveryKeyOf(identity);
      if key !in l.recoveries then Err(NotFound)
      else if Superseded(l, identity) then Err(FencedGeneration)
      else
        var prior := l.recoveries[key].state;
        if prior.Canceled? || prior.NotPerformed? || prior.Fenced? then Err(FencedGeneration)
        else if !prior.ObservationStarted? && !prior.EffectObserved? then Err(Conflict)
        else
          match SettledState(call.fact.status)
          case None => Err(AmbiguousFact)
          case Some(state) => Ok(RecoveryBody(RecoveryRecord(
            identity, state, OpaqueReceipt(ScannerApply, request.binding, request), Some(call.fact))))
  }

  function Build(cfg: Config, l: Ledger, call: Call, now: int): Result<Body, Error> {
    match call
    case ReserveCall(_, _, _) => BuildReserve(cfg, l, call)
    case AdmissionCall(_, _, _, _, _) => BuildAdmission(cfg, l, call)
    case ReleaseCall(_, _, _, _) => BuildRelease(cfg, l, call, now)
    case AcquireCall(_, _, _, _) => BuildAcquire(cfg, l, call, now)
    case RenewCall(_, _, _, _) => BuildRenew(cfg, l, call, now)
    case EndLeaseCall(_, _, _, _, _) => BuildEndLease(cfg, l, call, now)
    case HandoffCall(_, _, _, _, _) => BuildHandoff(cfg, l, call)
    case StartCall(_, _) => BuildStart(cfg, l, call)
    case FenceCall(_, _, _) => BuildFence(cfg, l, call)
    case ScannerCall(_, _, _, _) => BuildScanner(cfg, l, call)
  }

  // One attempt of commitTransition

  datatype CommitRequest = CommitRequest(
    action: Action, body: Body, outcomeId: EventId, occurredAt: int, expectedRun: nat, expectedGlobal: nat)

  datatype Decision =
    | Replayed(record: Record)
    | Refused(error: Error)
    | Ready(commit: CommitRequest)

  function ActionFor(cfg: Config, p: Projection, call: Call): Action {
    var b := BindingFor(cfg, call);
    Action(ActionIdOf(b), call.Run(), call.identity.task, call.identity.attempt, OperationKind(b.operation),
           call.identity.graphRevision, RunHead(p, call.Run()), RequestFor(cfg, call), ActionKeyOf(b))
  }

  function Existing(cfg: Config, found: Record, call: Call): Decision {
    if found.request == RequestFor(cfg, call) then Replayed(found) else Refused(Conflict)
  }

  function Decide(cfg: Config, p: Projection, call: Call, now: int): Decision {
    var request := RequestFor(cfg, call);
    if SemanticKeyOf(request) in p.transitions then Existing(cfg, p.transitions[SemanticKeyOf(request)], call)
    else if IdempotencyKeyOf(request) in p.idempotency then
      Existing(cfg, p.idempotency[IdempotencyKeyOf(request)], call)
    else if !call.identity.outcomeKind.ActionResult? then Refused(InvalidRequest)
    else
      match Build(cfg, p.ledger, call, now)
      case Err(e) => Refused(e)
      case Ok(body) =>
        if !ValidOutcome(request, body) then Refused(InvalidRecord)
        else Ready(CommitRequest(ActionFor(cfg, p, call), body, OutcomeIdOf(request.binding), now,
                                 RunHead(p, call.Run()), p.position))
  }
}
