/**
 Replay: the checks every persisted transition must pass and the fold that turns
 journal events into a projection.
 */
module AdmissionReplay {
  import opened Wrappers
  import opened Journal
  import opened AdmissionTypes

  // Checks on a persisted outcome (validateOutcomeSemantics)

  predicate ValidAdmissionOutcome(request: Request, a: RunAdmission) {
    var b := request.binding;
    && b.subject.AdmissionSubj? && request.predecessor.None? && request.policy.Some?
    && request.policy.value.version != 0
    && a.run == b.run && a.subject == b.subject.admission && a.sequence == 0
    && a.graphRevision == b.identity.graphRevision && a.generation == b.identity.generation
    && a.policy == request.policy.value
    && a.receipt == OpaqueReceipt(b.operation, b, a.original)
    && match b.operation
       case AdmissionReserve => a.original == request && a.state.Reserved? && a.limiter.NoQuota?
       case QueueEnqueue => a.state.Queued? && a.limiter.NoQuota?
       case QueueAdmit => a.state.Admitted? && a.limiter.NoQuota?
       case BackpressureDefer => a.state.Deferred? && !a.limiter.NoQuota?
       case _ => false
  }

  predicate ValidReleaseOutcome(request: Request, t: AdmissionTombstone) {
    var b := request.binding;
    && (b.operation.AdmissionRelease? || b.operation.QueueRelease?)
    && b.subject.AdmissionSubj? && request.predecessor.None? && request.policy.Some?
    && request.policy.value.version != 0
    && t.run == b.run && t.subject == b.subject.admission
    && t.graphRevision == b.identity.graphRevision && t.generation == b.identity.generation
    && t.policy == request.policy.value && t.releasedAt != 0
    && t.receipt == OpaqueReceipt(b.operation, b, t.original)
  }

  predicate ValidLeaseOutcome(request: Request, l: Lease) {
    var b := request.binding;
    && (b.operation.LeaseAcquire? || b.operation.LeaseRenew?)
    && b.subject.LeaseSubj? && b.subject.expiresAt != 0 && request.predecessor.None? && request.policy.None?
    && l.run == b.run && l.subject == b.subject.lease && l.state.Active?
    && l.issuedAt != 0 && l.expiresAt == b.subject.expiresAt && l.issuedAt < l.expiresAt
    && l.generation == b.identity.generation && l.graphRevision == b.identity.graphRevision
    && l.receipt == OpaqueReceipt(b.operation, b, l.original)
    && (b.operation.LeaseAcquire? ==> l.original == request)
  }

  predicate ValidLeaseEndOutcome(request: Request, t: LeaseTombstone) {
    var b := request.binding;
    && (b.operation.LeaseRelease? || b.operation.LeaseExpire?)
    && b.subject.LeaseSubj? && b.subject.expiresAt != 0 && request.predecessor.None? && request.policy.None?
    && t.run == b.run && t.subject == b.subject.lease
    && t.state == (if b.operation.LeaseExpire? then LeaseExpired else LeaseReleased)
    && t.issuedAt != 0 && t.expiresAt == b.subject.expiresAt
    && t.generation == b.identity.generation && t.graphRevision == b.identity.graphRevision
    && t.terminalAt != 0
    && t.receipt == OpaqueReceipt(b.operation, b, t.original)
  }

  predicate ValidHandoffOutcome(request: Request, h: Handoff) {
    var b := request.binding;
    && (b.operation.HandoffIssue? || b.operation.HandoffGrant? || b.operation.HandoffAcknowledge?)
    && b.subject.HandoffSubj? && request.policy.None?
    && h.run == b.run && h.subject == b.subject.handoff
    && h.subject.graphRevision == b.identity.graphRevision
    && h.id == HandoffId(b.run, h.subject)
    && h.state == HandoffStateOf(b.operation) && h.sequence == 0
    && h.receipt == OpaqueReceipt(b.operation, b, request)
    && (h.predecessor.None? <==> b.operation.HandoffIssue?)
    && request.predecessor == h.predecessor
  }

  function HandoffStateOf(op: Operation): HandoffState {
    match op
    case HandoffGrant => Granted
    case HandoffAcknowledge => Acknowledged
    case _ => Issued
  }

  predicate ValidProviderFact(fact: ProviderFact, digest: string) {
    && fact.digest == digest
    && (fact.status.ProviderAmbiguous? <==> fact.receipt == "")
  }

  /** The recovery state a provider status settles into; ambiguity settles nothing. */
  function SettledState(status: ProviderStatus): Option<RecoveryState> {
    match status
    case ProviderEffectObserved => Some(Applied)
    case ProviderNotPerformed => Some(NotPerformed)
    case ProviderCanceled => Some(Canceled)
    case ProviderFenced => Some(Fenced)
    case ProviderAmbiguous => None
  }

  predicate ValidRecoveryOutcome(request: Request, r: RecoveryRecord) {
    var b := request.binding;
    && request.predecessor.None? && request.policy.None?
    && r.receipt == OpaqueReceipt(b.operation, b, request)
    && match (b.operation, b.subject)
       case (StartObservation, RecoverySubj(identity)) =>
         && ValidIdentityFor(b, identity, r.identity) && r.state == ObservationStarted && r.fact == None
       case (CancelOrFence, FenceSubj(identity, proof)) =>
         && ValidIdentityFor(b, identity, r.identity)
         && !proof.status.ProviderEffectObserved? && SettledState(proof.status) == Some(r.state)
         && r.fact == Some(ProviderFact(proof.status, proof.receipt, identity.digest))
         && ValidProviderFact(r.fact.value, identity.digest)
       case (ScannerApply, ScannerSubj(identity, authority, fact)) =>
         && authority != "" && ValidIdentityFor(b, identity, r.identity)
         && SettledState(fact.status) == Some(r.state)
         && r.fact == Some(fact) && ValidProviderFact(fact, identity.digest)
       case _ => false
  }

  predicate ValidIdentityFor(b: Binding, requested: RecoveryIdentity, recorded: RecoveryIdentity) {
    && requested.generation != 0 && requested.run == b.run
    && (requested.installation == "" || requested.installation == b.installation)
    && recorded == requested.(installation := b.installation)
  }

  predicate ValidOutcome(request: Request, body: Body) {
    && request.binding.identity.Valid() && request.binding.identity.outcomeKind.ActionResult?
    && match body
       case AdmissionBody(a) => ValidAdmissionOutcome(request, a)
       case ReleaseBody(t) => ValidReleaseOutcome(request, t)
       case LeaseBody(l) => ValidLeaseOutcome(request, l)
       case LeaseEndBody(t) => ValidLeaseEndOutcome(request, t)
       case HandoffBody(h) => ValidHandoffOutcome(request, h)
       case RecoveryBody(r) => ValidRecoveryOutcome(request, r)
  }

  // Legal moves of each projected record

  predicate ValidAdmissionTransition(prior: AdmissionState, next: AdmissionState) {
    match prior
    case Reserved => next.Queued? || next.Admitted? || next.Deferred?
    case Queued => next.Admitted? || next.Deferred?
    case Deferred => next.Admitted? || next.Deferred?
    case Admitted => false
    case Released => false
  }

  predicate ValidHandoffTransition(prior: HandoffState, next: HandoffState) {
    (prior.Issued? && next.Granted?) || (prior.Granted? && next.Acknowledged?)
  }

  predicate ValidRecoveryTransition(prior: RecoveryState, next: RecoveryState) {
    match prior
    case ObservationStarted => !next.ObservationStarted?
    case EffectObserved => next.Applied? || next.Fenced?
    case _ => false
  }

  function ReleaseOperation(state: AdmissionState): Operation {
    if state.Queued? || state.Deferred? then QueueRelease else AdmissionRelease
  }

  // The latest generation of one recovered action

  predicate SameAction(a: RecoveryIdentity, b: RecoveryIdentity) {
    a.installation == b.installation && a.run == b.run && a.action == b.action
  }

  function Generations(recoveries: map<RecoveryKey, RecoveryRecord>, i: RecoveryIdentity): set<nat> {
    set k | k in recoveries && SameAction(recoveries[k].identity, i) :: recoveries[k].identity.generation
  }

  lemma {:induction false} MaximumExists(s: set<nat>)
    requires s != {}
    ensures exists g :: g in s && forall h | h in s :: h <= g
  {
    var x :| x in s;
    if s - {x} == {} {
      assert s == {x};
    } else {
      MaximumExists(s - {x});
      var g :| g in s - {x} && forall h | h in s - {x} :: h <= g;
      assert forall h | h in s :: h == x || h in s - {x};
      if g < x {
        assert x in s && forall h | h in s :: h <= x;
      } else {
        assert g in s && forall h | h in s :: h <= g;
      }
    }
  }

  function Maximum(s: set<nat>): (g: nat)
    requires s != {}
    ensures g in s && forall h | h in s :: h <= g
  {
    MaximumExists(s);
    var g :| g in s && forall h | h in s :: h <= g;
    g
  }

  function LatestRecovery(recoveries: map<RecoveryKey, RecoveryRecord>, i: RecoveryIdentity): Option<RecoveryRecord> {
    var generations := Generations(recoveries, i);
    if generations == {} then None
    else
      var key := RecoveryKey(i.installation, i.run, i.action, Maximum(generations));
      if key in recoveries then Some(recoveries[key]) else None
  }

  // apply, one function per record kind

  function ApplyAdmission(l: Ledger, run: string, value: RunAdmission, sequence: nat)
    : (r: Option<Ledger>)
    ensures r.Some? ==> r.value == l.(admissions := r.value.admissions)
  {
    var key := Scoped(run, value.subject.id);
    var accepted :=
      if key in l.admissions then
        && l.admissions[key].subject == value.subject
        && ValidAdmissionTransition(l.admissions[key].state, value.state)
      else value.state.Reserved?;
    if accepted then Some(l.(admissions := l.admissions[key := value.(sequence := sequence)])) else None
  }

  function ApplyRelease(l: Ledger, run: string, value: AdmissionTombstone, op: Operation, sequence: nat)
    : (r: Option<Ledger>)
    ensures r.Some? ==> r.value == l.(admissions := r.value.admissions, admissionTombs := r.value.admissionTombs)
  {
    var key := Scoped(run, value.subject.id);
    if key !in l.admissions then None
    else
      var prior := l.admissions[key];
      if prior.state.Released? || prior.subject != value.subject || prior.original != value.original
         || ReleaseOperation(prior.state) != op then None
      else
        var released := prior.(state := Released, receipt := value.receipt, sequence := sequence,
                               graphRevision := value.graphRevision, generation := value.generation,
                               policy := value.policy);
        Some(l.(admissions := l.admissions[key := released], admissionTombs := l.admissionTombs[key := value]))
  }

  function ApplyLease(l: Ledger, run: string, value: Lease): (r: Option<Ledger>)
    ensures r.Some? ==> r.value == l.(leases := r.value.leases)
  {
    var key := Scoped(run, value.subject.id);
    var accepted :=
      && value.state.Active?
      && (key in l.leases ==>
            var prior := l.leases[key];
            && prior.subject == value.subject && prior.state.Active?
            && prior.generation < value.generation && prior.original == value.original
            && prior.issuedAt == value.issuedAt && prior.expiresAt < value.expiresAt);
    if accepted then Some(l.(leases := l.leases[key := value])) else None
  }

  function ApplyLeaseEnd(l: Ledger, run: string, requested: Subject, value: LeaseTombstone)
    : (r: Option<Ledger>)
    ensures r.Some? ==> r.value == l.(leases := r.value.leases, leaseTombs := r.value.leaseTombs)
  {
    var key := Scoped(run, value.subject.id);
    if key !in l.leases then None
    else
      var prior := l.leases[key];
      if && prior.state.Active? && prior.subject == value.subject && prior.original == value.original
         && !value.state.Active?
         && requested == LeaseSubj(prior.subject, prior.expiresAt)
         && value.issuedAt == prior.issuedAt && value.expiresAt == prior.expiresAt
         && prior.issuedAt <= value.terminalAt
         && (value.state.LeaseExpired? ==> prior.expiresAt <= value.terminalAt)
      then
        var ended := prior.(state := value.state, receipt := value.receipt,
                            generation := value.generation, graphRevision := value.graphRevision);
        Some(l.(leases := l.leases[key := ended], leaseTombs := l.leaseTombs[key := value]))
      else None
  }

  function ApplyHandoff(l: Ledger, run: string, value: Handoff, sequence: nat): (r: Option<Ledger>)
    ensures r.Some? ==> r.value == l.(handoffs := r.value.handoffs, handoffReceipts := r.value.handoffReceipts)
  {
    var key := HandoffKey(run, value.id);
    var accepted :=
      && (if key in l.handoffs then
            var prior := l.handoffs[key];
            && prior.subject == value.subject && ValidHandoffTransition(prior.state, value.state)
            && value.predecessor == Some(prior.receipt)
          else value.state.Issued? && value.predecessor.None?)
      && (value.receipt in l.handoffReceipts ==> l.handoffReceipts[value.receipt] == key);
    if accepted then
      Some(l.(handoffs := l.handoffs[key := value.(sequence := sequence)],
              handoffReceipts := l.handoffReceipts[value.receipt := key]))
    else None
  }

  predicate MayStartGeneration(latest: Option<RecoveryRecord>, i: RecoveryIdentity) {
    latest.Some? ==>
      && latest.value.identity.digest == i.digest
      && latest.value.identity.generation != MAX_UINT64
      && i.generation == latest.value.identity.generation + 1
      && (latest.value.state.Canceled? || latest.value.state.NotPerformed?)
  }

  function ApplyRecovery(l: Ledger, value: RecoveryRecord): (r: Option<Ledger>)
    ensures r.Some? ==> r.value == l.(recoveries := r.value.recoveries)
  {
    var key := RecoveryKeyOf(value.identity);
    var latest := LatestRecovery(l.recoveries, value.identity);
    var accepted :=
      if key in l.recoveries then
        && !(latest.Some? && latest.value.identity.generation > value.identity.generation)
        && ValidRecoveryTransition(l.recoveries[key].state, value.state)
      else value.state.ObservationStarted? && MayStartGeneration(latest, value.identity);
    if accepted then Some(l.(recoveries := l.recoveries[key := value])) else None
  }

  function Apply(l: Ledger, r: Record): Option<Ledger> {
    var run := r.request.binding.run;
    match r.body
    case AdmissionBody(a) => ApplyAdmission(l, run, a, r.position)
    case ReleaseBody(t) => ApplyRelease(l, run, t, r.request.binding.operation, r.position)
    case LeaseBody(lease) => ApplyLease(l, run, lease)
    case LeaseEndBody(t) => ApplyLeaseEnd(l, run, r.request.binding.subject, t)
    case HandoffBody(h) => ApplyHandoff(l, run, h, r.position)
    case RecoveryBody(v) => ApplyRecovery(l, v)
  }

  // Replaying events

  datatype ReplayState = ReplayState(p: Projection, reservations: map<ActionId, JournalEvent>)

  const Start: ReplayState := ReplayState(EmptyProjection, map[])

  function Advance(p: Projection, e: JournalEvent): Projection {
    p.(position := e.position, runHeads := p.runHeads[e.run := e.runSequence])
  }

  /** The reservation and outcome are one adjacent committed pair whose every identifier derives from the request. */
  predicate ValidPair(installation: string, reservation: JournalEvent, e: JournalEvent, request: Request) {
    var b := request.binding;
    && reservation.payload.ActionPayload?
    && var action := reservation.payload.action;
    && b.installation == installation && b.run == action.run && b.run == e.run
    && action.id == ActionIdOf(b) && action.key == ActionKeyOf(b)
    && action.kind == OperationKind(b.operation) && action.graphRevision == b.identity.graphRevision
    && action.task == b.identity.task && action.attempt == b.identity.attempt
    && action.request == request
    && reservation.action == action.id && reservation.run == action.run && reservation.kind.ActionReserved?
    && reservation.runSequence == action.expectedProjection + 1
    && e.runSequence == reservation.runSequence + 1 && e.position == reservation.position + 1
    && e.id == OutcomeIdOf(b) && e.action == action.id && e.kind == b.identity.outcomeKind
  }

  function RecordOf(request: Request, body: Body, e: JournalEvent): Record {
    Record(request, body, e.runSequence, e.position)
  }

  function Remember(p: Projection, r: Record): Projection {
    p.(transitions := p.transitions[SemanticKeyOf(r.request) := r],
       idempotency := p.idempotency[IdempotencyKeyOf(r.request) := r])
  }

  predicate Unseen(p: Projection, r: Record) {
    && (SemanticKeyOf(r.request) in p.transitions ==> p.transitions[SemanticKeyOf(r.request)] == r)
    && (IdempotencyKeyOf(r.request) in p.idempotency ==> p.idempotency[IdempotencyKeyOf(r.request)] == r)
  }

  function StepOutcome(installation: string, s: ReplayState, e: JournalEvent, request: Request, body: Body)
    : Option<ReplayState>
  {
    var r := RecordOf(request, body, e);
    if || e.action !in s.reservations
       || !ValidPair(installation, s.reservations[e.action], e, request)
       || !ValidOutcome(request, body)
       || !Unseen(s.p, r)
    then None
    else
      match Apply(s.p.ledger, r)
      case None => None
      case Some(ledger) =>
        Some(ReplayState(Remember(s.p, r).(ledger := ledger), s.reservations - {e.action}))
  }

  function StepEvent(installation: string, s: ReplayState, e: JournalEvent): Option<ReplayState> {
    if e.position != s.p.position + 1 || e.runSequence != RunHead(s.p, e.run) + 1 then None
    else
      var moved := s.(p := Advance(s.p, e));
      if e.kind.ActionReserved? then
        if e.action in s.reservations then None
        else Some(moved.(reservations := s.reservations[e.action := e]))
      else if !IsOutcome(e.kind) then Some(moved)
      else
        match e.payload
        case ForeignPayload(_) => Some(moved)
        case ActionPayload(_) => Some(moved)
        case MalformedPayload => None
        case AdmissionPayload(request, body) => StepOutcome(installation, moved, e, request, body)
  }

  function ReplayFrom(installation: string, s: ReplayState, events: seq<JournalEvent>): Option<ReplayState> {
    if events == [] then Some(s)
    else
      match ReplayFrom(installation, s, events[..|events| - 1])
      case None => None
      case Some(mid) => StepEvent(installation, mid, events[|events| - 1])
  }

  /** An outcome event that carries one of this service's transitions. */
  predicate IsTransition(e: JournalEvent) {
    IsOutcome(e.kind) && e.payload.AdmissionPayload?
  }

  function RecordAt(e: JournalEvent): Record
    requires IsTransition(e)
  {
    RecordOf(e.payload.request, e.payload.body, e)
  }

  /** No admission reservation may be left without its outcome. */
  predicate Settled(s: ReplayState) {
    forall a | a in s.reservations :: !HasAdmissionPrefix(a)
  }

  function Replay(installation: string, events: seq<JournalEvent>): Option<ReplayState> {
    ReplayFrom(installation, Start, events)
  }

  /** Full replay of the journal (rebuild without a cache). */
  function Rebuild(installation: string, events: seq<JournalEvent>): Option<Projection> {
    match Replay(installation, events)
    case None => None
    case Some(s) => if Settled(s) then Some(s.p) else None
  }
}
