/**
 The run state machine: which records are valid, which saves are accepted.
 */
module RunState {
  import opened Wrappers
  import opened RunTypes
  import opened RunStages

  const VERSIONS: nat := 0x1_0000_0000_0000_0000

  const EXECUTE: string := "execute"
  const RESOLVE: string := "resolve"
  const FINALIZE: string := "finalize"
  const EXECUTE_CANCELLATION: string := "execute-cancellation"

  // Validate

  predicate ValidLease(r: Record) {
    r.lease.Some? ==>
      var lease := r.lease.value;
      && !r.Terminal() && r.evidence.artifact.None?
      && lease.attempt > 0 && lease.startedAt != UNSET && lease.deadline != UNSET && lease.deadline > r.updatedAt
      && lease.reference.run == r.identity.id && lease.reference.size >= 0
      && var latest := LatestStage(r.stages, EXECUTE);
      && latest.Some? && latest.value.status.Running?
      && latest.value.attempts == lease.attempt && latest.value.startedAt == lease.startedAt
  }

  predicate ProfileRequired(r: Record) {
    || r.evidence.baseSHA != ""
    || r.status.Executing? || r.status.AwaitingApproval? || r.status.Publishing? || r.status.Succeeded? || r.status.Declined?
    || exists s | s in r.stages :: s.name == RESOLVE && s.status.StageSucceeded?
  }

  predicate ValidProfile(r: Record) {
    match r.evidence.profile
    case None =>
      r.evidence.bindings.None? && !(r.identity.input.profile.Some? && ProfileRequired(r))
    case Some(profile) =>
      && r.identity.input.profile == Some(profile.id) && !r.status.Pending?
      && (if r.evidence.bindings.None? then profile.secrets == [] else r.evidence.bindings.value == profile.secrets)
      && (forall i, j | 0 <= i < j < |profile.secrets| :: profile.secrets[i].capability != profile.secrets[j].capability)
  }

  predicate ValidEvidence(r: Record) {
    var e := r.evidence;
    && (e.artifact.Some? ==> e.artifact.value.run == r.identity.id)
    && (e.approval.Some? ==>
          && e.artifact.Some? && e.approval.value.run == r.identity.id
          && e.approval.value.digest == e.artifact.value.digest)
    && (e.publication.Some? ==> e.artifact.Some?)
  }

  predicate Approved(e: Evidence) { e.approval.Some? && e.approval.value.approved }

  predicate ValidForStatus(r: Record) {
    var e := r.evidence;
    match r.status
    case AwaitingApproval => e.artifact.Some?
    case Publishing => e.artifact.Some? && (r.identity.mode.PullRequestMode? ==> Approved(e))
    case Succeeded =>
      && e.artifact.Some? && r.outcomeSaved
      && (r.identity.mode.PullRequestMode? ==> Approved(e) && e.publication.Some?)
    case Failed => r.failure.Some?
    case Canceled => r.failure.Some? && r.failure.value.class_.CanceledFailure? && !r.failure.value.retryable
    case Declined => e.approval.Some? && !e.approval.value.approved
    case _ => true
  }

  predicate ValidIdentity(i: Identity) {
    i.templateVersion > 0 && i.createdAt != UNSET
  }

  predicate Valid(r: Record) {
    && r.version != 0 && ValidIdentity(r.identity) && r.updatedAt != UNSET && r.identity.createdAt <= r.updatedAt
    && ValidStages(r.stages) && ValidEvidence(r) && ValidLease(r) && ValidProfile(r) && ValidForStatus(r)
    && (r.Terminal() && r.failure.Some? ==> !r.failure.value.retryable)
  }

  // Evidence only grows

  predicate WriteOnce<T(==)>(before: Option<T>, after: Option<T>) {
    before.Some? ==> before == after
  }

  /** A worker profile arrives only during the resolve attempt that is running on both sides. */
  predicate ProfileAttachment(current: Record, next: Record) {
    current.evidence.profile.None? && next.evidence.profile.Some? ==>
      var before, after := LatestStage(current.stages, RESOLVE), LatestStage(next.stages, RESOLVE);
      && current.status.Resolving? && before.Some? && after.Some?
      && before.value.status.Running? && after.value.status.Running?
      && before.value.attempts == after.value.attempts && before.value.startedAt == after.value.startedAt
  }

  predicate MonotonicGathered(a: Evidence, b: Evidence) {
    && (a.baseSHA != "" ==> b.baseSHA == a.baseSHA)
    && (a.profile.Some? ==> b.profile == a.profile && b.bindings == a.bindings)
    && (a.baseSHA != "" || a.memory.Some? ==> b.memory == a.memory)
    && WriteOnce(a.artifact, b.artifact) && WriteOnce(a.approval, b.approval) && WriteOnce(a.publication, b.publication)
  }

  predicate MonotonicEvidence(current: Record, next: Record) {
    && ProfileAttachment(current, next)
    && MonotonicGathered(current.evidence, next.evidence)
    && (current.outcomeSaved ==> next.outcomeSaved)
    && MonotonicFailure(current, next)
    && MonotonicStages(current.stages, next.stages)
  }

  // Failures are those of a latest stage

  /** The candidate is new above every earlier attempt, or the finished form of the latest running one. */
  predicate Progressed(current: seq<Stage>, next: seq<Stage>, candidate: Stage) {
    var existing := Lookup(current, candidate.name, candidate.attempts);
    var highest := Highest(current, candidate.name);
    if existing.None? then candidate.attempts > highest
    else
      && existing.value.attempts == highest && existing.value.status.Running?
      && !candidate.status.Running? && candidate.finishedAt != UNSET
      && candidate.startedAt == existing.value.startedAt
      && FirstAt(next, candidate) < |next| && next[FirstAt(next, candidate)] == candidate
  }

  predicate BoundToLatest(stages: seq<Stage>, f: Failure) {
    var latest := LatestStage(stages, f.stage);
    latest.Some? && latest.value.failure == Some(f)
  }

  predicate MonotonicFailure(current: Record, next: Record) {
    if current.failure == next.failure then true
    else if current.failure.None? then
      && BoundToLatest(next.stages, next.failure.value)
      && Progressed(current.stages, next.stages, LatestStage(next.stages, next.failure.value.stage).value)
    else
      var f := current.failure.value;
      && BoundToLatest(current.stages, f)
      && var before := LatestStage(current.stages, f.stage).value;
      if next.failure.Some? && RetryExhaustionFailure(f, next.failure.value) then
        var after := LatestStage(next.stages, next.failure.value.stage);
        && after.Some? && after.value.attempts == before.attempts
        && after.value.failure == next.failure && RetryExhaustion(before, after.value)
      else
        var name := if next.failure.Some? then next.failure.value.stage else f.stage;
        var after := LatestStage(next.stages, name);
        && after.Some? && (name == f.stage ==> after.value.attempts > before.attempts)
        && after.value.failure == next.failure && Progressed(current.stages, next.stages, after.value)
  }

  predicate TerminalFailureEvidence(current: Record, next: Record) {
    && next.failure.Some?
    && var f := next.failure.value;
    && var after := LatestStage(next.stages, f.stage);
    && after.Some? && after.value.status.StageFailed? && after.value.failure == Some(f)
    && var before := LatestStage(current.stages, f.stage);
    || (before.Some? && before.value.Finished() && before.value.failure.Some?
        && before.value.failure == current.failure == next.failure)
    || Progressed(current.stages, next.stages, after.value)
    || (before.Some? && RetryExhaustion(before.value, after.value))
  }

  // The artifact write lease

  predicate LeaseTransition(current: Record, next: Record) {
    match (current.lease, next.lease)
    case (None, None) => true
    case (None, Some(_)) => current.evidence.artifact.None? && next.evidence.artifact.None?
    case (Some(before), Some(after)) =>
      && before.attempt == after.attempt && before.startedAt == after.startedAt
      && before.reference == after.reference && before.deadline <= after.deadline
    case (Some(before), None) =>
      next.evidence.artifact.Some? ==> next.evidence.artifact.value == before.reference
  }

  // Terminal records

  function Named(stages: seq<Stage>, name: string): seq<Stage> {
    if stages == [] then []
    else
      var n := |stages| - 1;
      Named(stages[..n], name) + (if stages[n].name == name then [stages[n]] else [])
  }

  function NotNamed(stages: seq<Stage>, name: string): seq<Stage> {
    if stages == [] then []
    else
      var n := |stages| - 1;
      NotNamed(stages[..n], name) + (if stages[n].name != name then [stages[n]] else [])
  }

  predicate TerminalUpdate(current: Record, next: Record) {
    && current.status == next.status && current.evidence == next.evidence && current.failure == next.failure
    && (current.outcomeSaved ==> next.outcomeSaved)
    && NotNamed(current.stages, FINALIZE) == NotNamed(next.stages, FINALIZE)
    && var bookkeeping :=
         current.outcomeSaved != next.outcomeSaved || Named(current.stages, FINALIZE) != Named(next.stages, FINALIZE);
    if bookkeeping then
      !current.status.Succeeded? && current.updatedAt < next.updatedAt && MonotonicStages(current.stages, next.stages)
    else next.updatedAt == current.updatedAt
  }

  // Status edges

  predicate LegalEdge(from: Status, to: Status, record: Record) {
    if to.Failed? || to.Canceled? then !TerminalStatus(from)
    else
      match (from, to)
      case (Pending, Resolving) => true
      case (Resolving, Executing) => true
      case (Executing, AwaitingApproval) => true
      case (AwaitingApproval, Publishing) => true
      case (Publishing, Succeeded) => true
      case (AwaitingApproval, Declined) => true
      case (Executing, Succeeded) =>
        record.identity.mode.ArtifactMode? && exists s | s in record.stages :: s.name == FINALIZE && s.status.StageSucceeded?
      case _ => false
  }

  function Transition(r: Record, to: Status, now: int): Result<Record, Error> {
    if !Valid(r) then Err(InvalidRecord)
    else if r.Terminal() || now == UNSET || now < r.updatedAt then Err(InvalidTransition)
    else
      var moved := r.(status := to, updatedAt := now);
      if !LegalEdge(r.status, to, moved) then Err(InvalidTransition)
      else if !Valid(moved) then Err(InvalidRecord)
      else Ok(moved)
  }

  // Compensation

  const CALLER_CANCELED: Failure :=
    Failure(EXECUTE_CANCELLATION, CanceledFailure, false, "caller canceled", "caller_canceled")

  function CancellationStage(attempt: int, startedAt: int, now: int): Stage {
    Stage(EXECUTE_CANCELLATION, StageFailed, now, now, 1, CorrectedAttempt(attempt, startedAt), Some(CALLER_CANCELED))
  }

  function Compensated(r: Record, attempt: int, startedAt: int, now: int): Record {
    r.(status := Canceled, failure := Some(CALLER_CANCELED),
       stages := r.stages + [CancellationStage(attempt, startedAt, now)], updatedAt := now)
  }

  function CompensateExecuteCancellation(r: Record, attempt: int, startedAt: int, now: int): Result<Record, Error> {
    var latest := LatestStage(r.stages, EXECUTE);
    if !Valid(r) then Err(InvalidRecord)
    else if || !r.status.Failed? || r.failure.None? || r.failure.value.stage != EXECUTE
            || r.failure.value.class_.CanceledFailure? || r.failure.value.retryable
    then Err(InvalidTransition)
    else if || latest.None? || !latest.value.status.StageFailed? || latest.value.failure != r.failure
            || latest.value.attempts != attempt || latest.value.startedAt != startedAt
    then Err(InvalidTransition)
    else if now == UNSET || now <= r.updatedAt then Err(InvalidTransition)
    else if exists s | s in r.stages :: s.name == EXECUTE_CANCELLATION then Err(InvalidTransition)
    else if !Valid(Compensated(r, attempt, startedAt, now)) then Err(InvalidRecord)
    else Ok(Compensated(r, attempt, startedAt, now))
  }

  function CompensationError(current: Record, next: Record): Option<Error> {
    var latest := LatestStage(current.stages, EXECUTE);
    if latest.None? then Some(InvalidRecord)
    else
      match CompensateExecuteCancellation(current, latest.value.attempts, latest.value.startedAt, next.updatedAt)
      case Err(e) => Some(e)
      case Ok(expected) => if expected != next then Some(InvalidRecord) else None
  }

  // PrepareSave

  function Stored(current: Record, next: Record): Record {
    next.(version := (current.version + 1) % VERSIONS)
  }

  predicate UpdateAllowed(current: Record, next: Record) {
    if current.Terminal() then TerminalUpdate(current, next) else MonotonicEvidence(current, next)
  }

  function PrepareSave(current: Record, next: Record): Result<Record, Error> {
    if !Valid(current) then Err(InvalidRecord)
    else if next.version != current.version then Err(VersionConflict)
    else if next.identity != current.identity then Err(InvalidRecord)
    else if current.status.Failed? && next.status.Canceled? then
      var refused := CompensationError(current, next);
      if refused.Some? then Err(refused.value)
      else if !Valid(next) then Err(InvalidRecord)
      else Ok(Stored(current, next))
    else if !UpdateAllowed(current, next) then Err(InvalidRecord)
    else if current.status != next.status && (next.status.Failed? || next.status.Canceled?)
            && !TerminalFailureEvidence(current, next) then Err(InvalidRecord)
    else if next.updatedAt < current.updatedAt || !LeaseTransition(current, next) then Err(InvalidRecord)
    else if current.status != next.status && !LegalEdge(current.status, next.status, next) then Err(InvalidTransition)
    else if !Valid(next) then Err(InvalidRecord)
    else Ok(Stored(current, next))
  }

  function NewRecord(identity: Identity): Result<Record, Error> {
    var r := Record(identity, 1, Pending, Gathered("", None, None, None, None, None, None), None, false, [], None,
                    identity.createdAt);
    if ValidIdentity(identity) && Valid(r) then Ok(r) else Err(InvalidRecord)
  }

  /** The stored record `after` is the result of an accepted save onto `before`. */
  predicate Saves(before: Record, after: Record) {
    PrepareSave(before, after.(version := before.version)) == Ok(after)
  }

  lemma EverySaveSaves(current: Record, next: Record)
    requires PrepareSave(current, next).Ok?
    ensures Saves(current, PrepareSave(current, next).value)
  {
    hide Valid, CompensationError, UpdateAllowed, TerminalFailureEvidence, LeaseTransition, LegalEdge;
    assert Stored(current, next).(version := current.version) == next;
  }
}
