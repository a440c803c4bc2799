/**
 Durable run records.  Times are integers with 0 for the unset time; texts whose
 content the state machine never inspects stay opaque strings.
 */
module RunTypes {
  import opened Wrappers

  const UNSET: int := 0

  datatype Status =
    | Pending | Resolving | Executing | AwaitingApproval | Publishing
    | Succeeded | Failed | Canceled | Declined

  predicate TerminalStatus(s: Status) {
    s.Succeeded? || s.Failed? || s.Canceled? || s.Declined?
  }

  datatype FailureClass =
    | InputFailure | EnvironmentFailure | AgentFailure | VerificationFailure | PolicyFailure
    | ApprovalFailure | PublicationFailure | CleanupFailure | CanceledFailure | InternalFailure

  datatype Failure = Failure(stage: string, class_: FailureClass, retryable: bool, diagnostic: string, causeCode: string)

  datatype StageStatus = Running | StageSucceeded | Skipped | Warning | StageFailed

  /** Evidence of an execute cancellation names the attempt it corrects. */
  datatype StageEvidence = NoEvidence | Evidence(text: string) | CorrectedAttempt(attempt: int, startedAt: int)

  datatype Stage = Stage(
    name: string,
    status: StageStatus,
    startedAt: int,
    finishedAt: int,
    attempts: int,
    evidence: StageEvidence,
    failure: Option<Failure>)
  {
    predicate Finished() {
      !status.Running? && finishedAt != UNSET
    }

    predicate Valid() {
      && attempts > 0 && startedAt != UNSET
      && (status.Running? <==> finishedAt == UNSET)
      && (finishedAt != UNSET ==> startedAt <= finishedAt)
    }
  }

  datatype Reference = Reference(run: string, digest: string, size: int)

  datatype WriteLease = WriteLease(attempt: int, startedAt: int, deadline: int, reference: Reference)

  datatype Approval = Approval(run: string, digest: string, approved: bool, actor: string)

  datatype Publication = Publication(url: string)

  datatype Secret = Secret(capability: string, revision: string)

  datatype Profile = Profile(id: string, secrets: seq<Secret>)

  datatype Mode = ArtifactMode | PullRequestMode

  /** The canonical input and the worker profile it asks for, if any. */
  datatype Input = Input(text: string, profile: Option<string>)

  datatype Identity = Identity(
    id: string,
    templateName: string,
    templateVersion: int,
    key: string,
    inputHash: string,
    input: Input,
    mode: Mode,
    repository: string,
    baseRef: string,
    createdAt: int)

  /** What a run gathers on its way; each item is written once. */
  datatype Evidence = Gathered(
    baseSHA: string,
    profile: Option<Profile>,
    bindings: Option<seq<Secret>>,
    memory: Option<seq<string>>,
    artifact: Option<Reference>,
    approval: Option<Approval>,
    publication: Option<Publication>)

  datatype Record = Record(
    identity: Identity,
    version: nat,
    status: Status,
    evidence: Evidence,
    lease: Option<WriteLease>,
    outcomeSaved: bool,
    stages: seq<Stage>,
    failure: Option<Failure>,
    updatedAt: int)
  {
    predicate Terminal() { TerminalStatus(status) }
  }

  datatype Error = InvalidRecord | InvalidTransition | VersionConflict
}
