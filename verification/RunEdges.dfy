/**
 The walk of a run through its statuses: the edges there are, no others, and what
 each status has behind it.
 */
module RunEdges {
  import opened Wrappers
  import opened RunTypes
  import opened RunStages
  import opened RunState
  import opened RunHistory

  const FORWARD: set<(Status, Status)> := {
    (Pending, Resolving), (Resolving, Executing), (Executing, AwaitingApproval), (AwaitingApproval, Publishing),
    (AwaitingApproval, Declined), (Publishing, Succeeded), (Executing, Succeeded)
  }

  const OPEN: set<Status> := {Pending, Resolving, Executing, AwaitingApproval, Publishing}

  predicate FinalizedArtifact(r: Record) {
    r.identity.mode.ArtifactMode? && exists s | s in r.stages :: s.name == FINALIZE && s.status.StageSucceeded?
  }

  /** A listed step, the short one only for a finalized artifact run; or an end by failure or cancellation. */
  predicate Edge(from: Status, to: Status, r: Record) {
    || ((from, to) in FORWARD && (from.Executing? && to.Succeeded? ==> FinalizedArtifact(r)))
    || (from in OPEN && to in {Failed, Canceled})
  }

  lemma EdgeIff(from: Status, to: Status, r: Record)
    ensures LegalEdge(from, to, r) <==> Edge(from, to, r)
  {
  }

  /** A save that changes the status takes a listed edge, or corrects a failed execution to canceled. */
  lemma SavesTakeEdges(a: Record, b: Record)
    requires Saves(a, b) && a.status != b.status
    ensures Edge(a.status, b.status, b) || (a.status.Failed? && b.status.Canceled? && IsCompensation(a, b))
  {
    hide Saves, Sound, Edge, UpdateAllowed, LeaseTransition, TerminalFailureEvidence, LatestStage;
    SaveCases(a, b);
    EdgeIff(a.status, b.status, b);
  }

  /** A transition succeeds exactly from a valid open record, in time, along a listed edge, to a valid record. */
  lemma TransitionOkIff(r: Record, to: Status, now: int)
    ensures var moved := r.(status := to, updatedAt := now);
            Transition(r, to, now).Ok? <==>
            && Valid(r) && r.status in OPEN && now != UNSET && r.updatedAt <= now
            && Edge(r.status, to, moved) && Valid(moved)
    ensures Transition(r, to, now).Ok? ==> Transition(r, to, now).value == r.(status := to, updatedAt := now)
  {
    hide Valid, LegalEdge, Edge;
    EdgeIff(r.status, to, r.(status := to, updatedAt := now));
  }

  /** The status each status but the first and the ends comes from. */
  predicate ComesFrom(s: Status, before: Status) {
    || (s.Resolving? && before.Pending?) || (s.Executing? && before.Resolving?)
    || (s.AwaitingApproval? && before.Executing?) || (s.Publishing? && before.AwaitingApproval?)
    || (s.Declined? && before.AwaitingApproval?)
  }

  /** Nothing is skipped: every step up to publication or refusal has the one before it behind it. */
  lemma {:induction false} NothingIsSkipped(h: seq<Record>, i: nat)
    requires History(h) && i < |h|
    requires h[i].status in {Resolving, Executing, AwaitingApproval, Publishing, Declined}
    ensures exists j :: 0 <= j < i && ComesFrom(h[i].status, h[j].status)
  {
    hide Saves;
    if i > 0 {
      if h[i - 1].status == h[i].status {
        NothingIsSkipped(h, i - 1);
      } else {
        SavesTakeEdges(h[i - 1], h[i]);
      }
    } else {
      NewIsPending(h[0]);
    }
  }

  lemma NewIsPending(r: Record)
    requires NewRecord(r.identity) == Ok(r)
    ensures r.status.Pending? && r.version == 1 && r.stages == [] && r.failure.None? && r.lease.None? && !r.outcomeSaved
    ensures r.updatedAt == r.identity.createdAt != UNSET
    ensures r.evidence == Gathered("", None, None, None, None, None, None)
  {
  }

  /** Success comes from publishing, or in artifact mode straight from executing with finalization done. */
  lemma {:induction false} SuccessComesFrom(h: seq<Record>, i: nat)
    requires History(h) && i < |h| && h[i].status.Succeeded?
    ensures exists j :: 0 <= j < i &&
              (h[j].status.Publishing? || (h[j].status.Executing? && FinalizedArtifact(h[j + 1])))
  {
    hide Saves;
    if i > 0 {
      if h[i - 1].status.Succeeded? {
        SuccessComesFrom(h, i - 1);
      } else {
        SavesTakeEdges(h[i - 1], h[i]);
        assert h[i - 1].status.Publishing? || (h[i - 1].status.Executing? && FinalizedArtifact(h[i - 1 + 1]));
      }
    } else {
      NewIsPending(h[0]);
    }
  }

  // What a status means

  /** The evidence is the run's own, approval and publication are of its artifact. */
  predicate EvidenceBound(r: Record) {
    && (r.evidence.artifact.Some? ==> r.evidence.artifact.value.run == r.identity.id)
    && (r.evidence.approval.Some? ==>
          && r.evidence.artifact.Some? && r.evidence.approval.value.run == r.identity.id
          && r.evidence.approval.value.digest == r.evidence.artifact.value.digest)
    && (r.evidence.publication.Some? ==> r.evidence.artifact.Some?)
  }

  predicate StatusMeans(r: Record) {
    && (r.status in {AwaitingApproval, Publishing, Succeeded, Declined} ==> r.evidence.artifact.Some?)
    && (r.status in {Publishing, Succeeded} && r.identity.mode.PullRequestMode? ==>
          r.evidence.approval.Some? && r.evidence.approval.value.approved)
    && (r.status.Succeeded? ==> r.outcomeSaved && (r.identity.mode.PullRequestMode? ==> r.evidence.publication.Some?))
    && (r.status.Declined? ==> r.evidence.approval.Some? && !r.evidence.approval.value.approved)
    && (r.status in {Failed, Canceled} ==> r.failure.Some?)
    && (r.status.Canceled? ==> r.failure.value.class_.CanceledFailure?)
    && (r.status !in OPEN && r.failure.Some? ==> !r.failure.value.retryable)
  }

  /** A run whose input names a worker profile has it resolved, secrets bound, from execution on. */
  predicate ProfileBound(r: Record) {
    && (r.evidence.profile.Some? ==>
          && r.identity.input.profile == Some(r.evidence.profile.value.id) && !r.status.Pending?
          && r.evidence.profile.value.secrets == (if r.evidence.bindings.Some? then r.evidence.bindings.value else [])
          && forall i, j | 0 <= i < j < |r.evidence.profile.value.secrets| ::
               r.evidence.profile.value.secrets[i].capability != r.evidence.profile.value.secrets[j].capability)
    && (r.evidence.profile.None? ==> r.evidence.bindings.None?)
    && (r.identity.input.profile.Some? ==>
          (r.status in {Executing, AwaitingApproval, Publishing, Succeeded, Declined} || r.evidence.baseSHA != ""
           || exists s | s in r.stages :: s.name == RESOLVE && s.status.StageSucceeded?) ==> r.evidence.profile.Some?)
  }

  /** Stages start before they finish, run until they do, and count their attempts up by name. */
  predicate StagesTimed(r: Record) {
    && (forall s | s in r.stages ::
          && s.attempts > 0 && s.startedAt != UNSET && (s.status.Running? <==> s.finishedAt == UNSET)
          && (!s.status.Running? ==> s.startedAt <= s.finishedAt))
    && (forall i, j | 0 <= i < j < |r.stages| && r.stages[i].name == r.stages[j].name ::
          r.stages[i].attempts < r.stages[j].attempts)
    && r.identity.createdAt != UNSET && r.updatedAt != UNSET && r.identity.createdAt <= r.updatedAt
  }

  /** Every record of every history keeps these bindings. */
  lemma RecordsAreBound(h: seq<Record>, i: nat)
    requires History(h) && i < |h|
    ensures EvidenceBound(h[i]) && StatusMeans(h[i]) && ProfileBound(h[i]) && StagesTimed(h[i])
  {
    hide History, ValidStages, ValidLease, StagesTimed;
    HistorySound(h, i);
    ValidIsTimed(h[i]);
  }

  lemma ValidIsTimed(r: Record)
    requires ValidStages(r.stages) && ValidIdentity(r.identity) && r.updatedAt != UNSET && r.identity.createdAt <= r.updatedAt
    ensures StagesTimed(r)
  {
  }

  /** A worker profile arrives only while its run is resolving, within one running resolve attempt. */
  lemma ProfileArrives(h: seq<Record>, i: nat)
    requires History(h) && i + 1 < |h| && h[i].evidence.profile.None? && h[i + 1].evidence.profile.Some?
    ensures h[i].status.Resolving?
    ensures var before, after := LatestStage(h[i].stages, RESOLVE), LatestStage(h[i + 1].stages, RESOLVE);
            && before.Some? && after.Some? && before.value.status.Running? && after.value.status.Running?
            && before.value.attempts == after.value.attempts && before.value.startedAt == after.value.startedAt
  {
    hide Saves, LatestStage, MonotonicStages, MonotonicFailure, LegalEdge, LeaseTransition, TerminalFailureEvidence, Sound, Named, NotNamed;
    SaveCases(h[i], h[i + 1]);
  }
}
