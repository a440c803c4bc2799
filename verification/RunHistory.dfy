/**
 What holds along every history of accepted saves, from the new record on.
 */
module RunHistory {
  import opened Wrappers
  import opened RunTypes
  import opened RunStages
  import opened RunState

  ghost predicate History(h: seq<Record>) {
    && |h| > 0 && NewRecord(h[0].identity) == Ok(h[0])
    && forall i | 0 <= i < |h| - 1 :: Saves(h[i], h[i + 1])
  }

  /** Valid whatever the version counter says. */
  predicate Sound(r: Record) {
    Valid(r.(version := 1))
  }

  // One save

  predicate IsCompensation(a: Record, b: Record) {
    var latest := LatestStage(a.stages, EXECUTE);
    && a.status.Failed? && latest.Some? && a.updatedAt < b.updatedAt
    && (forall s | s in a.stages :: s.name != EXECUTE_CANCELLATION)
    && b == Compensated(a, latest.value.attempts, latest.value.startedAt, b.updatedAt).(version := b.version)
  }

  predicate IsUpdate(a: Record, b: Record) {
    && UpdateAllowed(a, b)
    && (a.status != b.status ==> LegalEdge(a.status, b.status, b))
    && (a.status != b.status && (b.status.Failed? || b.status.Canceled?) ==> TerminalFailureEvidence(a, b))
    && a.updatedAt <= b.updatedAt && LeaseTransition(a, b)
  }

  lemma SaveCases(a: Record, b: Record)
    requires Saves(a, b)
    ensures Sound(a) && Sound(b) && b.identity == a.identity && a.version != 0
    ensures b.version == (a.version + 1) % VERSIONS
    ensures IsCompensation(a, b) || IsUpdate(a, b)
  {
    hide ValidStages, ValidEvidence, ValidLease, ValidProfile, ValidForStatus, LatestStage;
    VersionIrrelevant(a, 1);
    VersionIrrelevant(b.(version := a.version), 1);
    UpdateIgnoresVersion(a, b, a.version);
  }

  lemma VersionIrrelevant(r: Record, v: nat)
    requires Valid(r) && v != 0
    ensures Valid(r.(version := v))
  {
    hide ValidStages, LatestStage;
  }

  lemma UpdateIgnoresVersion(a: Record, b: Record, v: nat)
    ensures var c := b.(version := v);
            && (UpdateAllowed(a, b) <==> UpdateAllowed(a, c))
            && (LegalEdge(a.status, b.status, b) <==> LegalEdge(a.status, b.status, c))
            && (TerminalFailureEvidence(a, b) <==> TerminalFailureEvidence(a, c))
            && (LeaseTransition(a, b) <==> LeaseTransition(a, c))
  {
    hide MonotonicStages, LatestStage, Progressed, Named, NotNamed, MonotonicGathered;
  }

  lemma {:induction false} HistorySound(h: seq<Record>, i: nat)
    requires History(h) && i < |h|
    ensures Sound(h[i]) && h[i].identity == h[0].identity
  {
    if i > 0 {
      hide Saves, Sound;
      SaveCases(h[i - 1], h[i]);
      HistorySound(h, i - 1);
    }
  }

  // Status walk

  function Rank(s: Status): nat {
    match s
    case Pending => 0
    case Resolving => 1
    case Executing => 2
    case AwaitingApproval => 3
    case Publishing => 4
    case Succeeded => 5
    case Declined => 5
    case Failed => 5
    case Canceled => 6
  }

  lemma StatusRises(a: Record, b: Record)
    requires Saves(a, b)
    ensures a.status == b.status || Rank(a.status) < Rank(b.status)
    ensures a.Terminal() && a.status != b.status ==> a.status.Failed? && b.status.Canceled? && IsCompensation(a, b)
  {
    hide Sound, MonotonicEvidence, TerminalFailureEvidence, LeaseTransition, LatestStage, Saves;
    SaveCases(a, b);
  }

  function StatusChanges(h: seq<Record>): nat {
    if |h| < 2 then 0
    else StatusChanges(h[..|h| - 1]) + (if h[|h| - 2].status != h[|h| - 1].status then 1 else 0)
  }

  /** A run changes status at most six times, however often it is saved. */
  lemma {:induction false} FewStatusChanges(h: seq<Record>)
    requires History(h)
    ensures StatusChanges(h) <= Rank(h[|h| - 1].status) <= 6
  {
    hide Saves;
    if |h| >= 2 {
      FewStatusChanges(h[..|h| - 1]);
      StatusRises(h[|h| - 2], h[|h| - 1]);
    }
  }

  lemma {:induction false} StatusNeverFalls(h: seq<Record>, i: nat, j: nat)
    requires History(h) && i <= j < |h|
    ensures Rank(h[i].status) <= Rank(h[j].status)
    decreases j
  {
    hide Saves;
    if i < j {
      StatusNeverFalls(h, i, j - 1);
      StatusRises(h[j - 1], h[j]);
    }
  }

  /** A terminal status stays, except that a failed run may once become canceled, and then stays canceled. */
  lemma {:induction false} TerminalStays(h: seq<Record>, i: nat, j: nat)
    requires History(h) && i <= j < |h| && h[i].Terminal()
    ensures h[j].status == h[i].status || (h[i].status.Failed? && h[j].status.Canceled?)
    decreases j
  {
    hide Saves;
    if i < j {
      TerminalStays(h, i, j - 1);
      StatusRises(h[j - 1], h[j]);
    }
  }

  // Evidence is written once

  lemma SaveGathers(a: Record, b: Record)
    requires Saves(a, b)
    ensures MonotonicGathered(a.evidence, b.evidence) && (a.outcomeSaved ==> b.outcomeSaved)
    ensures a.updatedAt <= b.updatedAt
  {
    hide Sound, MonotonicStages, MonotonicFailure, TerminalFailureEvidence, LeaseTransition, LatestStage, Saves, LegalEdge,
         Named, NotNamed;
    SaveCases(a, b);
  }

  /** Every item once recorded is the same later; the memory is fixed with the base at the latest. */
  predicate Keeps(a: Evidence, b: Evidence) {
    && (a.baseSHA != "" ==> b.baseSHA == a.baseSHA && b.memory == a.memory)
    && (a.memory.Some? ==> b.memory == a.memory)
    && (a.profile.Some? ==> b.profile == a.profile && b.bindings == a.bindings)
    && (a.artifact.Some? ==> b.artifact == a.artifact)
    && (a.approval.Some? ==> b.approval == a.approval)
    && (a.publication.Some? ==> b.publication == a.publication)
  }

  /** Whatever a run has recorded of its base, profile, bindings, memory, artifact, approval or publication stays. */
  lemma {:induction false} EvidenceIsWrittenOnce(h: seq<Record>, i: nat, j: nat)
    requires History(h) && i <= j < |h|
    ensures Keeps(h[i].evidence, h[j].evidence)
    ensures h[i].outcomeSaved ==> h[j].outcomeSaved
    ensures h[i].updatedAt <= h[j].updatedAt && h[i].identity == h[j].identity
    decreases j
  {
    hide Saves, Sound;
    HistorySound(h, i);
    HistorySound(h, j);
    if i < j {
      EvidenceIsWrittenOnce(h, i, j - 1);
      SaveGathers(h[j - 1], h[j]);
    }
  }

  /** Versions count the saves, and the counter never wraps within one history. */
  lemma {:induction false} VersionsCount(h: seq<Record>, i: nat)
    requires History(h) && i < |h|
    ensures h[i].version == (i + 1) % VERSIONS && i < VERSIONS
  {
    hide Sound, IsUpdate, IsCompensation, Saves;
    if i > 0 {
      VersionsCount(h, i - 1);
      SaveCases(h[i - 1], h[i]);
    }
  }

  // Approval

  /** A successful pull-request run was publishing before, with the same artifact and an approval of that artifact. */
  lemma {:induction false} SuccessWasApproved(h: seq<Record>, k: nat)
    requires History(h) && k < |h| && h[k].status.Succeeded? && h[k].identity.mode.PullRequestMode?
    ensures exists j ::
              && 0 <= j < k && h[j].status.Publishing?
              && h[j].evidence.artifact == h[k].evidence.artifact && h[j].evidence.artifact.Some?
              && h[j].evidence.approval == h[k].evidence.approval && Approved(h[j].evidence)
              && h[j].evidence.approval.value.run == h[0].identity.id
              && h[j].evidence.approval.value.digest == h[k].evidence.artifact.value.digest
    ensures h[k].evidence.publication.Some?
  {
    hide Saves, LatestStage, ValidStages, ValidLease, ValidProfile, MonotonicEvidence, LeaseTransition, TerminalFailureEvidence,
         Named, NotNamed;
    HistorySound(h, k);
    HistorySound(h, 0);
    if k > 0 {
      SaveCases(h[k - 1], h[k]);
      EvidenceIsWrittenOnce(h, k - 1, k);
      if h[k - 1].status.Succeeded? {
        SuccessWasApproved(h, k - 1);
      } else {
        assert h[k - 1].status.Publishing?;
      }
    }
  }

  /** Once an approval was declined, a pull-request run neither publishes nor succeeds. */
  lemma DeclinedNeverPublishes(h: seq<Record>, i: nat, j: nat)
    requires History(h) && i <= j < |h| && h[i].identity.mode.PullRequestMode?
    requires h[i].evidence.approval.Some? && !h[i].evidence.approval.value.approved
    ensures !h[j].status.Publishing? && !h[j].status.Succeeded?
  {
    hide History, ValidStages, ValidLease, ValidProfile;
    EvidenceIsWrittenOnce(h, i, j);
    HistorySound(h, j);
  }
}
