/**
 After a run has ended: what finalization may still write down, that success is
 final to the last field, and the one correction there is.
 */
module RunEndings {
  import opened Wrappers
  import opened RunTypes
  import opened RunStages
  import opened RunState
  import opened RunHistory
  import opened RunStageHistory
  import opened RunEdges

  ghost predicate SameEntries(a: seq<Stage>, b: seq<Stage>) {
    forall name, attempts :: Lookup(a, name, attempts) == Lookup(b, name, attempts)
  }

  ghost predicate SameBesideFinalize(a: seq<Stage>, b: seq<Stage>) {
    forall name, attempts | name != FINALIZE :: Lookup(a, name, attempts) == Lookup(b, name, attempts)
  }

  lemma FiltersDecide(a: seq<Stage>, b: seq<Stage>)
    requires NotNamed(a, FINALIZE) == NotNamed(b, FINALIZE)
    ensures SameBesideFinalize(a, b)
    ensures Named(a, FINALIZE) == Named(b, FINALIZE) ==> SameEntries(a, b)
  {
    hide Lookup, Named, NotNamed;
    forall name, attempts
      ensures name != FINALIZE || Named(a, FINALIZE) == Named(b, FINALIZE) ==> Lookup(a, name, attempts) == Lookup(b, name, attempts)
    {
      LookupFilter(a, FINALIZE, name, attempts);
      LookupFilter(b, FINALIZE, name, attempts);
    }
  }

  /**
   A save of an ended run keeps its status, evidence, failure and every entry but
   finalization's.  A success keeps everything.  Otherwise the time moves on exactly when
   something was written down.
   */
  lemma EndedSave(a: Record, b: Record)
    requires Saves(a, b) && a.status !in OPEN && a.status == b.status
    ensures b.evidence == a.evidence && b.failure == a.failure && b.lease.None? && SameBesideFinalize(a.stages, b.stages)
    ensures a.outcomeSaved ==> b.outcomeSaved
    ensures a.status.Succeeded? ==> b.outcomeSaved == a.outcomeSaved && b.updatedAt == a.updatedAt && SameEntries(a.stages, b.stages)
    ensures b.updatedAt == a.updatedAt ==> b.outcomeSaved == a.outcomeSaved && SameEntries(a.stages, b.stages)
    ensures b.outcomeSaved != a.outcomeSaved ==> a.updatedAt < b.updatedAt
  {
    hide Saves, LatestStage, Lookup, Named, NotNamed, MonotonicStages, MonotonicEvidence, LegalEdge, TerminalFailureEvidence,
         ValidEvidence, ValidProfile, ValidForStatus, ValidStages, SameEntries, SameBesideFinalize;
    SaveCases(a, b);
    FiltersDecide(a.stages, b.stages);
  }

  /** A successful run never changes again, but for the order its stages are listed in. */
  lemma {:induction false} SuccessIsFinal(h: seq<Record>, i: nat, j: nat)
    requires History(h) && i <= j < |h| && h[i].status.Succeeded?
    ensures h[j].status.Succeeded? && h[j].evidence == h[i].evidence && h[j].failure == h[i].failure
    ensures h[j].outcomeSaved == h[i].outcomeSaved && h[j].updatedAt == h[i].updatedAt && SameEntries(h[i].stages, h[j].stages)
    decreases j
  {
    hide Saves, Lookup;
    if i < j {
      SuccessIsFinal(h, i, j - 1);
      TerminalStays(h, i, j);
      EndedSave(h[j - 1], h[j]);
    }
  }

  // The one correction

  /** A failed execution, shown by its latest attempt, that was not itself a cancellation and not corrected before. */
  predicate Correctable(a: Record, now: int) {
    && a.status.Failed? && a.failure.Some? && a.failure.value.stage == EXECUTE
    && !a.failure.value.class_.CanceledFailure? && !a.failure.value.retryable
    && var latest := LatestStage(a.stages, EXECUTE);
    && latest.Some? && latest.value.status.StageFailed? && latest.value.failure == a.failure
    && a.updatedAt < now && now != UNSET
    && forall s | s in a.stages :: s.name != EXECUTE_CANCELLATION
  }

  /** The corrected record: one stage more, which names the attempt it corrects. */
  predicate Corrects(a: Record, b: Record) {
    var latest := LatestStage(a.stages, EXECUTE);
    && latest.Some? && |b.stages| == |a.stages| + 1 && a.stages <= b.stages
    && var s := b.stages[|a.stages|];
    && s.name == EXECUTE_CANCELLATION && s.status.StageFailed? && s.attempts == 1
    && s.startedAt == s.finishedAt == b.updatedAt
    && s.evidence == CorrectedAttempt(latest.value.attempts, latest.value.startedAt)
    && s.failure == b.failure == Some(Failure(EXECUTE_CANCELLATION, CanceledFailure, false, "caller canceled", "caller_canceled"))
    && b.status.Canceled? && b.evidence == a.evidence && b.identity == a.identity && b.lease == a.lease
    && b.outcomeSaved == a.outcomeSaved && b.version == a.version
  }

  lemma CorrectedIsValid(a: Record, now: int)
    requires Valid(a) && Correctable(a, now)
    ensures var latest := LatestStage(a.stages, EXECUTE).value; Valid(Compensated(a, latest.attempts, latest.startedAt, now))
  {
    hide LatestStage;
    var latest := LatestStage(a.stages, EXECUTE).value;
    var b := Compensated(a, latest.attempts, latest.startedAt, now);
    assert forall s | s in b.stages :: s in a.stages || s == CancellationStage(latest.attempts, latest.startedAt, now);
    NamesDiffer();
  }

  lemma NamesDiffer()
    ensures EXECUTE_CANCELLATION != RESOLVE
  {
    assert EXECUTE_CANCELLATION[0] == 'e' && RESOLVE[0] == 'r';
  }

  /** From a valid record the save accepts a cancellation of a failed run exactly when it is correctable and corrected so. */
  lemma CorrectionIff(a: Record, b: Record)
    requires Valid(a) && a.status.Failed? && b.status.Canceled?
    ensures PrepareSave(a, b).Ok? <==> Correctable(a, b.updatedAt) && Corrects(a, b)
  {
    hide Valid, LatestStage, UpdateAllowed, LegalEdge, LeaseTransition, TerminalFailureEvidence;
    if Correctable(a, b.updatedAt) && Corrects(a, b) {
      var latest := LatestStage(a.stages, EXECUTE).value;
      CorrectedIsValid(a, b.updatedAt);
      var c := Compensated(a, latest.attempts, latest.startedAt, b.updatedAt);
      assert b.stages == c.stages;
      assert b == c;
    }
  }
}
