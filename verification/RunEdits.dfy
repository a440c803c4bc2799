/**
 The edits callers make before a save, and exactly when the save accepts them.
 */
module RunEdits {
  import opened Wrappers
  import opened RunTypes
  import opened RunStages
  import opened RunState
  import opened RunStageHistory

  // UpsertStage

  lemma UpsertKeepsValid(stages: seq<Stage>, r: Stage)
    requires ValidStages(stages) && Upsert(stages, r).Some?
    ensures ValidStages(Upsert(stages, r).value)
  {
    hide Highest;
    var out, i := Upsert(stages, r).value, FirstAt(stages, r);
    forall s | s in out ensures s.Valid() {
      assert s in stages || s == r;
    }
    forall j, k | 0 <= j < k < |out| && out[j].name == out[k].name ensures out[j].attempts < out[k].attempts {
      assert j < |stages| ==> stages[j] in stages;
      assert k < |stages| ==> stages[k] in stages;
    }
  }

  /**
   A result is written exactly when it is complete, no attempt of its stage is above it,
   and it does not reopen a finished one.
   */
  lemma UpsertOkIff(stages: seq<Stage>, r: Stage)
    requires ValidStages(stages)
    ensures Upsert(stages, r).Some? <==>
            && r.attempts > 0 && r.startedAt != UNSET && (r.status.Running? <==> r.finishedAt == UNSET)
            && (r.finishedAt != UNSET ==> r.startedAt <= r.finishedAt)
            && (forall s | s in stages && s.name == r.name :: s.attempts <= r.attempts)
            && (forall s | s in stages && s.name == r.name && s.attempts == r.attempts :: s.finishedAt != UNSET ==> !r.status.Running?)
  {
    hide Highest;
    var i := FirstAt(stages, r);
    if i < |stages| {
      assert stages[i] in stages;
      assert forall k | 0 <= k < |stages| && SameKey(stages[k], r) :: k == i;
    }
  }

  /** Exactly the entry under the result's key is written. */
  lemma UpsertWrites(stages: seq<Stage>, r: Stage, name: string, attempts: int)
    requires ValidStages(stages) && Upsert(stages, r).Some?
    ensures Lookup(Upsert(stages, r).value, name, attempts) ==
            (if name == r.name && attempts == r.attempts then Some(r) else Lookup(stages, name, attempts))
  {
    hide Highest, Lookup;
    var out, i := Upsert(stages, r).value, FirstAt(stages, r);
    UpsertKeepsValid(stages, r);
    if name == r.name && attempts == r.attempts {
      assert out[i] == r;
      LookupIs(out, r);
    } else {
      var x := Lookup(stages, name, attempts);
      if x.Some? {
        var k :| 0 <= k < |stages| && stages[k] == x.value;
        assert out[k] == x.value;
        LookupIs(out, x.value);
      } else {
        assert forall y | y in out :: y in stages || y == r;
      }
    }
  }

  /**
   A save keeps an upserted list exactly when the entry is new, when it was still
   running from the same start, or when its retries ran out.
   */
  lemma UpsertIsMonotonicIff(stages: seq<Stage>, r: Stage)
    requires ValidStages(stages) && Upsert(stages, r).Some?
    ensures var x := Lookup(stages, r.name, r.attempts);
            MonotonicStages(stages, Upsert(stages, r).value) <==> (x.Some? ==> Evolved(x.value, r))
  {
    hide Lookup, Highest, RetryExhaustion, ValidStages;
    var out, x := Upsert(stages, r).value, Lookup(stages, r.name, r.attempts);
    UpsertWrites(stages, r, r.name, r.attempts);
    forall s | s in out ensures NotInserted(stages, s) {
      assert s in stages || s == r;
    }
    forall s | s in stages && !SameKey(s, r) ensures KeptBy(stages, s, out) {
      UpsertWrites(stages, r, s.name, s.attempts);
      assert Increasing(stages) by { ListIncreasing(stages); }
      LookupIs(stages, s);
    }
    if x.Some? {
      assert x.value.attempts == Highest(stages, r.name);
      forall s | s in stages && SameKey(s, r) ensures s == x.value {
        assert Increasing(stages) by { ListIncreasing(stages); }
        LookupIs(stages, s);
      }
      assert KeptBy(stages, x.value, out) <==> Evolved(x.value, r);
    }
  }

  lemma ListIncreasing(stages: seq<Stage>)
    requires ValidStages(stages)
    ensures Increasing(stages)
  {
  }

  // Transition

  lemma {:induction false} SameStagesMonotonic(stages: seq<Stage>)
    requires ValidStages(stages)
    ensures MonotonicStages(stages, stages)
  {
    hide Lookup, Highest;
    forall s | s in stages ensures NotInserted(stages, s) && KeptBy(stages, s, stages) {
      LookupIs(stages, s);
    }
  }

  /** A transition's result is accepted by the save, except that failing or canceling needs its failed stage on record. */
  lemma TransitionIsSavedIff(r: Record, to: Status, now: int)
    requires Transition(r, to, now).Ok? && to != r.status
    ensures PrepareSave(r, Transition(r, to, now).value).Ok? <==>
            ((to.Failed? || to.Canceled?) ==>
               && r.failure.Some?
               && var latest := LatestStage(r.stages, r.failure.value.stage);
               && latest.Some? && latest.value.status.StageFailed? && latest.value.failure == r.failure)
  {
    hide MonotonicStages, LatestStage, LegalEdge, ValidLease, ValidProfile, ValidForStatus, Progressed, ProfileAttachment,
         ValidEvidence;
    var next := Transition(r, to, now).value;
    SameStagesMonotonic(r.stages);
    SameProfileAttached(r, next);
    if r.failure.Some? && LatestStage(r.stages, r.failure.value.stage).Some? {
      LatestIsMember(r.stages, r.failure.value.stage);
    }
  }

  lemma SameProfileAttached(r: Record, next: Record)
    requires r.evidence == next.evidence
    ensures ProfileAttachment(r, next)
  {
  }

  // Running out of retries

  function OutOfRetries(f: Failure): Failure {
    Failure(f.stage, f.class_, false, f.diagnostic, "retries_exhausted")
  }

  lemma ExhaustedStage(stages: seq<Stage>, s: Stage, f: Failure)
    requires ValidStages(stages) && LatestStage(stages, s.name) == Some(s) && s.status.StageFailed? && s.failure == Some(f) && f.retryable
    ensures var r := s.(failure := Some(OutOfRetries(f)));
            && Upsert(stages, r).Some? && ValidStages(Upsert(stages, r).value)
            && MonotonicStages(stages, Upsert(stages, r).value) && LatestStage(Upsert(stages, r).value, s.name) == Some(r)
            && (forall x | x in Upsert(stages, r).value && x.status.StageSucceeded? :: x in stages)
  {
    hide Lookup, LatestStage, Highest, MonotonicStages;
    var r := s.(failure := Some(OutOfRetries(f)));
    LatestIsHighest(stages, s.name);
    assert s in stages && s.Valid() && s.attempts == Highest(stages, s.name);
    var i := FirstAt(stages, r);
    var k :| 0 <= k < |stages| && stages[k] == s;
    assert i == k;
    UpsertKeepsValid(stages, r);
    UpsertIsMonotonicIff(stages, r);
    UpsertWrites(stages, r, s.name, s.attempts);
    var out := Upsert(stages, r).value;
    assert forall x | x in out :: x in stages || x == r;
    assert out[i] == r && r in out;
    LatestIsHighest(out, s.name);
    assert Highest(out, s.name) == s.attempts;
  }

  /** A run whose latest attempt failed and could be retried may be ended: the attempt and the run both say retries ran out. */
  lemma ExhaustionIsSaved(a: Record, s: Stage, f: Failure, now: int)
    requires Valid(a) && !a.Terminal() && a.updatedAt <= now && now != UNSET
    requires a.failure == s.failure == Some(f) && f.retryable && f.stage == s.name
    requires LatestStage(a.stages, s.name) == Some(s) && s.status.StageFailed?
    ensures Upsert(a.stages, s.(failure := Some(OutOfRetries(f)))).Some?
    ensures var b := a.(status := Failed, failure := Some(OutOfRetries(f)), lease := None, updatedAt := now,
                        stages := Upsert(a.stages, s.(failure := Some(OutOfRetries(f)))).value);
            PrepareSave(a, b).Ok?
  {
    hide LatestStage, Upsert, MonotonicStages, ValidStages, Progressed, ProfileAttachment;
    ExhaustedStage(a.stages, s, f);
    var b := a.(status := Failed, failure := Some(OutOfRetries(f)), lease := None, updatedAt := now,
                stages := Upsert(a.stages, s.(failure := Some(OutOfRetries(f)))).value);
    SameProfileAttached(a, b);
    LatestIsMember(a.stages, s.name);
  }

  // Compensation

  /** From a failed run the save accepts as canceled exactly the records the compensation constructs. */
  lemma CompensationIsTheOnlyCorrection(current: Record, next: Record)
    requires Valid(current) && current.status.Failed? && next.status.Canceled?
    ensures PrepareSave(current, next).Ok? <==>
            exists attempt, startedAt, now :: CompensateExecuteCancellation(current, attempt, startedAt, now) == Ok(next)
  {
    hide Valid, LatestStage, UpdateAllowed, LegalEdge, LeaseTransition, TerminalFailureEvidence;
    if PrepareSave(current, next).Ok? {
      var latest := LatestStage(current.stages, EXECUTE).value;
      assert CompensateExecuteCancellation(current, latest.attempts, latest.startedAt, next.updatedAt) == Ok(next);
    }
  }

  /** The compensated record keeps every earlier stage as an exact prefix and every piece of evidence. */
  lemma CompensationKeepsRecord(r: Record, attempt: int, startedAt: int, now: int)
    requires CompensateExecuteCancellation(r, attempt, startedAt, now).Ok?
    ensures var next := CompensateExecuteCancellation(r, attempt, startedAt, now).value;
            && r.stages < next.stages && next.evidence == r.evidence && next.identity == r.identity
            && PrepareSave(r, next) == Ok(next.(version := (r.version + 1) % VERSIONS))
            && (forall other, begun, later :: CompensateExecuteCancellation(next, other, begun, later).Err?)
  {
    hide Valid, LatestStage, UpdateAllowed, LegalEdge, LeaseTransition, TerminalFailureEvidence;
    var next := CompensateExecuteCancellation(r, attempt, startedAt, now).value;
    assert Valid(next);
  }
}
