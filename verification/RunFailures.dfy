/**
 The failure of an ended run against its stage history: it is that of its stage's
 latest attempt when the run ends, and exactly how long that stays so.
 */
module RunFailures {
  import opened Wrappers
  import opened RunTypes
  import opened RunStages
  import opened RunState
  import opened RunHistory
  import opened RunStageHistory
  import opened RunEdges

  /** Ended by a failure or a cancellation. */
  predicate Ended(r: Record) { r.status.Failed? || r.status.Canceled? }

  /** The failure is that of the latest attempt of its stage, which failed. */
  predicate Shown(r: Record) {
    && r.failure.Some?
    && var latest := LatestStage(r.stages, r.failure.value.stage);
    && latest.Some? && latest.value.status.StageFailed? && latest.value.failure == r.failure
  }

  lemma EndedHasFailure(r: Record)
    requires Sound(r) && Ended(r)
    ensures r.failure.Some? && !r.failure.value.retryable && ValidStages(r.stages)
  {
    hide ValidStages, ValidEvidence, ValidLease, ValidProfile;
  }

  lemma {:induction false} LatestOfNew(a: seq<Stage>, s: Stage)
    requires forall x | x in a :: x.name != s.name
    ensures LatestStage(a + [s], s.name) == Some(s)
  {
    assert (a + [s])[..|a|] == a;
    LatestOfAbsent(a, s.name);
  }

  lemma {:induction false} LatestOfAbsent(a: seq<Stage>, name: string)
    requires forall x | x in a :: x.name != name
    ensures LatestStage(a, name).None?
  {
    if a != [] {
      LatestOfAbsent(a[..|a| - 1], name);
    }
  }

  /** The save that ends a run finds its failure on the latest attempt of its stage. */
  lemma EndingShows(a: Record, b: Record)
    requires Saves(a, b) && !a.Terminal() && Ended(b)
    ensures Shown(b)
  {
    hide Saves, MonotonicEvidence, LegalEdge, LeaseTransition, Sound, LatestStage, Progressed, NotNamed, Named;
    SaveCases(a, b);
  }

  /** A compensated run shows the cancellation it records. */
  lemma CompensationShows(a: Record, b: Record)
    requires IsCompensation(a, b)
    ensures Shown(b)
  {
    hide LatestStage;
    LatestOfNew(a.stages, b.stages[|a.stages|]);
  }

  /** The finalize entry with the highest attempt failed with the record's failure. */
  predicate FinalizeRepeats(r: Record) {
    var last := Lookup(r.stages, FINALIZE, Highest(r.stages, FINALIZE));
    last.Some? && last.value.status.StageFailed? && last.value.failure == r.failure
  }

  /** Nothing the record adds to an earlier one takes the place of the shown failure. */
  predicate StillShown(a: Record, b: Record) {
    || (b.failure.Some? && b.failure.value.stage != FINALIZE)
    || Highest(b.stages, FINALIZE) == Highest(a.stages, FINALIZE)
    || FinalizeRepeats(b)
  }

  /** A finished entry without retries left is the same in every later list. */
  lemma SettledEntryStays(h: seq<Record>, i: nat, j: nat, name: string, attempts: int)
    requires History(h) && i <= j < |h| && Lookup(h[i].stages, name, attempts).Some?
    requires var x := Lookup(h[i].stages, name, attempts).value; x.Finished() && x.failure.Some? && !x.failure.value.retryable
    ensures Lookup(h[j].stages, name, attempts) == Lookup(h[i].stages, name, attempts)
  {
    hide History, Lookup;
    StagesAreKept(h, i, j, name, attempts);
  }

  /** A finalize failure never leaves its run: only an execute failure can be compensated. */
  lemma SaveKeepsFinalize(a: Record, b: Record)
    requires Saves(a, b) && Ended(a) && a.failure.Some? && a.failure.value.stage == FINALIZE
    ensures b.status == a.status && b.failure == a.failure
  {
    hide MonotonicEvidence, LegalEdge, LeaseTransition, TerminalFailureEvidence, ValidStages, ValidLease, ValidProfile,
         ValidEvidence, LatestStage, NotNamed, Named, MonotonicStages;
    SaveCases(a, b);
    StagesDiffer();
  }

  lemma StagesDiffer()
    ensures FINALIZE != EXECUTE
  {
    assert FINALIZE[0] == 'f' && EXECUTE[0] == 'e';
  }

  lemma {:induction false} FinalizeFailureStays(h: seq<Record>, i: nat, j: nat)
    requires History(h) && i <= j < |h| && Ended(h[i])
    requires h[i].failure.Some? && h[i].failure.value.stage == FINALIZE
    ensures Ended(h[j]) && h[j].failure == h[i].failure
    decreases j
  {
    hide Saves;
    if i < j {
      FinalizeFailureStays(h, i, j - 1);
      SaveKeepsFinalize(h[j - 1], h[j]);
    }
  }

  lemma ShownByKey(r: Record)
    requires ValidStages(r.stages) && r.failure.Some?
    ensures var name := r.failure.value.stage;
            var last := Lookup(r.stages, name, Highest(r.stages, name));
            Shown(r) <==> last.Some? && last.value.status.StageFailed? && last.value.failure == r.failure
  {
    hide ValidStages;
    LatestIsHighest(r.stages, r.failure.value.stage);
    NothingAtZero(r.stages, r.failure.value.stage);
  }

  lemma NothingAtZero(stages: seq<Stage>, name: string)
    requires ValidStages(stages)
    ensures Lookup(stages, name, 0).None?
  {
  }

  /** Two ended records that share a finalize failure and the entry it was shown by. */
  lemma FinalizeShownWhen(a: Record, b: Record)
    requires ValidStages(a.stages) && ValidStages(b.stages) && Shown(a)
    requires a.failure.value.stage == FINALIZE && b.failure == a.failure
    requires var top := Highest(a.stages, FINALIZE); Lookup(b.stages, FINALIZE, top) == Lookup(a.stages, FINALIZE, top)
    ensures Shown(b) <==> StillShown(a, b)
  {
    hide Lookup, Highest, ValidStages;
    ShownByKey(a);
    ShownByKey(b);
  }

  lemma {:induction false} FinalizeShownIff(h: seq<Record>, i: nat, j: nat)
    requires History(h) && i <= j < |h| && Ended(h[i]) && Shown(h[i]) && h[i].failure.value.stage == FINALIZE
    ensures Shown(h[j]) <==> StillShown(h[i], h[j])
  {
    hide History, Lookup, Highest, LatestStage, ValidStages, Sound, Ended, StillShown;
    FinalizeFailureStays(h, i, j);
    HistorySound(h, i);
    HistorySound(h, j);
    EndedHasFailure(h[i]);
    EndedHasFailure(h[j]);
    ShownByKey(h[i]);
    var top := Highest(h[i].stages, FINALIZE);
    FailedIsFinished(h[i].stages, FINALIZE, top);
    SettledEntryStays(h, i, j, FINALIZE, top);
    FinalizeShownWhen(h[i], h[j]);
  }

  lemma FailedIsFinished(stages: seq<Stage>, name: string, attempts: int)
    requires ValidStages(stages) && Lookup(stages, name, attempts).Some?
    requires Lookup(stages, name, attempts).value.status.StageFailed?
    ensures Lookup(stages, name, attempts).value.Finished()
  {
    assert Lookup(stages, name, attempts).value.Valid();
  }

  lemma SaveShowsOther(a: Record, b: Record)
    requires Saves(a, b) && Ended(a) && Shown(a) && a.failure.value.stage != FINALIZE
    ensures Shown(b) && Ended(b) && b.failure.Some? && b.failure.value.stage != FINALIZE
  {
    hide Saves, MonotonicEvidence, LegalEdge, LeaseTransition, Sound, LatestStage, NotNamed, Named, MonotonicStages, Progressed;
    SaveCases(a, b);
    if IsCompensation(a, b) {
      CompensationShows(a, b);
      CancellationDiffers();
    } else {
      LatestFilter(a.stages, FINALIZE, b.failure.value.stage);
      LatestFilter(b.stages, FINALIZE, b.failure.value.stage);
    }
  }

  lemma CancellationDiffers()
    ensures EXECUTE_CANCELLATION != FINALIZE
  {
    assert FINALIZE[0] == 'f' && EXECUTE_CANCELLATION[0] == 'e';
  }

  /**
   A save of an ended run whose failure is shown keeps it shown exactly when the failure
   is not finalization's, no finalize attempt is added above the highest, or the highest
   one added failed the same way.
   */
  lemma SaveShownIff(a: Record, b: Record)
    requires Saves(a, b) && Ended(a) && Shown(a)
    ensures Shown(b) <==> StillShown(a, b)
  {
    hide Saves, Ended, ValidStages, Lookup, Highest, StageStep, StillShown, Sound;
    SaveCases(a, b);
    EndedHasFailure(a);
    if a.failure.value.stage == FINALIZE {
      SaveKeepsFinalize(a, b);
      SaveIsStageStep(a, b);
      ShownByKey(a);
      var top := Highest(a.stages, FINALIZE);
      FailedIsFinished(a.stages, FINALIZE, top);
      StepKeepsSettled(a.stages, b.stages, FINALIZE, top);
      FinalizeShownWhen(a, b);
    } else {
      SaveShowsOther(a, b);
      OtherStillShown(a, b);
    }
  }

  lemma StepKeepsSettled(a: seq<Stage>, b: seq<Stage>, name: string, attempts: int)
    requires StageStep(a, b) && Lookup(a, name, attempts).Some?
    requires var x := Lookup(a, name, attempts).value; x.Finished() && x.failure.Some? && !x.failure.value.retryable
    ensures Lookup(b, name, attempts) == Lookup(a, name, attempts)
  {
    hide Lookup, Highest;
    assert Follows(a, Lookup(a, name, attempts).value, Lookup(b, name, attempts).value);
  }

  lemma {:induction false} OtherStaysShown(h: seq<Record>, i: nat, j: nat)
    requires History(h) && i <= j < |h| && Ended(h[i]) && Shown(h[i]) && h[i].failure.value.stage != FINALIZE
    ensures Shown(h[j]) && Ended(h[j]) && h[j].failure.Some? && h[j].failure.value.stage != FINALIZE
    decreases j
  {
    hide Saves, LatestStage, Ended;
    if i < j {
      OtherStaysShown(h, i, j - 1);
      SaveShowsOther(h[j - 1], h[j]);
    }
  }

  /**
   From the record that ended a run on, the failure is that of its stage's latest failed
   attempt exactly when the stage is not finalization, no finalize attempt was added, or
   the last one added failed the same way.
   */
  lemma ShownIff(h: seq<Record>, i: nat, j: nat)
    requires History(h) && 0 < i <= j < |h| && !h[i - 1].Terminal() && Ended(h[i])
    ensures Shown(h[i]) && Ended(h[j])
    ensures Shown(h[j]) <==> StillShown(h[i], h[j])
  {
    hide Saves, Shown, Ended, StillShown, Sound;
    EndingShows(h[i - 1], h[i]);
    HistorySound(h, i);
    EndedHasFailure(h[i]);
    if h[i].failure.value.stage == FINALIZE {
      FinalizeFailureStays(h, i, j);
      FinalizeShownIff(h, i, j);
    } else {
      OtherStaysShown(h, i, j);
      OtherStillShown(h[i], h[j]);
    }
  }

  lemma OtherStillShown(a: Record, b: Record)
    requires b.failure.Some? && b.failure.value.stage != FINALIZE
    ensures StillShown(a, b)
  {
  }

  /** Every failed or canceled record has the record that ended its run. */
  lemma {:induction false} EndedSomewhere(h: seq<Record>, j: nat) returns (i: nat)
    requires History(h) && j < |h| && Ended(h[j])
    ensures 0 < i <= j && !h[i - 1].Terminal() && Ended(h[i])
  {
    hide Saves;
    NewIsPending(h[0]);
    if Ended(h[j - 1]) {
      i := EndedSomewhere(h, j - 1);
    } else {
      StatusRises(h[j - 1], h[j]);
      i := j;
    }
  }

  /** For every stage but finalization the failure of an ended run always stands on the stage's latest attempt. */
  lemma TerminalFailureIsShown(h: seq<Record>, j: nat)
    requires History(h) && j < |h| && Ended(h[j])
    ensures h[j].failure.Some? && (h[j].failure.value.stage != FINALIZE ==> Shown(h[j]))
  {
    hide History, Sound, Shown, Ended;
    HistorySound(h, j);
    EndedHasFailure(h[j]);
    var i := EndedSomewhere(h, j);
    ShownIff(h, i, j);
    if h[j].failure.value.stage != FINALIZE {
      OtherStillShown(h[i], h[j]);
    }
  }

  // A finalize failure that does not stay shown

  const CREATED: Identity := Identity("run", "template", 1, "", "hash", Input("{}", None), ArtifactMode, "uri", "ref", 1)

  const BROKEN: Failure := Failure(FINALIZE, CleanupFailure, false, "", "cause")

  const FIRST_TRY: Stage := Stage(FINALIZE, StageFailed, 2, 2, 1, NoEvidence, Some(BROKEN))

  const SECOND_TRY: Stage := Stage(FINALIZE, StageSucceeded, 3, 3, 2, NoEvidence, None)

  const NOTHING: Evidence := Gathered("", None, None, None, None, None, None)

  const AT_FIRST: Record := Record(CREATED, 1, Pending, NOTHING, None, false, [], None, 1)

  const AT_END: Record := Record(CREATED, 2, Failed, NOTHING, None, false, [FIRST_TRY], Some(BROKEN), 2)

  const AFTERWARDS: Record := Record(CREATED, 3, Failed, NOTHING, None, false, [FIRST_TRY, SECOND_TRY], Some(BROKEN), 3)

  lemma ListsAre()
    ensures LatestStage([], FINALIZE).None? && LatestStage([FIRST_TRY], FINALIZE) == Some(FIRST_TRY)
    ensures LatestStage([FIRST_TRY, SECOND_TRY], FINALIZE) == Some(SECOND_TRY)
    ensures Highest([], FINALIZE) == 0 && Highest([FIRST_TRY], FINALIZE) == 1
    ensures NotNamed([FIRST_TRY], FINALIZE) == [] && NotNamed([FIRST_TRY, SECOND_TRY], FINALIZE) == []
    ensures Named([FIRST_TRY], FINALIZE) == [FIRST_TRY] && Named([FIRST_TRY, SECOND_TRY], FINALIZE) == [FIRST_TRY, SECOND_TRY]
    ensures Lookup([FIRST_TRY], FINALIZE, 1) == Some(FIRST_TRY) && Lookup([FIRST_TRY], FINALIZE, 2).None?
    ensures Lookup([FIRST_TRY, SECOND_TRY], FINALIZE, 1) == Some(FIRST_TRY)
  {
    assert [FIRST_TRY][..0] == [] && [FIRST_TRY, SECOND_TRY][..1] == [FIRST_TRY];
  }

  lemma ListsAreValid()
    ensures ValidStages([]) && ValidStages([FIRST_TRY]) && ValidStages([FIRST_TRY, SECOND_TRY])
  {
  }

  lemma ListsGrow()
    ensures MonotonicStages([], [FIRST_TRY]) && MonotonicStages([FIRST_TRY], [FIRST_TRY, SECOND_TRY])
  {
    hide Lookup, Highest;
    ListsAre();
  }

  lemma RunEnds()
    ensures Saves(AT_FIRST, AT_END)
  {
    hide LatestStage, Highest, Lookup, NotNamed, Named, MonotonicStages, ValidStages;
    ListsAre();
    ListsAreValid();
    ListsGrow();
    assert Lookup([], FINALIZE, 1).None?;
  }

  lemma RunIsSavedAgain()
    ensures Saves(AT_END, AFTERWARDS)
  {
    hide LatestStage, Highest, Lookup, NotNamed, Named, MonotonicStages, ValidStages;
    ListsAre();
    ListsAreValid();
    ListsGrow();
  }

  /** A run ends by a failed finalization, is finalized again with success, and keeps a failure its stage no longer shows. */
  lemma FinalizeAgainHidesFailure()
    ensures History([AT_FIRST, AT_END, AFTERWARDS])
    ensures Ended(AFTERWARDS) && Shown(AT_END) && !Shown(AFTERWARDS)
  {
    hide LatestStage, Saves, ValidStages;
    ListsAre();
    ListsAreValid();
    RunEnds();
    RunIsSavedAgain();
  }

  // Failures come from fresh evidence

  /** The entry is not one the list already had. */
  predicate IsNews(current: seq<Stage>, s: Stage) {
    Lookup(current, s.name, s.attempts) != Some(s)
  }

  lemma ProgressIsNews(current: seq<Stage>, next: seq<Stage>, s: Stage)
    requires Progressed(current, next, s)
    ensures IsNews(current, s)
  {
  }

  lemma ExhaustionIsNews(current: seq<Stage>, before: Stage, after: Stage)
    requires ValidStages(current) && LatestStage(current, before.name) == Some(before) && RetryExhaustion(before, after)
    ensures IsNews(current, after)
  {
    hide LatestStage, Highest, Lookup;
    LatestIsHighest(current, before.name);
  }

  /**
   While a run goes on, its failure changes only with new evidence: a new failure is that
   of the latest attempt of its stage, which the record before did not hold in that form;
   an old one can be given up only if it stood on a latest attempt, and is cleared only
   by a newer attempt without one.
   */
  lemma FailureChangesWithEvidence(a: Record, b: Record)
    requires Saves(a, b) && !a.Terminal() && a.failure != b.failure
    ensures b.failure.Some? ==>
              var latest := LatestStage(b.stages, b.failure.value.stage);
              latest.Some? && latest.value.failure == b.failure && IsNews(a.stages, latest.value)
    ensures a.failure.Some? ==>
              var held := LatestStage(a.stages, a.failure.value.stage);
              && held.Some? && held.value.failure == a.failure
              && (b.failure.None? ==>
                    var now := LatestStage(b.stages, a.failure.value.stage);
                    now.Some? && now.value.failure.None? && now.value.attempts > held.value.attempts)
  {
    hide Saves, LatestStage, Lookup, Highest, MonotonicStages, Progressed, LegalEdge, LeaseTransition, TerminalFailureEvidence,
         ValidEvidence, ValidLease, ValidProfile, ValidForStatus, ValidStages, RetryExhaustion, IsNews;
    SaveCases(a, b);
    if b.failure.Some? && LatestStage(b.stages, b.failure.value.stage).Some? {
      var latest := LatestStage(b.stages, b.failure.value.stage).value;
      if Progressed(a.stages, b.stages, latest) {
        ProgressIsNews(a.stages, b.stages, latest);
      } else {
        var held := LatestStage(a.stages, a.failure.value.stage).value;
        LatestIsMember(a.stages, a.failure.value.stage);
        ExhaustionIsNews(a.stages, held, latest);
      }
    }
  }

  /** A run cannot be ended by an attempt that had failed before, unless that failure already was the run's. */
  lemma EndingIsFresh(a: Record, b: Record)
    requires Saves(a, b) && !a.Terminal() && Ended(b) && b.failure != a.failure
    ensures b.failure.Some? && LatestStage(b.stages, b.failure.value.stage).Some?
    ensures IsNews(a.stages, LatestStage(b.stages, b.failure.value.stage).value)
  {
    hide Saves, LatestStage, Lookup, Highest, MonotonicEvidence, Progressed, LegalEdge, LeaseTransition,
         ValidEvidence, ValidLease, ValidProfile, ValidForStatus, ValidStages, RetryExhaustion, IsNews;
    SaveCases(a, b);
    var latest := LatestStage(b.stages, b.failure.value.stage).value;
    if Progressed(a.stages, b.stages, latest) {
      ProgressIsNews(a.stages, b.stages, latest);
    } else {
      LatestIsMember(a.stages, b.failure.value.stage);
      ExhaustionIsNews(a.stages, LatestStage(a.stages, b.failure.value.stage).value, latest);
    }
  }

  /**
   Given lists a save allows, a run may be ended exactly by the failure its stage's latest
   attempt failed with, if that attempt is news or the failure was the run's already.
   */
  lemma EndingIff(a: Record, b: Record)
    requires ValidStages(a.stages) && ValidStages(b.stages) && MonotonicStages(a.stages, b.stages)
    ensures TerminalFailureEvidence(a, b) <==>
            Shown(b) && (a.failure == b.failure || IsNews(a.stages, LatestStage(b.stages, b.failure.value.stage).value))
  {
    if Shown(b) {
      hide Lookup, Highest, LatestStage, Progressed, RetryExhaustion, MonotonicStages;
      var name := b.failure.value.stage;
      LatestIsMember(b.stages, name);
      LatestIsHighest(a.stages, name);
      var s := LatestStage(b.stages, name).value;
      var held := Lookup(a.stages, name, s.attempts);
      HeldIsLatest(a.stages, b.stages, name);
      if held.None? || held.value.status.Running? {
        FailedProgresses(a.stages, b.stages, s);
      } else {
        FinishedNeverProgresses(a.stages, b.stages, s);
        FinishedIsExhausted(a.stages, b.stages, s);
      }
      NeverItsOwnExhaustion(s);
    }
  }

  lemma HeldIsLatest(a: seq<Stage>, b: seq<Stage>, name: string)
    requires ValidStages(a) && ValidStages(b) && MonotonicStages(a, b) && LatestStage(b, name).Some?
    ensures var s := LatestStage(b, name).value;
            && Highest(a, name) <= s.attempts == Highest(b, name) && s.attempts > 0 && Lookup(b, name, s.attempts) == Some(s)
            && (Lookup(a, name, s.attempts).Some? ==>
                  Highest(a, name) == s.attempts && LatestStage(a, name) == Lookup(a, name, s.attempts))
  {
    hide Lookup, Highest, LatestStage, ValidStages, MonotonicStages;
    LatestIsHighest(a, name);
    LatestIsHighest(b, name);
    MonotonicIsStep(a, b);
    HighestGrows(a, b, name);
  }

  lemma FailedProgresses(a: seq<Stage>, b: seq<Stage>, s: Stage)
    requires ValidStages(a) && ValidStages(b) && MonotonicStages(a, b)
    requires s in b && LatestStage(b, s.name) == Some(s) && s.status.StageFailed?
    requires var held := Lookup(a, s.name, s.attempts); held.None? || held.value.status.Running?
    ensures Progressed(a, b, s) && IsNews(a, s)
  {
    hide Lookup, Highest, LatestStage, RetryExhaustion;
    HeldIsLatest(a, b, s.name);
    var held := Lookup(a, s.name, s.attempts);
    if held.Some? {
      assert held.value in a && KeptBy(a, held.value, b);
      OnlyAt(b, s);
    } else {
      assert NotInserted(a, s);
    }
  }

  lemma OnlyAt(stages: seq<Stage>, s: Stage)
    requires ValidStages(stages) && s in stages
    ensures FirstAt(stages, s) < |stages| && stages[FirstAt(stages, s)] == s
  {
    var i := FirstAt(stages, s);
    var k :| 0 <= k < |stages| && stages[k] == s;
  }

  lemma FinishedNeverProgresses(a: seq<Stage>, b: seq<Stage>, s: Stage)
    requires Lookup(a, s.name, s.attempts).Some? && !Lookup(a, s.name, s.attempts).value.status.Running?
    ensures !Progressed(a, b, s)
  {
    hide Lookup, Highest;
  }

  lemma FinishedIsExhausted(a: seq<Stage>, b: seq<Stage>, s: Stage)
    requires ValidStages(a) && ValidStages(b) && MonotonicStages(a, b) && s in b && LatestStage(b, s.name) == Some(s)
    requires Lookup(a, s.name, s.attempts).Some? && !Lookup(a, s.name, s.attempts).value.status.Running?
    ensures var held := Lookup(a, s.name, s.attempts).value;
            held.Finished() && (IsNews(a, s) ==> RetryExhaustion(held, s)) && (!IsNews(a, s) ==> held == s)
  {
    hide Lookup, Highest, LatestStage, RetryExhaustion;
    HeldIsLatest(a, b, s.name);
    var held := Lookup(a, s.name, s.attempts).value;
    assert held in a && held.Valid() && KeptBy(a, held, b);
  }

  lemma NeverItsOwnExhaustion(s: Stage)
    ensures !RetryExhaustion(s, s)
  {
  }
}
