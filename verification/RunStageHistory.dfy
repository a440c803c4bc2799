/**
 Stage entries and write leases along every history of accepted saves.
 */
module RunStageHistory {
  import opened Wrappers
  import opened RunTypes
  import opened RunStages
  import opened RunState
  import opened RunHistory

  // Facts about one list

  lemma {:induction false} LookupIs(stages: seq<Stage>, s: Stage)
    requires Increasing(stages) && s in stages
    ensures Lookup(stages, s.name, s.attempts) == Some(s)
  {
    var n := |stages| - 1;
    if SameKey(stages[n], s) {
      var i :| 0 <= i <= n && stages[i] == s;
    } else {
      assert s in stages[..n];
      LookupIs(stages[..n], s);
    }
  }

  /** In a valid list the latest entry of a name is the one with the highest attempt. */
  lemma {:induction false} LatestIsHighest(stages: seq<Stage>, name: string)
    requires ValidStages(stages)
    ensures LatestStage(stages, name) ==
            (if Highest(stages, name) == 0 then None else Lookup(stages, name, Highest(stages, name)))
    ensures LatestStage(stages, name).None? <==> Highest(stages, name) == 0
  {
    if stages != [] {
      var n := |stages| - 1;
      assert stages[n] in stages;
      assert forall s | s in stages[..n] :: s in stages;
      LatestIsHighest(stages[..n], name);
    }
  }

  lemma {:induction false} LatestIsMember(stages: seq<Stage>, name: string)
    requires LatestStage(stages, name).Some?
    ensures LatestStage(stages, name).value in stages && LatestStage(stages, name).value.name == name
  {
    var n := |stages| - 1;
    if LatestStage(stages[..n], name).Some? {
      LatestIsMember(stages[..n], name);
    }
  }

  lemma {:induction false} LookupFilter(stages: seq<Stage>, other: string, name: string, attempts: int)
    ensures Lookup(stages, name, attempts) ==
            (if name == other then Lookup(Named(stages, other), name, attempts)
             else Lookup(NotNamed(stages, other), name, attempts))
  {
    if stages != [] {
      var n := |stages| - 1;
      LookupFilter(stages[..n], other, name, attempts);
      var rest := if name == other then Named(stages[..n], other) else NotNamed(stages[..n], other);
      assert (rest + [stages[n]])[..|rest|] == rest;
      assert rest + [] == rest;
    }
  }

  lemma {:induction false} LatestFilter(stages: seq<Stage>, other: string, name: string)
    requires name != other
    ensures LatestStage(stages, name) == LatestStage(NotNamed(stages, other), name)
  {
    if stages != [] {
      var n := |stages| - 1;
      LatestFilter(stages[..n], other, name);
      var rest := NotNamed(stages[..n], other);
      assert (rest + [stages[n]])[..|rest|] == rest;
      assert rest + [] == rest;
    }
  }

  // One save

  /** What may become of an entry: nothing, progress while it runs, or exhausted retries on the latest attempt. */
  predicate Follows(current: seq<Stage>, x: Stage, y: Stage) {
    || x == y
    || (!x.Finished() && x.startedAt == y.startedAt)
    || (x.Finished() && x.attempts == Highest(current, x.name) && RetryExhaustion(x, y))
  }

  ghost predicate StageStep(a: seq<Stage>, b: seq<Stage>) {
    forall name, attempts ::
      var x, y := Lookup(a, name, attempts), Lookup(b, name, attempts);
      && (x.Some? ==> y.Some? && Follows(a, x.value, y.value))
      && (x.None? && y.Some? ==> attempts > Highest(a, name))
  }

  lemma MonotonicIsStep(a: seq<Stage>, b: seq<Stage>)
    requires MonotonicStages(a, b) && ValidStages(b)
    ensures StageStep(a, b)
  {
    hide Lookup, Highest, RetryExhaustion;
    forall name, attempts
      ensures var x, y := Lookup(a, name, attempts), Lookup(b, name, attempts);
              && (x.Some? ==> y.Some? && Follows(a, x.value, y.value))
              && (x.None? && y.Some? ==> attempts > Highest(a, name))
    {
      var x, y := Lookup(a, name, attempts), Lookup(b, name, attempts);
      if x.Some? {
        assert KeptBy(a, x.value, b);
      } else if y.Some? {
        assert NotInserted(a, y.value) && y.value.Valid();
      }
    }
  }

  lemma SameFiltersStep(a: seq<Stage>, b: seq<Stage>, other: string)
    requires Named(a, other) == Named(b, other) && NotNamed(a, other) == NotNamed(b, other)
    ensures StageStep(a, b)
  {
    hide Lookup, Highest;
    forall name, attempts ensures Lookup(a, name, attempts) == Lookup(b, name, attempts) {
      LookupFilter(a, other, name, attempts);
      LookupFilter(b, other, name, attempts);
    }
  }

  lemma AppendIsStep(a: seq<Stage>, s: Stage)
    requires s.attempts > 0 && forall x | x in a :: x.name != s.name
    ensures StageStep(a, a + [s])
  {
    var b := a + [s];
    assert b[..|a|] == a;
    assert Highest(a, s.name) == 0;
    forall name, attempts
      ensures Lookup(b, name, attempts) ==
              (if name == s.name && attempts == s.attempts then Some(s) else Lookup(a, name, attempts))
    {
    }
    assert Lookup(a, s.name, s.attempts).None?;
  }

  lemma SaveIsStageStep(a: Record, b: Record)
    requires Saves(a, b)
    ensures StageStep(a.stages, b.stages) && ValidStages(a.stages) && ValidStages(b.stages)
  {
    hide StageStep, MonotonicStages, Named, NotNamed, LatestStage, Saves, LegalEdge, LeaseTransition, TerminalFailureEvidence,
         MonotonicGathered, MonotonicFailure, ProfileAttachment, ValidEvidence, ValidLease, ValidProfile, ValidForStatus, ValidStages;
    SaveCases(a, b);
    if IsCompensation(a, b) {
      AppendIsStep(a.stages, b.stages[|a.stages|]);
    } else if MonotonicStages(a.stages, b.stages) {
      MonotonicIsStep(a.stages, b.stages);
    } else {
      SameFiltersStep(a.stages, b.stages, FINALIZE);
    }
  }

  lemma HighestGrows(a: seq<Stage>, b: seq<Stage>, name: string)
    requires StageStep(a, b)
    ensures Highest(a, name) <= Highest(b, name)
  {
    hide Lookup;
    if Highest(a, name) > 0 {
      var s :| s in a && s.name == name && s.attempts == Highest(a, name);
      assert Lookup(a, name, s.attempts).Some?;
      assert Lookup(b, name, s.attempts).value in b;
    }
  }

  // Stage history

  /** The sum of any number of steps on one entry. */
  predicate Evolved(x: Stage, y: Stage) {
    || x == y
    || (!x.Finished() && x.startedAt == y.startedAt)
    || (x.Finished() && RetryExhaustion(x, y))
  }

  /** An entry is never removed, and evolves as one entry may. */
  lemma {:induction false} StagesAreKept(h: seq<Record>, i: nat, j: nat, name: string, attempts: int)
    requires History(h) && i <= j < |h| && Lookup(h[i].stages, name, attempts).Some?
    ensures Lookup(h[j].stages, name, attempts).Some?
    ensures Evolved(Lookup(h[i].stages, name, attempts).value, Lookup(h[j].stages, name, attempts).value)
    decreases j
  {
    hide Saves, Lookup, ValidStages, Highest;
    if i < j {
      StagesAreKept(h, i, j - 1, name, attempts);
      SaveIsStageStep(h[j - 1], h[j]);
      var y := Lookup(h[j - 1].stages, name, attempts);
      assert Follows(h[j - 1].stages, y.value, Lookup(h[j].stages, name, attempts).value);
    }
  }

  /** A finished entry changes at most once over a run. */
  lemma FinishedChangesOnce(h: seq<Record>, i: nat, j: nat, k: nat, name: string, attempts: int)
    requires History(h) && i <= j <= k < |h| && Lookup(h[i].stages, name, attempts).Some?
    requires Lookup(h[i].stages, name, attempts).value.Finished()
    requires Lookup(h[i].stages, name, attempts) != Lookup(h[j].stages, name, attempts)
    ensures Lookup(h[j].stages, name, attempts).Some?
    ensures Lookup(h[k].stages, name, attempts) == Lookup(h[j].stages, name, attempts)
    ensures var was, now := Lookup(h[i].stages, name, attempts).value, Lookup(h[j].stages, name, attempts).value;
            && was.failure.Some? && was.failure.value.retryable
            && var f := was.failure.value;
            now == was.(failure := Some(Failure(f.stage, f.class_, false, f.diagnostic, "retries_exhausted")))
  {
    hide History, Lookup;
    StagesAreKept(h, i, j, name, attempts);
    StagesAreKept(h, j, k, name, attempts);
  }

  /** The save that changed a finished entry found it as the latest attempt of its stage. */
  lemma {:induction false} ChangedWhileLatest(h: seq<Record>, i: nat, j: nat, name: string, attempts: int)
    requires History(h) && i <= j < |h| && Lookup(h[i].stages, name, attempts).Some?
    requires Lookup(h[i].stages, name, attempts).value.Finished()
    requires Lookup(h[i].stages, name, attempts) != Lookup(h[j].stages, name, attempts)
    ensures exists m ::
              && i <= m < j && Highest(h[m].stages, name) == attempts
              && Lookup(h[m].stages, name, attempts) == Lookup(h[i].stages, name, attempts)
              && Lookup(h[m + 1].stages, name, attempts) == Lookup(h[j].stages, name, attempts)
    decreases j
  {
    hide Saves, Lookup, Highest, ValidStages, RetryExhaustion;
    var m := j - 1;
    SaveIsStageStep(h[m], h[j]);
    if Lookup(h[i].stages, name, attempts) == Lookup(h[m].stages, name, attempts) {
      assert Follows(h[m].stages, Lookup(h[m].stages, name, attempts).value, Lookup(h[j].stages, name, attempts).value);
    } else {
      ChangedWhileLatest(h, i, m, name, attempts);
      FinishedChangesOnce(h, i, m, j, name, attempts);
    }
  }

  lemma {:induction false} HighestNeverFalls(h: seq<Record>, i: nat, j: nat, name: string)
    requires History(h) && i <= j < |h|
    ensures Highest(h[i].stages, name) <= Highest(h[j].stages, name)
    decreases j
  {
    hide Saves, Highest, ValidStages, StageStep;
    if i < j {
      HighestNeverFalls(h, i, j - 1, name);
      SaveIsStageStep(h[j - 1], h[j]);
      HighestGrows(h[j - 1].stages, h[j].stages, name);
    }
  }

  /** An entry that appears later is above every attempt its stage had before. */
  lemma {:induction false} NewAttemptsGoAbove(h: seq<Record>, i: nat, j: nat, name: string, attempts: int)
    requires History(h) && i <= j < |h|
    requires Lookup(h[i].stages, name, attempts).None? && Lookup(h[j].stages, name, attempts).Some?
    ensures attempts > Highest(h[i].stages, name)
    decreases j
  {
    hide Saves, Highest, Lookup, ValidStages;
    var m := j - 1;
    if Lookup(h[m].stages, name, attempts).Some? {
      NewAttemptsGoAbove(h, i, m, name, attempts);
    } else {
      SaveIsStageStep(h[m], h[j]);
      HighestNeverFalls(h, i, m, name);
    }
  }

  // Artifact fencing

  /** A held lease names the execute attempt that is running, which is the latest. */
  lemma LeaseNamesRunning(h: seq<Record>, i: nat)
    requires History(h) && i < |h| && h[i].lease.Some?
    ensures var lease, s := h[i].lease.value, Lookup(h[i].stages, EXECUTE, h[i].lease.value.attempt);
            && lease.attempt == Highest(h[i].stages, EXECUTE) && lease.reference.run == h[0].identity.id
            && s.Some? && s.value.status.Running? && s.value.startedAt == lease.startedAt
            && h[i].evidence.artifact.None? && !h[i].Terminal() && h[i].updatedAt < lease.deadline != UNSET
  {
    hide History, Lookup, Highest, LatestStage, ValidStages, ValidEvidence, ValidProfile, ValidForStatus;
    HistorySound(h, i);
    LatestIsHighest(h[i].stages, EXECUTE);
  }

  /** Later leases belong to the same attempt, started at the same time, or to a later one. */
  lemma LeaseAttemptsNeverFall(h: seq<Record>, i: nat, j: nat)
    requires History(h) && i <= j < |h| && h[i].lease.Some? && h[j].lease.Some?
    ensures h[i].lease.value.attempt <= h[j].lease.value.attempt
    ensures h[i].lease.value.attempt == h[j].lease.value.attempt ==>
              h[i].lease.value.startedAt == h[j].lease.value.startedAt
  {
    hide History, Lookup, Highest;
    LeaseNamesRunning(h, i);
    LeaseNamesRunning(h, j);
    HighestNeverFalls(h, i, j, EXECUTE);
    StagesAreKept(h, i, j, EXECUTE, h[i].lease.value.attempt);
  }

  lemma SaveMovesLease(a: Record, b: Record)
    requires Saves(a, b)
    ensures a.lease.Some? && b.lease.Some? ==>
              && b.lease.value.attempt == a.lease.value.attempt && b.lease.value.startedAt == a.lease.value.startedAt
              && b.lease.value.reference == a.lease.value.reference && a.lease.value.deadline <= b.lease.value.deadline
    ensures a.lease.Some? && b.evidence.artifact.Some? ==> b.evidence.artifact.value == a.lease.value.reference
  {
    hide Saves, UpdateAllowed, LatestStage, LegalEdge, TerminalFailureEvidence, ValidStages, ValidProfile, ValidForStatus;
    SaveCases(a, b);
  }

  /** While a lease is held without a break its identity stays and its deadline never shrinks. */
  lemma {:induction false} HeldLeaseNeverShrinks(h: seq<Record>, i: nat, j: nat)
    requires History(h) && i <= j < |h| && forall k | i <= k <= j :: h[k].lease.Some?
    ensures h[j].lease.value.attempt == h[i].lease.value.attempt
    ensures h[j].lease.value.startedAt == h[i].lease.value.startedAt
    ensures h[j].lease.value.reference == h[i].lease.value.reference
    ensures h[i].lease.value.deadline <= h[j].lease.value.deadline
    decreases j
  {
    hide Saves;
    if i < j {
      HeldLeaseNeverShrinks(h, i, j - 1);
      SaveMovesLease(h[j - 1], h[j]);
    }
  }

  /** The save that ends a lease with an artifact records exactly the leased reference, and no lease follows it. */
  lemma CheckpointIsLeased(h: seq<Record>, i: nat, j: nat)
    requires History(h) && i + 1 <= j < |h| && h[i].lease.Some? && h[i + 1].evidence.artifact.Some?
    ensures h[i + 1].evidence.artifact.value == h[i].lease.value.reference
    ensures h[j].evidence.artifact == h[i + 1].evidence.artifact && h[j].lease.None?
  {
    hide Saves, LatestStage, ValidStages, ValidProfile, ValidForStatus, ValidEvidence;
    SaveMovesLease(h[i], h[i + 1]);
    EvidenceIsWrittenOnce(h, i + 1, j);
    HistorySound(h, j);
  }
}
