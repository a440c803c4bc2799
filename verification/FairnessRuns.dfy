/**
 Chains of selections: streaks stay within the cap while others wait, and no run
 with ready work is passed over for ever.
 */
module FairnessRuns {
  import opened Wrappers
  import opened Journal
  import opened Numeric
  import opened Fairness

  /** One selection: what is ready and when. */
  datatype Round = Round(items: seq<Item>, now: int)

  /** The fairness state and the virtual finish each run has reached. */
  datatype Progress = Progress(fair: Fair, finish: map<string, uint64>)

  const Begin: Progress := Progress(Fresh, map[])

  function FinishOf(p: Progress, run: string): uint64 {
    if run in p.finish then p.finish[run] else 0
  }

  /** Every ready item starts at the virtual finish its run has reached. */
  predicate Fed(p: Progress, round: Round) {
    forall item | item in round.items :: item.virtualStart == FinishOf(p, item.run)
  }

  function Step(policy: Policy, p: Progress, round: Round): Option<Progress> {
    match SelectReady(round.items, p.fair, round.now, policy)
    case None => None
    case Some((chosen, fair)) => Some(Progress(fair, p.finish[chosen.item.run := chosen.finish]))
  }

  function Chosen(policy: Policy, p: Progress, round: Round): Item
    requires Step(policy, p, round).Some?
  {
    SelectReady(round.items, p.fair, round.now, policy).value.0.item
  }

  /** The progress after all rounds; none if some round could not select. */
  function Chain(policy: Policy, p: Progress, rounds: seq<Round>): Option<Progress> {
    if rounds == [] then Some(p)
    else
      match Chain(policy, p, rounds[..|rounds| - 1])
      case None => None
      case Some(mid) => Step(policy, mid, rounds[|rounds| - 1])
  }

  lemma {:induction false} ChainPrefix(policy: Policy, p: Progress, rounds: seq<Round>, n: nat)
    requires n <= |rounds| && Chain(policy, p, rounds).Some?
    ensures Chain(policy, p, rounds[..n]).Some?
    ensures n < |rounds| ==>
              && Step(policy, Chain(policy, p, rounds[..n]).value, rounds[n]).Some?
              && Chain(policy, p, rounds[..n + 1]) == Step(policy, Chain(policy, p, rounds[..n]).value, rounds[n])
    decreases |rounds|
  {
    hide Step;
    var m := |rounds| - 1;
    if n == |rounds| {
      assert rounds[..n] == rounds;
    } else if n == m {
      assert rounds[..n + 1] == rounds;
    } else {
      assert rounds[..m][..n] == rounds[..n] && rounds[..m][..n + 1] == rounds[..n + 1];
      ChainPrefix(policy, p, rounds[..m], n);
    }
  }

  // Streaks

  /** How many of the last selections went to one run without a break. */
  function Streak(runs: seq<string>): nat {
    if |runs| == 0 then 0
    else if |runs| == 1 then 1
    else if runs[|runs| - 1] == runs[|runs| - 2] then Streak(runs[..|runs| - 1]) + 1
    else 1
  }

  function ChosenRuns(policy: Policy, p: Progress, rounds: seq<Round>): (runs: seq<string>)
    requires Chain(policy, p, rounds).Some?
    ensures |runs| == |rounds|
  {
    if rounds == [] then []
    else
      var n := |rounds| - 1;
      ChosenRuns(policy, p, rounds[..n]) + [Chosen(policy, Chain(policy, p, rounds[..n]).value, rounds[n]).run]
  }

  lemma StepAdvances(policy: Policy, p: Progress, round: Round)
    requires Step(policy, p, round).Some?
    ensures Step(policy, p, round).value.fair == AdvanceFairness(p.fair, Chosen(policy, p, round).run)
    ensures Chosen(policy, p, round) in round.items && Chosen(policy, p, round).run != ""
    ensures AtLimit(p.fair, policy) && Chosen(policy, p, round).run == p.fair.last ==>
              forall item | item in round.items :: item.run == p.fair.last
    ensures policy.Valid() && Consistent(p.fair)
  {
    hide RankReady, RankItem, Before;
    ChoiceIsBest(round.items, p.fair, round.now, policy);
    assert Chosen(policy, p, round).Valid();
  }

  /** The state kept between selections is exactly the last run and its unbroken streak. */
  lemma {:induction false} StateIsStreak(policy: Policy, rounds: seq<Round>)
    requires Chain(policy, Begin, rounds).Some?
    ensures var fair, runs := Chain(policy, Begin, rounds).value.fair, ChosenRuns(policy, Begin, rounds);
            && |runs| == |rounds|
            && fair.last == (if runs == [] then "" else runs[|runs| - 1])
            && fair.streak == SaturatingCap(Streak(runs), MAX_UINT64)
            && (runs != [] ==> fair.last != "")
  {
    hide Step, Chosen;
    if rounds != [] {
      var n := |rounds| - 1;
      StateIsStreak(policy, rounds[..n]);
      StepAdvances(policy, Chain(policy, Begin, rounds[..n]).value, rounds[n]);
      var before, runs := ChosenRuns(policy, Begin, rounds[..n]), ChosenRuns(policy, Begin, rounds);
      assert runs[..|runs| - 1] == before;
    }
  }

  /** A run's streak goes past the limit only when nothing of any other run is ready. */
  lemma StreakWithinLimit(policy: Policy, rounds: seq<Round>)
    requires Chain(policy, Begin, rounds).Some? && rounds != []
    ensures Streak(ChosenRuns(policy, Begin, rounds)) > policy.consecutiveLimit ==>
              forall item | item in rounds[|rounds| - 1].items ::
                item.run == ChosenRuns(policy, Begin, rounds)[|rounds| - 1]
  {
    hide Step, Chosen;
    var n := |rounds| - 1;
    StateIsStreak(policy, rounds[..n]);
    StateIsStreak(policy, rounds);
    StepAdvances(policy, Chain(policy, Begin, rounds[..n]).value, rounds[n]);
    var before, runs := ChosenRuns(policy, Begin, rounds[..n]), ChosenRuns(policy, Begin, rounds);
    assert runs[..n] == before;
  }

  lemma {:induction false} SameRunStreak(runs: seq<string>, k: nat)
    requires 0 < k <= |runs| && forall i | |runs| - k <= i < |runs| :: runs[i] == runs[|runs| - 1]
    ensures Streak(runs) >= k
    decreases k
  {
    if k > 1 {
      var m := |runs| - 1;
      assert runs[m] == runs[m - 1];
      SameRunStreak(runs[..m], k - 1);
    }
  }

  /** In any window longer than the limit, if some other run was ready at its end, more than one run was served. */
  lemma WindowIsShared(policy: Policy, rounds: seq<Round>, other: Item)
    requires Chain(policy, Begin, rounds).Some? && |rounds| > policy.consecutiveLimit
    requires other in rounds[|rounds| - 1].items
    requires other.run != ChosenRuns(policy, Begin, rounds)[|rounds| - 1]
    ensures var runs := ChosenRuns(policy, Begin, rounds);
            exists i | |rounds| - policy.consecutiveLimit - 1 <= i < |rounds| :: runs[i] != runs[|rounds| - 1]
  {
    hide Chain, ChosenRuns;
    StreakWithinLimit(policy, rounds);
    var runs := ChosenRuns(policy, Begin, rounds);
    StateIsStreak(policy, rounds);
    if forall i | |rounds| - policy.consecutiveLimit - 1 <= i < |rounds| :: runs[i] == runs[|rounds| - 1] {
      SameRunStreak(runs, policy.consecutiveLimit + 1);
    }
  }
}
