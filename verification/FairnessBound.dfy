/**
 No starvation: a run that keeps an item ready is served within a number of
 selections that depends only on the runs competing and on how far its own
 virtual finish lies ahead.
 */
module FairnessBound {
  import opened Journal
  import opened Numeric
  import opened Sums
  import opened Fairness
  import opened FairnessRuns

  /** An item of the run and weight is ready, all ready items belong to known runs, and another run is served. */
  ghost predicate Skips(policy: Policy, p: Progress, round: Round, runs: set<string>, run: string, weight: uint64) {
    && Step(policy, p, round).Some? && Fed(p, round)
    && (forall item | item in round.items :: item.run in runs)
    && (exists item | item in round.items :: item.run == run && item.weight == weight)
    && Chosen(policy, p, round).run != run
  }

  ghost predicate PassedOver(policy: Policy, p: Progress, rounds: seq<Round>, runs: set<string>, run: string, weight: uint64) {
    rounds == [] ||
    (var prior := rounds[..|rounds| - 1];
     && PassedOver(policy, p, prior, runs, run, weight) && Chain(policy, p, prior).Some?
     && Skips(policy, Chain(policy, p, prior).value, rounds[|rounds| - 1], runs, run, weight))
  }

  /** The farthest virtual finish anything served before the waiting item can reach. */
  function Horizon(policy: Policy, p: Progress, run: string, weight: uint64): nat
    requires weight != 0
  {
    FinishOf(p, run) + CeilQuantum(weight).value + policy.maxAgeCredit
  }

  /** The run was just served up to its limit, so this once others go first whatever their rank. */
  predicate HeldBack(policy: Policy, p: Progress, run: string) {
    AtLimit(p.fair, policy) && p.fair.last == run
  }

  lemma StepMovesOne(policy: Policy, p: Progress, round: Round)
    requires Step(policy, p, round).Some? && Fed(p, round)
    ensures var next, c := Step(policy, p, round).value, Chosen(policy, p, round);
            && c in round.items && c.weight != 0 && policy.agingInterval > 0
            && next.finish == p.finish[c.run := RankItem(c, round.now, policy).finish]
            && next.fair.last == c.run && FinishOf(p, c.run) <= FinishOf(next, c.run)
            && c.virtualStart == FinishOf(p, c.run)
  {
    hide RankReady, Before, Eligible, CeilQuantum;
    ChoiceIsBest(round.items, p.fair, round.now, policy);
    assert Eligible(round.items, p.fair, policy, Chosen(policy, p, round));
    ChosenIsReady(policy, p, round);
  }

  lemma ChosenIsReady(policy: Policy, p: Progress, round: Round)
    requires Step(policy, p, round).Some?
    ensures Chosen(policy, p, round) in round.items && Rankable(round.items)
  {
    hide RankReady, Before, RankItem;
    ChoiceIsBest(round.items, p.fair, round.now, policy);
  }

  lemma WaitingBoundsFinish(c: Ranked, w: Ranked, now: int, policy: Policy, horizon: nat)
    requires policy.Valid() && c.item.weight != 0 && w.item.weight != 0
    requires c == RankItem(c.item, now, policy) && w == RankItem(w.item, now, policy) && !Before(w, c)
    requires w.item.virtualStart + CeilQuantum(w.item.weight).value + policy.maxAgeCredit <= horizon < MAX_UINT64
    ensures c.item.virtualStart < c.finish <= horizon
  {
    assert c.effective <= w.effective <= w.finish;
    assert c.finish <= c.effective + c.credit;
    PositiveQuantum(c.item.weight);
  }

  lemma PositiveQuantum(weight: uint64)
    requires weight != 0
    ensures CeilQuantum(weight).value >= 1
  {
  }

  /** While the waiting run is not held back, whoever is served moves strictly towards the horizon. */
  lemma ServedAdvances(policy: Policy, p: Progress, round: Round, runs: set<string>, run: string, weight: uint64)
    requires Skips(policy, p, round, runs, run, weight) && weight != 0 && !HeldBack(policy, p, run)
    requires Horizon(policy, p, run, weight) < MAX_UINT64
    ensures var next, r := Step(policy, p, round).value, Chosen(policy, p, round).run;
            r in runs && FinishOf(p, r) < FinishOf(next, r) <= Horizon(policy, p, run, weight)
  {
    hide RankReady, CeilQuantum, Before;
    var w :| w in round.items && w.run == run && w.weight == weight;
    StepMovesOne(policy, p, round);
    ChoiceIsBest(round.items, p.fair, round.now, policy);
    var chosen := SelectReady(round.items, p.fair, round.now, policy).value.0;
    assert Eligible(round.items, p.fair, policy, w);
    WaitingBoundsFinish(chosen, RankItem(w, round.now, policy), round.now, policy, Horizon(policy, p, run, weight));
  }

  // The distance left to the horizon, over all runs

  function Gap(p: Progress, horizon: nat, run: string): nat {
    if FinishOf(p, run) < horizon then horizon - FinishOf(p, run) else 0
  }

  function Gaps(p: Progress, horizon: nat, runs: set<string>): map<string, nat> {
    map run | run in runs :: Gap(p, horizon, run)
  }

  lemma GapsAfter(p: Progress, next: Progress, horizon: nat, runs: set<string>, r: string)
    requires r in runs && FinishOf(p, r) <= FinishOf(next, r)
    requires forall x | x != r :: FinishOf(next, x) == FinishOf(p, x)
    ensures Total(Gaps(next, horizon, runs)) <= Total(Gaps(p, horizon, runs))
    ensures FinishOf(p, r) < FinishOf(next, r) <= horizon ==>
              Total(Gaps(next, horizon, runs)) < Total(Gaps(p, horizon, runs))
  {
    var a, b := Gaps(p, horizon, runs), Gaps(next, horizon, runs);
    SumRemove(a, runs, r);
    SumRemove(b, runs, r);
    SumFrame(a, b, runs - {r});
    assert a.Keys == runs && b.Keys == runs;
  }

  lemma {:induction false} SumAtMost(m: map<string, nat>, keys: set<string>, bound: nat)
    requires keys <= m.Keys && forall k | k in keys :: m[k] <= bound
    ensures SumOver(m, keys) <= |keys| * bound
    decreases |keys|
  {
    if keys != {} {
      var k :| k in keys;
      SumRemove(m, keys, k);
      SumAtMost(m, keys - {k}, bound);
      OneMore(|keys - {k}|, bound);
    }
  }

  lemma OneMore(n: nat, bound: nat)
    ensures (n + 1) * bound == n * bound + bound
  {
  }

  lemma GapsAtMost(p: Progress, horizon: nat, runs: set<string>)
    ensures Total(Gaps(p, horizon, runs)) <= |runs| * horizon
  {
    var m := Gaps(p, horizon, runs);
    assert m.Keys == runs;
    SumAtMost(m, runs, horizon);
  }

  lemma SkipShrinks(policy: Policy, p: Progress, round: Round, runs: set<string>, run: string, weight: uint64)
    requires Skips(policy, p, round, runs, run, weight) && weight != 0
    requires Horizon(policy, p, run, weight) < MAX_UINT64
    ensures Step(policy, p, round).Some?
    ensures var next, horizon := Step(policy, p, round).value, Horizon(policy, p, run, weight);
            && Horizon(policy, next, run, weight) == horizon && !HeldBack(policy, next, run)
            && Total(Gaps(next, horizon, runs)) <= Total(Gaps(p, horizon, runs))
            && (!HeldBack(policy, p, run) ==> Total(Gaps(next, horizon, runs)) < Total(Gaps(p, horizon, runs)))
  {
    hide RankItem, CeilQuantum, Step, Chosen, Gaps, Total;
    StepMovesOne(policy, p, round);
    var next, c := Step(policy, p, round).value, Chosen(policy, p, round);
    GapsAfter(p, next, Horizon(policy, p, run, weight), runs, c.run);
    if !HeldBack(policy, p, run) {
      ServedAdvances(policy, p, round, runs, run, weight);
    }
  }

  lemma {:induction false} PassedOverShrinks(policy: Policy, p: Progress, rounds: seq<Round>, runs: set<string>, run: string, weight: uint64)
    requires weight != 0 && PassedOver(policy, p, rounds, runs, run, weight)
    requires Horizon(policy, p, run, weight) < MAX_UINT64
    ensures Chain(policy, p, rounds).Some?
    ensures var after, horizon := Chain(policy, p, rounds).value, Horizon(policy, p, run, weight);
            && Horizon(policy, after, run, weight) == horizon
            && (rounds != [] ==> !HeldBack(policy, after, run))
            && |rounds| + Total(Gaps(after, horizon, runs)) <= Total(Gaps(p, horizon, runs)) + 1
            && (!HeldBack(policy, p, run) ==>
                  |rounds| + Total(Gaps(after, horizon, runs)) <= Total(Gaps(p, horizon, runs)))
  {
    hide Horizon, Gaps, Total, HeldBack, Step, Skips;
    if rounds != [] {
      var n := |rounds| - 1;
      PassedOverShrinks(policy, p, rounds[..n], runs, run, weight);
      SkipShrinks(policy, Chain(policy, p, rounds[..n]).value, rounds[n], runs, run, weight);
      assert n == 0 ==> rounds[..n] == [];
    }
  }

  /** A run with ready work is served after being passed over at most this many times. */
  lemma NoStarvation(policy: Policy, p: Progress, rounds: seq<Round>, runs: set<string>, run: string, weight: uint64)
    requires weight != 0 && PassedOver(policy, p, rounds, runs, run, weight)
    requires Horizon(policy, p, run, weight) < MAX_UINT64
    ensures |rounds| <= |runs| * Horizon(policy, p, run, weight) + 1
  {
    hide Horizon, Gaps, Total, HeldBack, PassedOver;
    PassedOverShrinks(policy, p, rounds, runs, run, weight);
    GapsAtMost(p, Horizon(policy, p, run, weight), runs);
  }
}
