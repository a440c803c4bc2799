/**
 Where the starvation bound ends: once virtual time can saturate, two other runs
 that have reached its maximum pass a waiting run over for as long as they like.
 */
module FairnessSaturation {
  import opened Journal
  import opened Numeric
  import opened Fairness
  import opened FairnessRuns
  import opened FairnessBound

  const NOW: int := 1 + AGE_INTERVAL * 300

  /** An item that has gathered the whole age credit, of a run at the end of virtual time. */
  function Aged(run: string, sequence: uint64): Item {
    Item("item", run, 1, MAX_UINT64, sequence, 1)
  }

  /** An item queued just now. */
  function Late(run: string, weight: uint64, finish: uint64): Item {
    Item("item", run, weight, finish, 3, NOW)
  }

  function Contest(a: string, b: string, run: string, weight: uint64, finish: uint64): Round {
    Round([Aged(a, 1), Aged(b, 2), Late(run, weight, finish)], NOW)
  }

  function Repeated(round: Round, n: nat): seq<Round> {
    seq(n, _ => round)
  }

  /** The two runs stand at the end of virtual time, the waiting one where it stands, and was not the last served. */
  predicate Stuck(p: Progress, a: string, b: string, run: string, finish: uint64) {
    && FinishOf(p, a) == MAX_UINT64 && FinishOf(p, b) == MAX_UINT64 && FinishOf(p, run) == finish
    && Consistent(p.fair) && p.fair.last != run
  }

  predicate Rivals(a: string, b: string, run: string) {
    a != "" && b != "" && run != "" && a != b && a != run && b != run
  }

  lemma SameItemNames(a: string, b: string)
    requires a != b
    ensures a + "\0" + "item" != b + "\0" + "item"
  {
    var x, y := a + "\0" + "item", b + "\0" + "item";
    assert a == x[..|a|] && b == y[..|b|];
    assert |x| == |a| + 5 && |y| == |b| + 5;
  }

  lemma ContestIsRankable(a: string, b: string, run: string, weight: uint64, finish: uint64)
    requires Rivals(a, b, run) && weight != 0
    ensures Rankable(Contest(a, b, run, weight, finish).items)
  {
    SameItemNames(a, b);
    SameItemNames(a, run);
    SameItemNames(b, run);
  }

  lemma AgedRanksFirst(policy: Policy, rival: string, sequence: uint64, run: string, weight: uint64, finish: uint64)
    requires policy.Valid() && weight != 0 && sequence < 3
    requires finish + CeilQuantum(weight).value + policy.maxAgeCredit >= MAX_UINT64
    ensures Before(RankItem(Aged(rival, sequence), NOW, policy), RankItem(Late(run, weight, finish), NOW, policy))
    ensures RankItem(Aged(rival, sequence), NOW, policy).finish == MAX_UINT64
  {
    assert (NOW - 1) / AGE_INTERVAL == 300;
  }

  /** One more round: one of the two is served, and nothing moves. */
  lemma StuckStays(policy: Policy, p: Progress, a: string, b: string, run: string, weight: uint64, finish: uint64, runs: set<string>)
    requires policy.Valid() && weight != 0 && Rivals(a, b, run) && {a, b, run} <= runs && Stuck(p, a, b, run, finish)
    requires finish + CeilQuantum(weight).value + policy.maxAgeCredit >= MAX_UINT64
    ensures var round := Contest(a, b, run, weight, finish);
            Skips(policy, p, round, runs, run, weight) && Stuck(Step(policy, p, round).value, a, b, run, finish)
  {
    hide RankReady, RankItem, Before, Rankable, CeilQuantum;
    var round := Contest(a, b, run, weight, finish);
    var late := Late(run, weight, finish);
    ContestIsRankable(a, b, run, weight, finish);
    SelectsRankable(round.items, p.fair, round.now, policy);
    ChoiceIsBest(round.items, p.fair, round.now, policy);
    AgedRanksFirst(policy, a, 1, run, weight, finish);
    AgedRanksFirst(policy, b, 2, run, weight, finish);
    assert late in round.items && Aged(a, 1) in round.items && Aged(b, 2) in round.items;
    var other := if AtLimit(p.fair, policy) && p.fair.last == a then Aged(b, 2) else Aged(a, 1);
    assert Eligible(round.items, p.fair, policy, other);
    assert Chosen(policy, p, round) != late;
  }

  lemma {:induction false} StuckForever(policy: Policy, p: Progress, a: string, b: string, run: string, weight: uint64, finish: uint64,
                                        runs: set<string>, n: nat)
    requires policy.Valid() && weight != 0 && Rivals(a, b, run) && {a, b, run} <= runs && Stuck(p, a, b, run, finish)
    requires finish + CeilQuantum(weight).value + policy.maxAgeCredit >= MAX_UINT64
    ensures var rounds := Repeated(Contest(a, b, run, weight, finish), n);
            && |rounds| == n && PassedOver(policy, p, rounds, runs, run, weight)
            && Chain(policy, p, rounds).Some? && Stuck(Chain(policy, p, rounds).value, a, b, run, finish)
  {
    hide Skips, Step, Stuck, CeilQuantum;
    var round := Contest(a, b, run, weight, finish);
    if n > 0 {
      StuckForever(policy, p, a, b, run, weight, finish, runs, n - 1);
      var rounds := Repeated(round, n);
      assert rounds[..n - 1] == Repeated(round, n - 1);
      var mid := Chain(policy, p, rounds[..n - 1]).value;
      StuckStays(policy, mid, a, b, run, weight, finish, runs);
      SkipSelects(policy, mid, round, runs, run, weight);
    }
  }

  lemma SkipSelects(policy: Policy, p: Progress, round: Round, runs: set<string>, run: string, weight: uint64)
    requires Skips(policy, p, round, runs, run, weight)
    ensures Step(policy, p, round).Some?
  {
  }

  /** However long, some schedule passes the run over that long. */
  lemma Starves(policy: Policy, a: string, b: string, run: string, weight: uint64, finish: uint64, runs: set<string>, n: nat)
    returns (p: Progress, rounds: seq<Round>)
    requires policy.Valid() && weight != 0 && Rivals(a, b, run) && {a, b, run} <= runs
    requires finish + CeilQuantum(weight).value + policy.maxAgeCredit >= MAX_UINT64
    ensures FinishOf(p, run) == finish && PassedOver(policy, p, rounds, runs, run, weight) && |rounds| == n
  {
    hide PassedOver, CeilQuantum;
    p := Progress(Fresh, map[a := MAX_UINT64, b := MAX_UINT64, run := finish]);
    rounds := Repeated(Contest(a, b, run, weight, finish), n);
    StuckForever(policy, p, a, b, run, weight, finish, runs, n);
  }

  /** No schedule passes the run over more often than this. */
  ghost predicate Bounds(policy: Policy, runs: set<string>, run: string, weight: uint64, finish: uint64, bound: nat) {
    forall p, rounds | FinishOf(p, run) == finish && PassedOver(policy, p, rounds, runs, run, weight) :: |rounds| <= bound
  }

  // With a single competitor the cap alone bounds the wait

  lemma {:induction false} OneRival(policy: Policy, p: Progress, rounds: seq<Round>, runs: set<string>, run: string, weight: uint64, rival: string)
    requires PassedOver(policy, p, rounds, runs, run, weight) && runs <= {run, rival} && policy.Valid()
    ensures |rounds| <= policy.consecutiveLimit && Chain(policy, p, rounds).Some?
    ensures rounds != [] ==>
              var fair := Chain(policy, p, rounds).value.fair;
              fair.last == rival != "" && fair.streak >= |rounds|
  {
    hide Step, Chosen, Fed;
    if rounds != [] {
      var n := |rounds| - 1;
      OneRival(policy, p, rounds[..n], runs, run, weight, rival);
      StepAdvances(policy, Chain(policy, p, rounds[..n]).value, rounds[n]);
    }
  }

  lemma ThirdElement(runs: set<string>, run: string) returns (a: string, b: string)
    requires run in runs && |runs| >= 3
    ensures a in runs && b in runs && a != b && a != run && b != run
  {
    var rest := runs - {run};
    assert runs == rest + {run};
    a :| a in rest;
    assert rest == (rest - {a}) + {a};
    b :| b in rest - {a};
  }

  lemma SecondElement(runs: set<string>, run: string) returns (rival: string)
    requires run in runs && |runs| < 3
    ensures runs <= {run, rival}
  {
    var rest := runs - {run};
    assert runs == rest + {run};
    if rest == {} {
      rival := run;
    } else {
      rival :| rival in rest;
      assert rest == (rest - {rival}) + {rival};
    }
  }

  lemma SmallField(policy: Policy, runs: set<string>, run: string, weight: uint64, finish: uint64)
    requires policy.Valid() && run in runs && |runs| < 3
    ensures Bounds(policy, runs, run, weight, finish, policy.consecutiveLimit)
  {
    hide PassedOver;
    var rival := SecondElement(runs, run);
    forall p, rounds | FinishOf(p, run) == finish && PassedOver(policy, p, rounds, runs, run, weight)
      ensures |rounds| <= policy.consecutiveLimit
    {
      OneRival(policy, p, rounds, runs, run, weight, rival);
    }
  }

  /**
   Exactly when starvation is bounded: a waiting run at this virtual finish is served
   within some fixed number of selections, whatever the others do, if and only if its
   item's virtual finish plus the age credit stays below the 64-bit maximum, or at most
   one other run competes.
   */
  lemma BoundedIff(policy: Policy, runs: set<string>, run: string, weight: uint64, finish: uint64)
    requires policy.Valid() && weight != 0 && run in runs && "" !in runs
    ensures (exists bound :: Bounds(policy, runs, run, weight, finish, bound)) <==>
            finish + CeilQuantum(weight).value + policy.maxAgeCredit < MAX_UINT64 || |runs| < 3
  {
    hide PassedOver, CeilQuantum;
    var horizon := finish + CeilQuantum(weight).value + policy.maxAgeCredit;
    if |runs| < 3 {
      SmallField(policy, runs, run, weight, finish);
    } else if horizon < MAX_UINT64 {
      forall p, rounds | FinishOf(p, run) == finish && PassedOver(policy, p, rounds, runs, run, weight)
        ensures |rounds| <= |runs| * horizon + 1
      {
        NoStarvation(policy, p, rounds, runs, run, weight);
      }
      assert Bounds(policy, runs, run, weight, finish, |runs| * horizon + 1);
    } else {
      var a, b := ThirdElement(runs, run);
      forall bound: nat ensures !Bounds(policy, runs, run, weight, finish, bound) {
        var p, rounds := Starves(policy, a, b, run, weight, finish, runs, bound + 1);
      }
    }
  }
}
