/**
 No starvation in queue order.  Where queue sequences grow, later items are queued no
 earlier by the clock, and a served item leaves the queue, a waiting run is served
 within a bound that needs nothing of virtual time, saturated or not.
 */
module FairnessQueue {
  import opened Numeric
  import opened Sums
  import opened Fairness
  import opened FairnessRuns
  import opened FairnessBound

  type Name = (string, string)

  function NameOf(item: Item): Name { (item.run, item.id) }

  /** The items served so far. */
  function Served(policy: Policy, p: Progress, rounds: seq<Round>): set<Name>
    requires Chain(policy, p, rounds).Some?
  {
    if rounds == [] then {}
    else
      var n := |rounds| - 1;
      Served(policy, p, rounds[..n]) + {NameOf(Chosen(policy, Chain(policy, p, rounds[..n]).value, rounds[n]))}
  }

  /** Queued before the waiting item and not served yet, or queued after it, by sequence and by clock. */
  predicate InQueue(item: Item, w: Item, ahead: set<Name>) {
    || (item.sequence == w.sequence && NameOf(item) == NameOf(w))
    || (item.sequence < w.sequence && NameOf(item) in ahead)
    || (item.sequence > w.sequence && item.enqueuedAt >= w.enqueuedAt)
  }

  /** The waiting item is ready, everything ready is in queue order, and another run is served. */
  ghost predicate Defers(policy: Policy, p: Progress, round: Round, runs: set<string>, w: Item, ahead: set<Name>) {
    && Step(policy, p, round).Some? && Fed(p, round)
    && (forall item | item in round.items :: item.run in runs && InQueue(item, w, ahead))
    && w.(virtualStart := FinishOf(p, w.run)) in round.items
    && Chosen(policy, p, round).run != w.run
  }

  ghost predicate Deferred(policy: Policy, p: Progress, rounds: seq<Round>, runs: set<string>, w: Item, ahead: set<Name>) {
    rounds == [] ||
    (var prior := rounds[..|rounds| - 1];
     && Deferred(policy, p, prior, runs, w, ahead) && Chain(policy, p, prior).Some?
     && Defers(policy, Chain(policy, p, prior).value, rounds[|rounds| - 1], runs, w, ahead - Served(policy, p, prior)))
  }

  /** The waiting item's own virtual finish. */
  function Goal(p: Progress, w: Item): uint64
    requires w.weight != 0
  {
    SaturatingAdd(FinishOf(p, w.run), CeilQuantum(w.weight).value)
  }

  /** A later item that ranks first finishes strictly before the waiting one, so its virtual time still moves. */
  lemma NewerFinishesBefore(c: Ranked, w: Ranked, now: int, policy: Policy)
    requires policy.Valid() && c.item.weight != 0 && w.item.weight != 0
    requires c == RankItem(c.item, now, policy) && w == RankItem(w.item, now, policy) && !Before(w, c)
    requires c.item.sequence > w.item.sequence && c.item.enqueuedAt >= w.item.enqueuedAt
    ensures c.item.virtualStart < c.finish < w.finish
  {
    CreditGrows(w.item.enqueuedAt, c.item.enqueuedAt, now, policy);
    PositiveQuantum(c.item.weight);
    assert c.effective < w.effective;
  }

  /** Unless the waiting run is held back, an item ahead of it is served, or a run moves towards the goal. */
  lemma DeferProgresses(policy: Policy, p: Progress, round: Round, runs: set<string>, w: Item, ahead: set<Name>)
    requires Defers(policy, p, round, runs, w, ahead) && w.weight != 0 && !HeldBack(policy, p, w.run)
    ensures var next, c := Step(policy, p, round).value, Chosen(policy, p, round);
            && c.run in runs
            && (NameOf(c) in ahead || FinishOf(p, c.run) < FinishOf(next, c.run) <= Goal(p, w))
  {
    hide RankReady, CeilQuantum, Before;
    var here := w.(virtualStart := FinishOf(p, w.run));
    StepMovesOne(policy, p, round);
    ChoiceIsBest(round.items, p.fair, round.now, policy);
    var chosen := SelectReady(round.items, p.fair, round.now, policy).value.0;
    assert Eligible(round.items, p.fair, policy, here);
    assert InQueue(chosen.item, w, ahead);
    if chosen.item.sequence > w.sequence {
      NewerFinishesBefore(chosen, RankItem(here, round.now, policy), round.now, policy);
    }
  }

  lemma DeferShrinks(policy: Policy, p: Progress, round: Round, runs: set<string>, w: Item, ahead: set<Name>)
    requires Defers(policy, p, round, runs, w, ahead) && w.weight != 0
    ensures Step(policy, p, round).Some?
    ensures var next, left := Step(policy, p, round).value, ahead - {NameOf(Chosen(policy, p, round))};
            && Goal(next, w) == Goal(p, w) && !HeldBack(policy, next, w.run)
            && |left| + Total(Gaps(next, Goal(p, w), runs)) <= |ahead| + Total(Gaps(p, Goal(p, w), runs))
            && (!HeldBack(policy, p, w.run) ==>
                  |left| + Total(Gaps(next, Goal(p, w), runs)) < |ahead| + Total(Gaps(p, Goal(p, w), runs)))
  {
    hide RankItem, CeilQuantum, Step, Chosen, Gaps, Total, InQueue;
    StepMovesOne(policy, p, round);
    var next, c := Step(policy, p, round).value, Chosen(policy, p, round);
    GapsAfter(p, next, Goal(p, w), runs, c.run);
    if NameOf(c) in ahead {
      assert ahead == (ahead - {NameOf(c)}) + {NameOf(c)};
    } else {
      assert ahead - {NameOf(c)} == ahead;
    }
    if !HeldBack(policy, p, w.run) {
      DeferProgresses(policy, p, round, runs, w, ahead);
    }
  }

  lemma {:induction false} DeferredShrinks(policy: Policy, p: Progress, rounds: seq<Round>, runs: set<string>, w: Item, ahead: set<Name>)
    requires w.weight != 0 && Deferred(policy, p, rounds, runs, w, ahead)
    ensures Chain(policy, p, rounds).Some?
    ensures var after, goal := Chain(policy, p, rounds).value, Goal(p, w);
            var left := ahead - Served(policy, p, rounds);
            && Goal(after, w) == goal && (rounds != [] ==> !HeldBack(policy, after, w.run))
            && |rounds| + |left| + Total(Gaps(after, goal, runs)) <= |ahead| + Total(Gaps(p, goal, runs)) + 1
            && (!HeldBack(policy, p, w.run) ==>
                  |rounds| + |left| + Total(Gaps(after, goal, runs)) <= |ahead| + Total(Gaps(p, goal, runs)))
  {
    hide Goal, Gaps, Total, HeldBack, Step, Defers, Chosen;
    if rounds == [] {
      assert ahead - Served(policy, p, rounds) == ahead;
    } else {
      var n := |rounds| - 1;
      DeferredShrinks(policy, p, rounds[..n], runs, w, ahead);
      var mid, left := Chain(policy, p, rounds[..n]).value, ahead - Served(policy, p, rounds[..n]);
      DeferShrinks(policy, mid, rounds[n], runs, w, left);
      assert left - {NameOf(Chosen(policy, mid, rounds[n]))} == ahead - Served(policy, p, rounds);
    }
  }

  /** In queue order a waiting run is deferred at most once more than the items ahead of it plus the runs times its goal. */
  lemma ServedInQueueOrder(policy: Policy, p: Progress, rounds: seq<Round>, runs: set<string>, w: Item, ahead: set<Name>)
    requires w.weight != 0 && Deferred(policy, p, rounds, runs, w, ahead)
    ensures |rounds| <= |ahead| + |runs| * Goal(p, w) + 1
  {
    hide Goal, Gaps, Total, HeldBack, Deferred, Served;
    DeferredShrinks(policy, p, rounds, runs, w, ahead);
    GapsAtMost(p, Goal(p, w), runs);
  }
}
