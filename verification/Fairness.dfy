/**
 The fairness scheduler: ranking by aged virtual finish time and the cap on
 consecutive admissions of one run.
 */
module Fairness {
  import opened Wrappers
  import opened Journal
  import opened Numeric
  import opened Ordering

  const AGE_INTERVAL: int := 60_000_000_000
  const MAXIMUM_AGE_CREDIT: uint64 := 300
  const CONSECUTIVE_CAP: uint64 := 2

  datatype Policy = Policy(version: nat, agingInterval: int, maxAgeCredit: uint64, consecutiveLimit: uint64)
  {
    predicate Valid() {
      && version != 0 && agingInterval == AGE_INTERVAL && maxAgeCredit == MAXIMUM_AGE_CREDIT
      && consecutiveLimit == CONSECUTIVE_CAP
    }
  }

  datatype Item = Item(id: string, run: string, weight: uint64, virtualStart: uint64, sequence: uint64, enqueuedAt: int)
  {
    predicate Valid() {
      id != "" && run != "" && sequence != 0 && enqueuedAt != 0
    }
  }

  datatype Ranked = Ranked(item: Item, finish: uint64, credit: uint64, effective: uint64)

  datatype Fair = Fair(last: string, streak: uint64)

  const Fresh: Fair := Fair("", 0)

  // Ranking

  /** The credit is the number of whole intervals waited, or the maximum once that many have passed. */
  predicate Earned(credit: nat, waited: int, interval: int, maximum: nat) {
    if waited < 0 then credit == 0
    else
      || (credit == maximum && maximum * interval <= waited)
      || (credit < maximum && credit * interval <= waited < (credit + 1) * interval)
  }

  function AgeCredit(enqueuedAt: int, now: int, policy: Policy): (credit: uint64)
    requires policy.agingInterval > 0
    ensures Earned(credit, now - enqueuedAt, policy.agingInterval, policy.maxAgeCredit)
  {
    if now < enqueuedAt then 0
    else
      var periods := (now - enqueuedAt) / policy.agingInterval;
      WholeIntervals(now - enqueuedAt, policy.agingInterval, periods, policy.maxAgeCredit);
      SaturatingCap(periods, policy.maxAgeCredit)
  }

  lemma WholeIntervals(waited: int, interval: int, periods: int, maximum: nat)
    requires waited >= 0 && interval > 0 && periods == waited / interval
    ensures 0 <= periods && periods * interval <= waited < (periods + 1) * interval
    ensures maximum <= periods ==> maximum * interval <= waited
  {
    assert waited == interval * periods + waited % interval;
    assert (periods + 1) * interval == periods * interval + interval;
    if maximum <= periods {
      assert periods * interval == maximum * interval + (periods - maximum) * interval;
      ProductNotNegative(interval, periods - maximum);
    }
  }

  lemma {:induction false} EarnedOnce(a: nat, b: nat, waited: int, interval: int, maximum: nat)
    requires interval > 0 && Earned(a, waited, interval, maximum) && Earned(b, waited, interval, maximum)
    ensures a == b
  {
    if a < b {
      FewerIntervals(a, b, interval);
    } else if b < a {
      FewerIntervals(b, a, interval);
    }
  }

  lemma FewerIntervals(a: nat, b: nat, interval: int)
    requires interval > 0 && a < b
    ensures (a + 1) * interval <= b * interval
  {
    ProductNotNegative(interval, b - a - 1);
    assert b * interval == (a + 1) * interval + (b - a - 1) * interval;
  }

  function RankItem(item: Item, now: int, policy: Policy): Ranked
    requires item.weight != 0 && policy.agingInterval > 0
  {
    var finish := SaturatingAdd(item.virtualStart, CeilQuantum(item.weight).value);
    var credit := AgeCredit(item.enqueuedAt, now, policy);
    Ranked(item, finish, credit, SaturatingSub(finish, credit))
  }

  /** The key duplicates are recognised by. */
  function IdentityOf(item: Item): string { item.run + "\0" + item.id }

  predicate Rankable(items: seq<Item>) {
    && (forall item | item in items :: item.Valid() && item.weight != 0)
    && (forall i, j | 0 <= i < j < |items| :: IdentityOf(items[i]) != IdentityOf(items[j]))
  }

  predicate Before(a: Ranked, b: Ranked) {
    if a.effective != b.effective then a.effective < b.effective
    else if a.item.sequence != b.item.sequence then a.item.sequence < b.item.sequence
    else if a.item.run != b.item.run then StringLess(a.item.run, b.item.run)
    else StringLess(a.item.id, b.item.id)
  }

  function RankAll(items: seq<Item>, now: int, policy: Policy): (r: seq<Ranked>)
    requires policy.agingInterval > 0 && forall item | item in items :: item.weight != 0
    ensures |r| == |items| && forall i | 0 <= i < |items| :: r[i] == RankItem(items[i], now, policy)
  {
    seq(|items|, i requires 0 <= i < |items| => assert items[i] in items; RankItem(items[i], now, policy))
  }

  function RankReady(items: seq<Item>, now: int, policy: Policy): Option<seq<Ranked>> {
    if !policy.Valid() || !Rankable(items) then None else Some(Sort(Before, RankAll(items, now, policy)))
  }

  function Identities(items: seq<Item>): set<string> { set item | item in items :: IdentityOf(item) }

  /** What one more item must satisfy, and that no refused prefix recovers. */
  lemma RankableOne(items: seq<Item>, i: nat)
    requires i < |items| && Rankable(items[..i])
    ensures var item := items[i];
            && (Rankable(items[..i + 1]) <==>
                  item.Valid() && item.weight != 0 && IdentityOf(item) !in Identities(items[..i]))
            && (Rankable(items) ==> Rankable(items[..i + 1]))
            && Identities(items[..i + 1]) == Identities(items[..i]) + {IdentityOf(item)}
  {
    hide IdentityOf;
    var item, prior, more := items[i], items[..i], items[..i + 1];
    assert more == prior + [item];
    assert forall x :: x in more <==> x in prior || x == item;
    if IdentityOf(item) in Identities(prior) {
      var k :| 0 <= k < i && IdentityOf(prior[k]) == IdentityOf(item);
      assert IdentityOf(more[k]) == IdentityOf(more[i]);
    }
    if Rankable(items) {
      assert forall x | x in more :: x in items;
    }
  }

  lemma RankAllOne(items: seq<Item>, i: nat, now: int, policy: Policy)
    requires i < |items| && policy.agingInterval > 0 && Rankable(items[..i]) && Rankable(items[..i + 1])
    ensures items[i].weight != 0
    ensures RankAll(items[..i + 1], now, policy) == RankAll(items[..i], now, policy) + [RankItem(items[i], now, policy)]
  {
    hide RankItem, IdentityOf;
    assert items[..i + 1][i] in items[..i + 1];
  }

  /** rankReady: one pass that checks, detects duplicates and computes, then a sort. */
  method RankReadyItems(items: seq<Item>, now: int, policy: Policy) returns (ranked: Option<seq<Ranked>>)
    ensures ranked == RankReady(items, now, policy)
  {
    hide Sort, Before, IdentityOf, Identities, RankItem, RankAll;
    if !policy.Valid() {
      return None;
    }
    NothingRanked(now, policy);
    var list: seq<Ranked>, identities: set<string> := [], {};
    for i := 0 to |items|
      invariant Rankable(items[..i]) && identities == Identities(items[..i])
      invariant list == RankAll(items[..i], now, policy)
    {
      var item := items[i];
      RankableOne(items, i);
      if !item.Valid() || IdentityOf(item) in identities {
        return None;
      }
      identities := identities + {IdentityOf(item)};
      var quantum := CeilQuantum(item.weight);
      if quantum.None? {
        return None;
      }
      RankAllOne(items, i, now, policy);
      list := list + [RankItem(item, now, policy)];
    }
    assert items[..|items|] == items;
    return Some(Sort(Before, list));
  }

  lemma NothingRanked(now: int, policy: Policy)
    requires policy.agingInterval > 0
    ensures Rankable([]) && Identities([]) == {} && RankAll([], now, policy) == []
  {
  }

  // The ranking is a strict total order on what is ranked

  lemma BeforeIsStrict(items: seq<Item>, now: int, policy: Policy)
    requires policy.Valid() && Rankable(items)
    ensures StrictOn(Before, RankAll(items, now, policy))
  {
    hide RankItem;
    StringOrder();
    var list := RankAll(items, now, policy);
    forall x, y | x in list && y in list && x != y ensures Before(x, y) || Before(y, x) {
      var i :| 0 <= i < |list| && list[i] == x;
      var j :| 0 <= j < |list| && list[j] == y;
      RankKeepsItem(items[i], now, policy);
      RankKeepsItem(items[j], now, policy);
    }
  }

  lemma RankKeepsItem(item: Item, now: int, policy: Policy)
    requires item.weight != 0 && policy.agingInterval > 0
    ensures RankItem(item, now, policy).item == item
  {
  }

  lemma {:induction false} RankAllPermutes(items: seq<Item>, now: int, policy: Policy, x: Ranked)
    requires policy.agingInterval > 0 && forall item | item in items :: item.weight != 0
    ensures multiset(RankAll(items, now, policy))[x] ==
            (if x.item.weight != 0 && x == RankItem(x.item, now, policy) then multiset(items)[x.item] else 0)
  {
    hide RankItem;
    var list := RankAll(items, now, policy);
    if items != [] {
      var n := |items| - 1;
      RankAllPermutes(items[..n], now, policy, x);
      assert items == items[..n] + [items[n]];
      assert list == RankAll(items[..n], now, policy) + [RankItem(items[n], now, policy)];
      assert items[n] in items;
      RankKeepsItem(items[n], now, policy);
    }
  }

  lemma RankableIgnoresOrder(a: seq<Item>, b: seq<Item>)
    requires multiset(a) == multiset(b) && Rankable(a)
    ensures Rankable(b)
  {
    SameElements(a, b);
    forall i, j | 0 <= i < j < |b| ensures IdentityOf(b[i]) != IdentityOf(b[j]) {
      if IdentityOf(b[i]) == IdentityOf(b[j]) {
        assert b[i] in a && b[j] in a;
        var k :| 0 <= k < |a| && a[k] == b[i];
        var m :| 0 <= m < |a| && a[m] == b[j];
        assert k == m;
        TwiceIn(b, i, j);
        OnceIn(a, k);
        assert false;
      }
    }
  }

  lemma TwiceIn(s: seq<Item>, i: nat, j: nat)
    requires i < j < |s| && s[i] == s[j]
    ensures multiset(s)[s[i]] >= 2
  {
    assert s == s[..j] + [s[j]] + s[j + 1..];
    assert s[i] in s[..j];
    assert multiset(s[..j])[s[i]] >= 1;
  }

  lemma OnceIn(s: seq<Item>, k: nat)
    requires k < |s| && forall i, j | 0 <= i < j < |s| :: s[i] != s[j]
    ensures multiset(s)[s[k]] == 1
  {
    assert s == s[..k] + [s[k]] + s[k + 1..];
    assert s[k] !in s[..k] && s[k] !in s[k + 1..];
  }

  /** The ranking does not depend on the order the items arrive in. */
  lemma RankIgnoresOrder(a: seq<Item>, b: seq<Item>, now: int, policy: Policy)
    requires multiset(a) == multiset(b)
    ensures RankReady(a, now, policy) == RankReady(b, now, policy)
  {
    hide Sort, RankItem, Rankable;
    if Rankable(a) {
      RankableIgnoresOrder(a, b);
    }
    if Rankable(b) {
      RankableIgnoresOrder(b, a);
    }
    if policy.Valid() && Rankable(a) {
      assert multiset(RankAll(a, now, policy)) == multiset(RankAll(b, now, policy)) by {
        forall x ensures multiset(RankAll(a, now, policy))[x] == multiset(RankAll(b, now, policy))[x] {
          WeightsPositive(a);
          WeightsPositive(b);
          RankAllPermutes(a, now, policy, x);
          RankAllPermutes(b, now, policy, x);
        }
      }
      BeforeIsStrict(a, now, policy);
      SortIgnoresInputOrder(Before, RankAll(a, now, policy), RankAll(b, now, policy));
    }
  }

  lemma WeightsPositive(items: seq<Item>)
    requires Rankable(items)
    ensures forall item | item in items :: item.weight != 0
  {
  }

  // Selection

  function AdvanceFairness(state: Fair, run: string): Fair {
    if state.last == run then state.(streak := SaturatingAdd(state.streak, 1)) else Fair(run, 1)
  }

  predicate Consistent(state: Fair) { state.last == "" <==> state.streak == 0 }

  function FirstOther(ranked: seq<Ranked>, run: string): (k: nat)
    ensures k <= |ranked| && (k < |ranked| ==> ranked[k].item.run != run)
    ensures forall i | 0 <= i < k :: ranked[i].item.run == run
  {
    if ranked == [] then 0
    else if ranked[0].item.run != run then 0
    else 1 + FirstOther(ranked[1..], run)
  }

  predicate AtLimit(state: Fair, policy: Policy) {
    state.last != "" && state.streak >= policy.consecutiveLimit
  }

  function Choose(ranked: seq<Ranked>, state: Fair, policy: Policy): Ranked
    requires ranked != []
  {
    var k := FirstOther(ranked, state.last);
    if AtLimit(state, policy) && k < |ranked| then ranked[k] else ranked[0]
  }

  function SelectReady(items: seq<Item>, state: Fair, now: int, policy: Policy): Option<(Ranked, Fair)> {
    if items == [] || !Consistent(state) then None
    else
      match RankReady(items, now, policy)
      case None => None
      case Some(ranked) =>
        if ranked == [] then None
        else
          var chosen := Choose(ranked, state, policy);
          Some((chosen, AdvanceFairness(state, chosen.item.run)))
  }

  method SelectReadyItem(items: seq<Item>, state: Fair, now: int, policy: Policy) returns (r: Option<(Ranked, Fair)>)
    ensures r == SelectReady(items, state, now, policy)
  {
    hide RankReady;
    if items == [] || !Consistent(state) {
      return None;
    }
    var ranked := RankReadyItems(items, now, policy);
    if ranked.None? || ranked.value == [] {
      return None;
    }
    var list := ranked.value;
    var selected := list[0];
    if state.last != "" && state.streak >= policy.consecutiveLimit {
      for i := 0 to |list|
        invariant forall k | 0 <= k < i :: list[k].item.run == state.last
        invariant selected == list[0]
      {
        if list[i].item.run != state.last {
          FirstOtherIs(list, state.last, i);
          selected := list[i];
          return Some((selected, AdvanceFairness(state, selected.item.run)));
        }
      }
    }
    return Some((selected, AdvanceFairness(state, selected.item.run)));
  }

  lemma FirstOtherIs(ranked: seq<Ranked>, run: string, k: nat)
    requires k < |ranked| && ranked[k].item.run != run
    requires forall i | 0 <= i < k :: ranked[i].item.run == run
    ensures FirstOther(ranked, run) == k
  {
  }

  lemma SelectsRankable(items: seq<Item>, state: Fair, now: int, policy: Policy)
    ensures SelectReady(items, state, now, policy).Some? <==>
            items != [] && Consistent(state) && policy.Valid() && Rankable(items)
  {
    hide Sort, Before, RankItem;
    if policy.Valid() && Rankable(items) {
      SameElements(Sort(Before, RankAll(items, now, policy)), RankAll(items, now, policy));
    }
  }

  /** Complete items, told apart by run and name joined with a zero character. */
  predicate Selectable(items: seq<Item>) {
    && (forall x | x in items :: x.id != "" && x.run != "" && x.weight > 0 && x.sequence > 0 && x.enqueuedAt != 0)
    && (forall i, j | 0 <= i < j < |items| :: items[i].run + "\0" + items[i].id != items[j].run + "\0" + items[j].id)
  }

  /** Exactly when a selection is made. */
  lemma SelectAnswersIff(items: seq<Item>, state: Fair, now: int, policy: Policy)
    ensures SelectReady(items, state, now, policy).Some? <==>
            && items != [] && Selectable(items) && (state.last == "" <==> state.streak == 0)
            && policy == Policy(policy.version, 60_000_000_000, 300, 2) && policy.version != 0
  {
    hide SelectReady;
    SelectsRankable(items, state, now, policy);
    assert Selectable(items) <==> Rankable(items) by {
      assert forall x: Item :: IdentityOf(x) == x.run + "\0" + x.id;
    }
  }

  lemma SelectIgnoresOrder(a: seq<Item>, b: seq<Item>, state: Fair, now: int, policy: Policy)
    requires multiset(a) == multiset(b)
    ensures SelectReady(a, state, now, policy) == SelectReady(b, state, now, policy)
  {
    hide RankReady;
    SameElements(a, b);
    RankIgnoresOrder(a, b, now, policy);
  }

  /** Ranked among those the cap leaves eligible: everything, or the other runs when the last one is at its limit. */
  predicate Eligible(items: seq<Item>, state: Fair, policy: Policy, item: Item) {
    && item in items
    && (AtLimit(state, policy) && (exists other | other in items :: other.run != state.last) ==> item.run != state.last)
  }

  /** The ranked list holds each item's rank and nothing else, in order. */
  lemma RankedAre(items: seq<Item>, now: int, policy: Policy)
    requires policy.Valid() && Rankable(items)
    ensures var ranked := Sort(Before, RankAll(items, now, policy));
            && Sorted(Before, ranked) && StrictOn(Before, ranked)
            && (forall x | x in ranked :: x.item in items && x == RankItem(x.item, now, policy))
            && (forall item | item in items :: RankItem(item, now, policy) in ranked && RankItem(item, now, policy).item == item)
  {
    hide Sort, Sorted, StrictOn, RankItem, Before, IdentityOf;
    var list := RankAll(items, now, policy);
    BeforeIsStrict(items, now, policy);
    SortSorts(Before, list);
    forall x | x in list ensures x.item in items && x == RankItem(x.item, now, policy) {
      var i :| 0 <= i < |list| && list[i] == x;
      RankKeepsItem(items[i], now, policy);
    }
    forall item | item in items ensures RankItem(item, now, policy) in list && RankItem(item, now, policy).item == item {
      var i :| 0 <= i < |items| && items[i] == item;
      assert list[i] in list;
      RankKeepsItem(item, now, policy);
    }
  }

  /** At the limit the choice leaves the last run if anything else is ranked, and nothing it may take ranks before it. */
  lemma ChooseIsFirst(ranked: seq<Ranked>, state: Fair, policy: Policy, x: Ranked)
    requires Sorted(Before, ranked) && StrictOn(Before, ranked) && x in ranked
    ensures Choose(ranked, state, policy) in ranked
    ensures AtLimit(state, policy) && x.item.run != state.last ==> Choose(ranked, state, policy).item.run != state.last
    ensures (AtLimit(state, policy) && Choose(ranked, state, policy).item.run != state.last ==> x.item.run != state.last) ==>
              !Before(x, Choose(ranked, state, policy))
  {
    hide Before, StrictOn;
    var chosen := Choose(ranked, state, policy);
    var i :| 0 <= i < |ranked| && ranked[i] == x;
    IrreflexiveOn(ranked, x);
  }

  /** The choice is eligible and no eligible item ranks before it. */
  lemma ChoiceIsBest(items: seq<Item>, state: Fair, now: int, policy: Policy)
    requires SelectReady(items, state, now, policy).Some?
    ensures var chosen := SelectReady(items, state, now, policy).value.0;
            && policy.Valid() && Rankable(items)
            && Eligible(items, state, policy, chosen.item) && chosen == RankItem(chosen.item, now, policy)
            && forall item | Eligible(items, state, policy, item) :: !Before(RankItem(item, now, policy), chosen)
  {
    hide Sort, Sorted, StrictOn, RankItem, Before, Choose, Rankable, RankAll, AdvanceFairness, FirstOther;
    WeightsPositive(items);
    var ranked := Sort(Before, RankAll(items, now, policy));
    RankedAre(items, now, policy);
    var chosen := Choose(ranked, state, policy);
    forall item | item in items
      ensures chosen in ranked
      ensures AtLimit(state, policy) && item.run != state.last ==> chosen.item.run != state.last
      ensures (AtLimit(state, policy) && chosen.item.run != state.last ==> item.run != state.last) ==>
                !Before(RankItem(item, now, policy), chosen)
    {
      ChooseIsFirst(ranked, state, policy, RankItem(item, now, policy));
    }
    assert items[0] in items;
  }

  // The choice in plain numbers

  /** Virtual finish less the age credit, floored at zero and capped at the 64-bit maximum. */
  function Score(item: Item, credit: nat): int
    requires item.weight != 0
  {
    var finish := item.virtualStart + CeilQuantum(item.weight).value;
    var capped := if finish > MAX_UINT64 then MAX_UINT64 else finish;
    if capped < credit then 0 else capped - credit
  }

  /** Lower score first, then the earlier queue sequence, then run and item names. */
  predicate Precedes(a: Item, x: int, b: Item, y: int) {
    || x < y
    || (x == y && a.sequence < b.sequence)
    || (x == y && a.sequence == b.sequence && StringLess(a.run, b.run))
    || (x == y && a.sequence == b.sequence && a.run == b.run && StringLess(a.id, b.id))
  }

  /** The last run has been served twice running, and an item of another run is ready. */
  predicate MustAlternate(items: seq<Item>, state: Fair) {
    state.last != "" && state.streak >= 2 && exists other | other in items :: other.run != state.last
  }

  /**
   The item chosen is, among all items or among those of other runs when the last run
   has been served twice, the one that precedes every other, each scored by its virtual
   finish less one for every whole minute it has waited, at most 300.
   */
  lemma ChoiceLaw(items: seq<Item>, state: Fair, now: int, policy: Policy, other: Item, mine: nat, theirs: nat)
    requires SelectReady(items, state, now, policy).Some?
    requires Earned(mine, now - SelectReady(items, state, now, policy).value.0.item.enqueuedAt, 60_000_000_000, 300)
    requires Earned(theirs, now - other.enqueuedAt, 60_000_000_000, 300)
    ensures var chosen := SelectReady(items, state, now, policy).value.0.item;
            && chosen in items && chosen.weight != 0
            && (MustAlternate(items, state) ==> chosen.run != state.last)
            && (other in items && other != chosen && (MustAlternate(items, state) ==> other.run != state.last) ==>
                  other.weight != 0 && Precedes(chosen, Score(chosen, mine), other, Score(other, theirs)))
  {
    hide RankReady, CeilQuantum, Earned, RankItem, Before, Precedes, Score, AgeCredit;
    ChoiceIsBest(items, state, now, policy);
    var chosen := SelectReady(items, state, now, policy).value.0;
    EarnedOnce(mine, AgeCredit(chosen.item.enqueuedAt, now, policy), now - chosen.item.enqueuedAt, AGE_INTERVAL, MAXIMUM_AGE_CREDIT);
    ScoreIsEffective(chosen.item, now, policy);
    if other in items && other != chosen.item && (MustAlternate(items, state) ==> other.run != state.last) {
      EarnedOnce(theirs, AgeCredit(other.enqueuedAt, now, policy), now - other.enqueuedAt, AGE_INTERVAL, MAXIMUM_AGE_CREDIT);
      assert Eligible(items, state, policy, other);
      ScoreIsEffective(other, now, policy);
      ToldApart(items, chosen.item, other);
      RankKeepsItem(other, now, policy);
      NotBeforePrecedes(chosen, RankItem(other, now, policy));
    }
  }

  lemma ScoreIsEffective(item: Item, now: int, policy: Policy)
    requires item.weight != 0 && policy.agingInterval > 0
    ensures Score(item, AgeCredit(item.enqueuedAt, now, policy)) == RankItem(item, now, policy).effective
  {
    hide AgeCredit, CeilQuantum;
  }

  lemma NotBeforePrecedes(a: Ranked, b: Ranked)
    requires !Before(b, a) && (a.item.run != b.item.run || a.item.id != b.item.id)
    requires StringLess(a.item.run, b.item.run) || a.item.run == b.item.run || StringLess(b.item.run, a.item.run)
    requires StringLess(a.item.id, b.item.id) || a.item.id == b.item.id || StringLess(b.item.id, a.item.id)
    ensures Precedes(a.item, a.effective, b.item, b.effective)
  {
    hide StringLess;
  }

  lemma ToldApart(items: seq<Item>, a: Item, b: Item)
    requires Rankable(items) && a in items && b in items && a != b
    ensures a.run != b.run || a.id != b.id
    ensures StringLess(a.run, b.run) || a.run == b.run || StringLess(b.run, a.run)
    ensures StringLess(a.id, b.id) || a.id == b.id || StringLess(b.id, a.id)
  {
    StringOrder();
    var i :| 0 <= i < |items| && items[i] == a;
    var j :| 0 <= j < |items| && items[j] == b;
    assert i != j;
  }

  lemma IrreflexiveOn(ranked: seq<Ranked>, x: Ranked)
    requires StrictOn(Before, ranked) && x in ranked
    ensures !Before(x, x)
  {
  }

  // Age and identity

  lemma DivisionGrows(x: int, y: int, d: int)
    requires 0 <= x <= y && d > 0
    ensures 0 <= x / d <= y / d
  {
    var p, q := x / d, y / d;
    assert x == d * p + x % d && y == d * q + y % d;
    assert d * (q - p) == d * q - d * p;
    NotBelow(d, q - p);
  }

  lemma NotBelow(d: int, k: int)
    requires d > 0 && d * k > -d
    ensures k >= 0
  {
    if k < 0 {
      ProductNotNegative(d, -k - 1);
    }
  }

  lemma {:induction false} ProductNotNegative(d: int, m: int)
    requires d > 0 && m >= 0
    ensures d * m >= 0 && d * (-m - 1) == -(d * m) - d
  {
    if m > 0 {
      ProductNotNegative(d, m - 1);
      assert d * m == d * (m - 1) + d;
    }
  }

  /** Waiting longer never earns less credit. */
  lemma CreditGrows(earlier: int, later: int, now: int, policy: Policy)
    requires policy.agingInterval > 0 && earlier <= later
    ensures AgeCredit(later, now, policy) <= AgeCredit(earlier, now, policy)
  {
    if later <= now {
      DivisionGrows(now - later, now - earlier, policy.agingInterval);
    }
  }

  /** Of two items alike in weight and start, the one that has waited longer and came first ranks first. */
  lemma OlderRanksFirst(a: Item, b: Item, now: int, policy: Policy)
    requires policy.Valid() && a.weight == b.weight != 0 && a.virtualStart == b.virtualStart
    requires a.enqueuedAt <= b.enqueuedAt && a.sequence < b.sequence
    ensures Before(RankItem(a, now, policy), RankItem(b, now, policy))
  {
    CreditGrows(a.enqueuedAt, b.enqueuedAt, now, policy);
  }

  /** Run names without a zero character make the duplicate key exact. */
  lemma IdentityIsExact(a: Item, b: Item)
    requires '\0' !in a.run && '\0' !in b.run
    ensures IdentityOf(a) == IdentityOf(b) <==> a.run == b.run && a.id == b.id
  {
    var x, y := IdentityOf(a), IdentityOf(b);
    if x == y {
      assert x[|a.run|] == '\0' && y[|b.run|] == '\0';
      assert a.run == x[..|a.run|] == y[..|b.run|] == b.run;
      assert a.id == x[|a.run| + 1..] == y[|b.run| + 1..] == b.id;
    }
  }
}
