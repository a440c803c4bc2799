/**
 The installation view accepts a journal exactly when its positions count up, no
 identifier repeats, no action crosses runs, and every run's own view accepts
 what belongs to that run.
 */
module RebuilderViews {
  import opened Wrappers
  import opened Journal
  import opened Rebuilders

  function OfRun<P>(events: seq<Event<P>>, run: string): seq<Event<P>> {
    if events == [] then []
    else
      var n := |events| - 1;
      OfRun(events[..n], run) + (if events[n].run == run then [events[n]] else [])
  }

  lemma {:induction false} OfRunCounts<P>(events: seq<Event<P>>, run: string)
    ensures |OfRun(events, run)| == CountRun(events, run)
    ensures forall e :: e in OfRun(events, run) <==> e in events && e.run == run
  {
    if events != [] {
      var n := |events| - 1;
      OfRunCounts(events[..n], run);
      assert forall e :: e in events <==> e in events[..n] || e == events[n];
    }
  }

  /** All events of the action belong to the run. */
  ghost predicate StaysIn<P>(events: seq<Event<P>>, a: ActionId, run: string) {
    forall e | e in events && e.action == a :: e.run == run
  }

  lemma HistoryOne<P>(events: seq<Event<P>>, e: Event<P>, a: ActionId)
    ensures ActionHistory(events + [e], a) == ActionHistory(events, a) + (if e.action == a then [e] else [])
  {
    assert (events + [e])[..|events|] == events;
  }

  lemma {:induction false} SameHistory<P>(events: seq<Event<P>>, a: ActionId, run: string)
    requires StaysIn(events, a, run)
    ensures ActionHistory(OfRun(events, run), a) == ActionHistory(events, a)
  {
    if events != [] {
      var n := |events| - 1;
      var prior, e := events[..n], events[n];
      assert events == prior + [e];
      assert StaysIn(prior, a, run) && (e.action == a ==> e.run == run) by {
        assert e in events;
      }
      SameHistory(prior, a, run);
      hide ActionHistory, StaysIn;
      HistoryOne(prior, e, a);
      HistoryOne(OfRun(prior, run), e, a);
      assert OfRun(prior, run) + [] == OfRun(prior, run);
    }
  }

  /** What an event means for its action is the same in the run's view and in the installation's. */
  lemma SameActionStep<P(!new)>(rule: Rule<P>, prior: seq<Event<P>>, e: Event<P>)
    requires !CrossesRuns(prior, e)
    ensures ActionStep(rule, OfRun(prior, e.run), e) <==> ActionStep(rule, prior, e)
  {
    if !e.action.NoAction? {
      OfRunCounts(prior, e.run);
      SameHistory(prior, e.action, e.run);
    }
  }

  ghost predicate Counted<P>(events: seq<Event<P>>) {
    forall i | 0 <= i < |events| :: events[i].position == i + 1
  }

  ghost predicate IdsUnique<P>(events: seq<Event<P>>) {
    forall i, j | 0 <= i < j < |events| :: events[i].id != events[j].id
  }

  ghost predicate NoCrossing<P>(events: seq<Event<P>>) {
    forall i | 0 <= i < |events| :: !CrossesRuns(events[..i], events[i])
  }

  lemma {:induction false} InstallationFacts<P(!new)>(rule: Rule<P>, events: seq<Event<P>>)
    requires InstallationAccepted(rule, events)
    ensures Counted(events) && IdsUnique(events) && NoCrossing(events)
  {
    hide ActionStep, ValidEvent, CountRun, CrossesRuns;
    forall i | 0 <= i < |events| ensures events[i].position == i + 1 && !CrossesRuns(events[..i], events[i]) {
      InstallationPrefix(rule, events, i);
    }
    forall i, j | 0 <= i < j < |events| ensures events[i].id != events[j].id {
      InstallationPrefix(rule, events, j);
      assert events[i] in events[..j];
    }
  }

  lemma {:induction false} OfRunPositions<P>(events: seq<Event<P>>, run: string)
    requires Counted(events)
    ensures forall e | e in OfRun(events, run) :: e.position <= |events|
  {
    if events != [] {
      OfRunPositions(events[..|events| - 1], run);
    }
  }

  /** One more event, seen from its own run. */
  lemma RunSeesStep<P(!new)>(rule: Rule<P>, prior: seq<Event<P>>, e: Event<P>)
    requires Counted(prior) && e.position == |prior| + 1 && !UsedId(prior, e.id) && !CrossesRuns(prior, e)
    ensures InstallationStep(rule, prior, e) <==> RunStep(rule, OfRun(prior, e.run), e)
  {
    hide ActionStep, ValidEvent;
    var mine := OfRun(prior, e.run);
    OfRunCounts(prior, e.run);
    OfRunPositions(prior, e.run);
    SameActionStep(rule, prior, e);
    if mine != [] {
      assert mine[0] in mine && mine[|mine| - 1] in mine;
    }
  }

  /** Whatever the installation view accepts, each run's view accepts, ending at that run's event count. */
  lemma {:induction false} InstallationMeansRuns<P(!new)>(rule: Rule<P>, events: seq<Event<P>>, run: string)
    requires InstallationAccepted(rule, events)
    ensures RunAccepted(rule, OfRun(events, run)) && |OfRun(events, run)| == CountRun(events, run)
  {
    OfRunCounts(events, run);
    if events != [] {
      hide InstallationStep, RunStep, Counted, IdsUnique, NoCrossing;
      var n := |events| - 1;
      var prior, e := events[..n], events[n];
      InstallationMeansRuns(rule, prior, run);
      if e.run == run {
        InstallationFacts(rule, prior);
        StepFacts(rule, prior, e);
        RunSeesStep(rule, prior, e);
        assert (OfRun(prior, run) + [e])[..|OfRun(prior, run)|] == OfRun(prior, run);
      } else {
        assert OfRun(prior, run) + [] == OfRun(prior, run);
      }
    }
  }

  lemma StepFacts<P(!new)>(rule: Rule<P>, prior: seq<Event<P>>, e: Event<P>)
    requires InstallationStep(rule, prior, e)
    ensures e.position == |prior| + 1 && !UsedId(prior, e.id) && !CrossesRuns(prior, e)
  {
  }

  ghost predicate RunsAccepted<P(!new)>(rule: Rule<P>, events: seq<Event<P>>) {
    forall run :: RunAccepted(rule, OfRun(events, run))
  }

  lemma RunsAcceptedBefore<P(!new)>(rule: Rule<P>, events: seq<Event<P>>)
    requires RunsAccepted(rule, events) && events != []
    ensures var n := |events| - 1;
            && RunsAccepted(rule, events[..n])
            && RunStep(rule, OfRun(events[..n], events[n].run), events[n])
  {
    hide RunStep;
    var n := |events| - 1;
    var prior, e := events[..n], events[n];
    forall run ensures RunAccepted(rule, OfRun(prior, run)) {
      assert RunAccepted(rule, OfRun(events, run));
      if e.run == run {
        assert (OfRun(prior, run) + [e])[..|OfRun(prior, run)|] == OfRun(prior, run);
      } else {
        assert OfRun(prior, run) + [] == OfRun(prior, run);
      }
    }
    assert RunAccepted(rule, OfRun(events, e.run));
    assert (OfRun(prior, e.run) + [e])[..|OfRun(prior, e.run)|] == OfRun(prior, e.run);
  }

  lemma {:induction false} RunsMeanInstallation<P(!new)>(rule: Rule<P>, events: seq<Event<P>>)
    requires Counted(events) && IdsUnique(events) && NoCrossing(events) && RunsAccepted(rule, events)
    ensures InstallationAccepted(rule, events)
  {
    if events != [] {
      hide RunsAccepted, RunStep, InstallationStep, CrossesRuns;
      var n := |events| - 1;
      var prior, e := events[..n], events[n];
      RunsAcceptedBefore(rule, events);
      forall i | 0 <= i < n ensures !CrossesRuns(prior[..i], prior[i]) {
        assert prior[..i] == events[..i];
      }
      RunsMeanInstallation(rule, prior);
      RunSeesStep(rule, prior, e);
    }
  }

  /** The two views agree, for any rule on action histories. */
  lemma InstallationIffRuns<P(!new)>(rule: Rule<P>, events: seq<Event<P>>)
    ensures InstallationAccepted(rule, events) <==>
            Counted(events) && IdsUnique(events) && NoCrossing(events) && RunsAccepted(rule, events)
  {
    hide InstallationAccepted, RunAccepted, Counted, IdsUnique, NoCrossing;
    if InstallationAccepted(rule, events) {
      InstallationFacts(rule, events);
      forall run ensures RunAccepted(rule, OfRun(events, run)) {
        InstallationMeansRuns(rule, events, run);
      }
    }
    if Counted(events) && IdsUnique(events) && NoCrossing(events) && RunsAccepted(rule, events) {
      RunsMeanInstallation(rule, events);
    }
  }

  // The rule the journal uses

  /** May this outcome follow the settled state reached so far? */
  predicate LegalOutcome(state: Option<EventKind>, next: EventKind) {
    match state
    case None => next.ActionResult? || next.ActionNotPerformed? || next.ActionAmbiguous?
    case Some(ActionAmbiguous) => next.ActionResult? || next.ActionNotPerformed?
    case Some(ActionNotPerformed) => next.ActionSuperseded?
    case _ => false
  }

  /** The state an action's events have reached; the outer None marks a history that broke the rule. */
  function OutcomeState<P>(prior: seq<Event<P>>, a: ActionId): Option<Option<EventKind>> {
    if prior == [] then Some(None)
    else
      var n := |prior| - 1;
      var state := OutcomeState(prior[..n], a);
      if state.None? || prior[n].action != a || !IsOutcome(prior[n].kind) then state
      else if LegalOutcome(state.value, prior[n].kind) then Some(Some(prior[n].kind))
      else None
  }

  predicate OutcomeRule<P>(prior: seq<Event<P>>, next: Event<P>) {
    !IsOutcome(next.kind) ||
    (OutcomeState(prior, next.action).Some? && LegalOutcome(OutcomeState(prior, next.action).value, next.kind))
  }

  /** ValidateOutcomeTransition's loop over the prior events. */
  method ValidateOutcome<P>(prior: seq<Event<P>>, next: Event<P>) returns (ok: bool)
    ensures ok <==> OutcomeRule(prior, next)
  {
    if !IsOutcome(next.kind) {
      return true;
    }
    var state: Option<EventKind> := None;
    for i := 0 to |prior|
      invariant OutcomeState(prior[..i], next.action) == Some(state)
    {
      assert prior[..i + 1][..i] == prior[..i];
      var e := prior[i];
      if e.action == next.action && IsOutcome(e.kind) {
        if !LegalOutcome(state, e.kind) {
          BrokenStays(prior, next.action, i + 1);
          return false;
        }
        state := Some(e.kind);
      }
    }
    assert prior[..|prior|] == prior;
    return LegalOutcome(state, next.kind);
  }

  lemma {:induction false} BrokenStays<P>(prior: seq<Event<P>>, a: ActionId, n: nat)
    requires n <= |prior| && OutcomeState(prior[..n], a).None?
    ensures OutcomeState(prior, a).None?
    decreases |prior|
  {
    if n < |prior| {
      var m := |prior| - 1;
      assert prior[..m][..n] == prior[..n];
      BrokenStays(prior[..m], a, n);
    } else {
      assert prior[..n] == prior;
    }
  }

  /** The only orders in which two outcomes of one action may stand. */
  predicate MayFollow(first: EventKind, second: EventKind) {
    || (first.ActionAmbiguous? && (second.ActionResult? || second.ActionNotPerformed? || second.ActionSuperseded?))
    || (first.ActionNotPerformed? && second.ActionSuperseded?)
  }

  /** The state stands for every outcome so far. */
  ghost predicate Summed<P>(history: seq<Event<P>>, a: ActionId) {
    && OutcomeState(history, a).Some?
    && forall e | e in history && e.action == a && IsOutcome(e.kind) ::
         && OutcomeState(history, a).value.Some?
         && (e.kind == OutcomeState(history, a).value.value || MayFollow(e.kind, OutcomeState(history, a).value.value))
  }

  lemma SummedOne<P>(h: seq<Event<P>>, e: Event<P>)
    requires Summed(h, e.action) && OutcomeRule(h, e)
    ensures Summed(h + [e], e.action)
  {
    assert (h + [e])[..|h|] == h;
  }

  lemma {:induction false} HistoryMembers<P>(events: seq<Event<P>>, a: ActionId)
    ensures forall e :: e in ActionHistory(events, a) <==> e in events && e.action == a
  {
    if events != [] {
      var n := |events| - 1;
      HistoryMembers(events[..n], a);
      assert forall x :: x in events <==> x in events[..n] || x == events[n];
    }
  }

  lemma {:induction false} RunSums<P(!new)>(events: seq<Event<P>>, a: ActionId)
    requires RunAccepted(OutcomeRule, events) && !a.NoAction?
    ensures Summed(ActionHistory(events, a), a)
  {
    if events != [] {
      var n := |events| - 1;
      var prior, e := events[..n], events[n];
      RunSums(prior, a);
      assert events == prior + [e];
      HistoryOne(prior, e, a);
      hide Summed, OutcomeRule, ActionHistory, Opened, UsedId;
      if e.action == a {
        SummedOne(ActionHistory(prior, a), e);
      } else {
        assert ActionHistory(prior, a) + [] == ActionHistory(prior, a);
      }
    }
  }

  /** In an accepted run an action has at most one final outcome, after at most one ambiguous one. */
  lemma OutcomesFollow<P(!new)>(events: seq<Event<P>>, i: nat, j: nat)
    requires RunAccepted(OutcomeRule, events) && i < j < |events|
    requires events[i].action == events[j].action && IsOutcome(events[i].kind) && IsOutcome(events[j].kind)
    ensures MayFollow(events[i].kind, events[j].kind)
  {
    hide OutcomeState, ActionHistory, RunAccepted, Opened, UsedId;
    RunPrefix(OutcomeRule, events, i);
    RunPrefix(OutcomeRule, events, j);
    var a := events[j].action;
    RunSums(events[..j], a);
    HistoryMembers(events[..j], a);
    assert events[i] in events[..j];
    assert events[i] in ActionHistory(events[..j], a);
  }

  // The views without their loops

  /** A run's stream told by its indexes: numbered, ordered, of one run, each action opened by its first event. */
  ghost predicate RunInOrder<P(!new)>(rule: Rule<P>, events: seq<Event<P>>) {
    && (forall i | 0 <= i < |events| ::
          && events[i].run == events[0].run != "" && events[i].runSequence == i + 1
          && events[i].position > 0 && events[i].occurredAt != 0
          && (events[i].action.NoAction? ==> events[i].kind in {MigrationAction, OtherKind}))
    && (forall i, j | 0 <= i < j < |events| :: events[i].position < events[j].position && events[i].id != events[j].id)
    && (forall i | 0 <= i < |events| && !events[i].action.NoAction? :: ActionInOrder(rule, events[..i], events[i]))
  }

  /** The first event of an action reserves or migrates it and no later one does; the rule allows it after the others. */
  ghost predicate ActionInOrder<P(!new)>(rule: Rule<P>, prior: seq<Event<P>>, e: Event<P>) {
    && (e.kind in {ActionReserved, MigrationAction} <==> forall f | f in prior :: f.action != e.action)
    && rule(ActionHistory(prior, e.action), e)
  }

  /** Every action seen so far was opened. */
  ghost predicate AllOpened<P>(events: seq<Event<P>>) {
    forall e | e in events && !e.action.NoAction? :: Opened(events, e.action)
  }

  lemma {:induction false} AcceptedOpens<P(!new)>(rule: Rule<P>, events: seq<Event<P>>)
    requires RunAccepted(rule, events)
    ensures AllOpened(events)
  {
    if events != [] {
      hide ActionHistory, ValidEvent, UsedId;
      var n := |events| - 1;
      var prior, e := events[..n], events[n];
      AcceptedOpens(rule, prior);
      assert forall f :: f in events <==> f in prior || f == e;
      forall f | f in events && !f.action.NoAction? ensures Opened(events, f.action) {
        if f in prior || !Opening(e.kind) {
          assert Opened(prior, f.action);
          var g :| g in prior && g.action == f.action && Opening(g.kind);
          assert g in events;
        } else {
          assert e in events;
        }
      }
    }
  }

  lemma OpenedIff<P(!new)>(rule: Rule<P>, prior: seq<Event<P>>, e: Event<P>)
    requires AllOpened(prior) && !e.action.NoAction?
    ensures ActionStep(rule, prior, e) <==> ActionInOrder(rule, prior, e)
  {
    hide ActionHistory;
  }

  lemma {:induction false} InOrderPrefix<P(!new)>(rule: Rule<P>, events: seq<Event<P>>)
    requires events != []
    ensures var n := |events| - 1;
            RunInOrder(rule, events) <==>
            && RunInOrder(rule, events[..n])
            && events[n].run == events[0].run != "" && events[n].runSequence == n + 1 && events[n].position > 0 && events[n].occurredAt != 0
            && (events[n].action.NoAction? ==> events[n].kind in {MigrationAction, OtherKind})
            && (forall i | 0 <= i < n :: events[i].position < events[n].position && events[i].id != events[n].id)
            && (events[n].action.NoAction? || ActionInOrder(rule, events[..n], events[n]))
  {
    hide ActionInOrder;
    var n := |events| - 1;
    var prior := events[..n];
    assert forall i | 0 <= i < n :: prior[..i] == events[..i] && prior[i] == events[i];
    assert n > 0 ==> prior[0] == events[0];
  }

  lemma {:induction false} PositionsRise<P(!new)>(rule: Rule<P>, events: seq<Event<P>>)
    requires RunInOrder(rule, events) && events != []
    ensures forall i | 0 <= i < |events| :: events[i].position <= events[|events| - 1].position
  {
  }

  /** The run rebuilder accepts exactly the streams in order. */
  lemma {:induction false} RunAcceptedIff<P(!new)>(rule: Rule<P>, events: seq<Event<P>>)
    ensures RunAccepted(rule, events) <==> RunInOrder(rule, events)
  {
    if events != [] {
      var n := |events| - 1;
      var prior, e := events[..n], events[n];
      RunAcceptedIff(rule, prior);
      InOrderPrefix(rule, events);
      if RunAccepted(rule, prior) {
        AcceptedOpens(rule, prior);
        if prior != [] {
          PositionsRise(rule, prior);
        }
        hide ActionStep, ActionInOrder, RunInOrder, AllOpened;
        if !e.action.NoAction? {
          OpenedIff(rule, prior, e);
        } else {
          NothingToCheck(rule, prior, e);
        }
        UsedIdIff(prior, e.id);
        KindsNamed(e);
      }
    }
  }

  lemma NothingToCheck<P(!new)>(rule: Rule<P>, prior: seq<Event<P>>, e: Event<P>)
    requires e.action.NoAction?
    ensures ActionStep(rule, prior, e)
  {
  }

  lemma UsedIdIff<P>(events: seq<Event<P>>, id: EventId)
    ensures UsedId(events, id) <==> exists i :: 0 <= i < |events| && events[i].id == id
  {
    if i :| 0 <= i < |events| && events[i].id == id {
      assert events[i] in events;
    }
  }

  lemma KindsNamed<P>(e: Event<P>)
    ensures ValidEvent(e) <==>
            && e.run != "" && e.runSequence != 0 && e.position != 0 && e.occurredAt != 0
            && (e.action.NoAction? ==> e.kind in {MigrationAction, OtherKind})
  {
  }

  // The outcome rule without its fold

  /** Every list of outcomes one action can have. */
  const LEGAL: set<seq<EventKind>> := {
    [], [ActionResult], [ActionNotPerformed], [ActionAmbiguous],
    [ActionAmbiguous, ActionResult], [ActionAmbiguous, ActionNotPerformed],
    [ActionNotPerformed, ActionSuperseded], [ActionAmbiguous, ActionNotPerformed, ActionSuperseded]
  }

  const OUTCOMES: set<EventKind> := {ActionResult, ActionNotPerformed, ActionAmbiguous, ActionSuperseded}

  function KindsOf<P>(prior: seq<Event<P>>, a: ActionId): seq<EventKind> {
    if prior == [] then []
    else
      var n := |prior| - 1;
      KindsOf(prior[..n], a) + (if prior[n].action == a && prior[n].kind in OUTCOMES then [prior[n].kind] else [])
  }

  lemma LegalOne(kinds: seq<EventKind>, state: Option<EventKind>, next: EventKind)
    requires kinds in LEGAL && next in OUTCOMES && (state == if kinds == [] then None else Some(kinds[|kinds| - 1]))
    ensures kinds + [next] in LEGAL <==> LegalOutcome(state, next)
  {
    if kinds == [] {
      assert kinds + [next] == [next];
    } else if |kinds| == 1 {
      assert kinds + [next] == [kinds[0], next];
    } else if |kinds| == 2 {
      assert kinds + [next] == [kinds[0], kinds[1], next];
    } else {
      assert |kinds + [next]| == 4;
    }
  }

  lemma LegalPrefix(kinds: seq<EventKind>, next: EventKind)
    requires kinds + [next] in LEGAL
    ensures kinds in LEGAL
  {
    var longer := kinds + [next];
    if |longer| == 1 {
      assert kinds == [];
    } else if |longer| == 2 {
      assert kinds == [longer[0]];
    } else {
      assert kinds == [longer[0], longer[1]];
    }
  }

  lemma {:induction false} StateIsLast<P>(prior: seq<Event<P>>, a: ActionId)
    ensures var kinds, state := KindsOf(prior, a), OutcomeState(prior, a);
            && (state.Some? <==> kinds in LEGAL)
            && (state.Some? ==> state.value == if kinds == [] then None else Some(kinds[|kinds| - 1]))
  {
    if prior != [] {
      var n := |prior| - 1;
      StateIsLast(prior[..n], a);
      hide LegalOutcome;
      var kinds := KindsOf(prior[..n], a);
      if prior[n].action == a && prior[n].kind in OUTCOMES {
        if kinds in LEGAL {
          LegalOne(kinds, OutcomeState(prior[..n], a).value, prior[n].kind);
        } else if kinds + [prior[n].kind] in LEGAL {
          LegalPrefix(kinds, prior[n].kind);
        }
      } else {
        assert kinds + [] == kinds;
      }
    }
  }

  /** An outcome may follow exactly when the action's outcomes with it form one of the eight legal lists. */
  lemma OutcomeRuleIff<P>(prior: seq<Event<P>>, next: Event<P>)
    ensures OutcomeRule(prior, next) <==> (next.kind in OUTCOMES ==> KindsOf(prior, next.action) + [next.kind] in LEGAL)
  {
    hide LegalOutcome, OutcomeState;
    StateIsLast(prior, next.action);
    var kinds := KindsOf(prior, next.action);
    if next.kind in OUTCOMES {
      if kinds in LEGAL {
        LegalOne(kinds, OutcomeState(prior, next.action).value, next.kind);
      } else if kinds + [next.kind] in LEGAL {
        LegalPrefix(kinds, next.kind);
      }
    }
  }
}
