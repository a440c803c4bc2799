/**
 The run and installation views of the journal, rebuilt and checked in one pass
 each, and why they agree.

 The rule for an action's next event is a parameter: nothing here but the last
 section depends on which histories it allows.
 */
module Rebuilders {
  import opened Wrappers
  import opened Journal

  predicate ValidEvent<P>(e: Event<P>) {
    && e.run != "" && e.runSequence != 0 && e.position != 0 && e.occurredAt != 0
    && (IsOutcome(e.kind) || e.kind.ActionReserved? ==> !e.action.NoAction?)
  }

  /** Kinds that open an action. */
  predicate Opening(kind: EventKind) { kind.ActionReserved? || kind.MigrationAction? }

  ghost predicate Opened<P>(events: seq<Event<P>>, a: ActionId) {
    exists e | e in events :: e.action == a && Opening(e.kind)
  }

  function ActionHistory<P>(events: seq<Event<P>>, a: ActionId): seq<Event<P>> {
    if events == [] then []
    else
      var n := |events| - 1;
      ActionHistory(events[..n], a) + (if events[n].action == a then [events[n]] else [])
  }

  type Rule<!P(!new)> = (seq<Event<P>>, Event<P>) -> bool

  ghost predicate ActionStep<P(!new)>(rule: Rule<P>, prior: seq<Event<P>>, e: Event<P>) {
    e.action.NoAction? ||
    (&& (Opening(e.kind) <==> !Opened(prior, e.action))
     && rule(ActionHistory(prior, e.action), e))
  }

  ghost predicate UsedId<P>(events: seq<Event<P>>, id: EventId) {
    exists e | e in events :: e.id == id
  }

  // One run

  ghost predicate RunStep<P(!new)>(rule: Rule<P>, prior: seq<Event<P>>, e: Event<P>) {
    && ValidEvent(e) && e.runSequence == |prior| + 1 && !UsedId(prior, e.id)
    && (prior != [] ==> e.run == prior[0].run && prior[|prior| - 1].position < e.position)
    && ActionStep(rule, prior, e)
  }

  ghost predicate RunAccepted<P(!new)>(rule: Rule<P>, events: seq<Event<P>>) {
    events == [] ||
    (RunAccepted(rule, events[..|events| - 1]) && RunStep(rule, events[..|events| - 1], events[|events| - 1]))
  }

  // The installation

  ghost predicate CrossesRuns<P>(prior: seq<Event<P>>, e: Event<P>) {
    !e.action.NoAction? && exists f | f in prior :: f.action == e.action && f.run != e.run
  }

  ghost predicate InstallationStep<P(!new)>(rule: Rule<P>, prior: seq<Event<P>>, e: Event<P>) {
    && ValidEvent(e) && e.position == |prior| + 1 && !UsedId(prior, e.id)
    && e.runSequence == CountRun(prior, e.run) + 1 && !CrossesRuns(prior, e) && ActionStep(rule, prior, e)
  }

  ghost predicate InstallationAccepted<P(!new)>(rule: Rule<P>, events: seq<Event<P>>) {
    events == [] ||
    (InstallationAccepted(rule, events[..|events| - 1])
     && InstallationStep(rule, events[..|events| - 1], events[|events| - 1]))
  }

  // The rebuilders

  datatype RunView<P> = RunView(run: string, runSequence: nat, events: seq<Event<P>>)

  datatype InstallationView<P> = InstallationView(position: nat, events: seq<Event<P>>)

  /** The maps validateActionOrder keeps, for the events read so far. */
  ghost predicate ActionMaps<P>(reserved: set<ActionId>, history: map<ActionId, seq<Event<P>>>, events: seq<Event<P>>) {
    && (forall a: ActionId :: !a.NoAction? ==> (a in reserved <==> Opened(events, a)))
    && (forall a: ActionId :: !a.NoAction? ==> ActionHistory(events, a) == (if a in history then history[a] else []))
  }

  ghost predicate SeenIds<P>(seen: set<EventId>, events: seq<Event<P>>) {
    forall id :: id in seen <==> UsedId(events, id)
  }

  lemma SeenOne<P>(seen: set<EventId>, events: seq<Event<P>>, e: Event<P>)
    requires SeenIds(seen, events)
    ensures SeenIds(seen + {e.id}, events + [e])
  {
    forall id ensures UsedId(events + [e], id) <==> UsedId(events, id) || id == e.id {
      assert forall f :: f in events + [e] <==> f in events || f == e;
    }
  }

  lemma MapsOne<P>(reserved: set<ActionId>, history: map<ActionId, seq<Event<P>>>, events: seq<Event<P>>, e: Event<P>)
    requires ActionMaps(reserved, history, events)
    ensures var prior := if e.action in history then history[e.action] else [];
            if e.action.NoAction? then ActionMaps(reserved, history, events + [e])
            else ActionMaps(if Opening(e.kind) then reserved + {e.action} else reserved,
                            history[e.action := prior + [e]], events + [e])
  {
    var after := events + [e];
    assert after[..|events|] == events;
    forall a: ActionId | !a.NoAction? ensures Opened(after, a) <==> Opened(events, a) || (a == e.action && Opening(e.kind)) {
      assert forall f :: f in after <==> f in events || f == e;
    }
  }

  /** validateActionOrder: check one event against the maps and enter it. */
  method CheckAction<P(!new)>(rule: Rule<P>, e: Event<P>, reserved: set<ActionId>, history: map<ActionId, seq<Event<P>>>,
                              ghost events: seq<Event<P>>)
    returns (ok: bool, reserved': set<ActionId>, history': map<ActionId, seq<Event<P>>>)
    requires ActionMaps(reserved, history, events)
    ensures ok <==> ActionStep(rule, events, e)
    ensures ok ==> ActionMaps(reserved', history', events + [e])
  {
    MapsOne(reserved, history, events, e);
    ok, reserved', history' := true, reserved, history;
    if e.action.NoAction? {
      return;
    }
    var prior := if e.action in history then history[e.action] else [];
    if Opening(e.kind) {
      if e.action in reserved {
        ok := false;
        return;
      }
      reserved' := reserved + {e.action};
    } else if e.action !in reserved {
      ok := false;
      return;
    }
    if !rule(prior, e) {
      ok := false;
      return;
    }
    history' := history[e.action := prior + [e]];
  }

  lemma {:induction false} RunPrefix<P(!new)>(rule: Rule<P>, events: seq<Event<P>>, n: nat)
    requires n < |events| && RunAccepted(rule, events)
    ensures RunAccepted(rule, events[..n]) && RunStep(rule, events[..n], events[n])
    decreases |events|
  {
    if n < |events| - 1 {
      var m := |events| - 1;
      assert events[..m][..n] == events[..n];
      RunPrefix(rule, events[..m], n);
    }
  }

  lemma {:induction false} InstallationPrefix<P(!new)>(rule: Rule<P>, events: seq<Event<P>>, n: nat)
    requires n < |events| && InstallationAccepted(rule, events)
    ensures InstallationAccepted(rule, events[..n]) && InstallationStep(rule, events[..n], events[n])
    decreases |events|
  {
    if n < |events| - 1 {
      var m := |events| - 1;
      assert events[..m][..n] == events[..n];
      InstallationPrefix(rule, events[..m], n);
    }
  }

  method RebuildRun<P(!new)>(rule: Rule<P>, events: seq<Event<P>>) returns (view: Option<RunView<P>>)
    ensures view.Some? <==> RunAccepted(rule, events)
    ensures view.Some? ==> view.value == RunView(if events == [] then "" else events[0].run, |events|, events)
  {
    hide ActionStep, UsedId, ActionMaps, SeenIds;
    var run, sequence, kept: seq<Event<P>> := "", 0, [];
    var seen: set<EventId>, reserved: set<ActionId>, history: map<ActionId, seq<Event<P>>> := {}, {}, map[];
    var priorPosition := 0;
    NothingRead<P>();
    for i := 0 to |events|
      invariant RunAccepted(rule, events[..i]) && SeenIds(seen, events[..i]) && ActionMaps(reserved, history, events[..i])
      invariant kept == events[..i] && sequence == i && priorPosition == (if i == 0 then 0 else events[i - 1].position)
      invariant run == if i == 0 then "" else events[0].run
    {
      var e := events[i];
      assert events[..i + 1][..i] == events[..i] && events[..i + 1] == events[..i] + [e];
      SeenOne(seen, events[..i], e);
      SeenMember(seen, events[..i], e.id);
      if RunAccepted(rule, events) {
        RunPrefix(rule, events, i);
      }
      if !ValidEvent(e) {
        return None;
      }
      if i == 0 {
        run := e.run;
      }
      if e.run != run || e.runSequence != i + 1 || e.position <= priorPosition || e.id in seen {
        return None;
      }
      seen := seen + {e.id};
      var ok;
      ok, reserved, history := CheckAction(rule, e, reserved, history, events[..i]);
      if !ok {
        return None;
      }
      priorPosition := e.position;
      kept := kept + [e];
      sequence := e.runSequence;
    }
    assert events[..|events|] == events;
    return Some(RunView(run, sequence, kept));
  }

  lemma NothingRead<P>()
    ensures SeenIds<P>({}, []) && ActionMaps<P>({}, map[], [])
  {
  }

  lemma SeenMember<P>(seen: set<EventId>, events: seq<Event<P>>, id: EventId)
    requires SeenIds(seen, events)
    ensures id in seen <==> UsedId(events, id)
  {
  }

  /** The run each action was last seen in. */
  ghost predicate ActionRuns<P>(runs: map<ActionId, string>, events: seq<Event<P>>) {
    && (forall e | e in events && !e.action.NoAction? :: e.action in runs && runs[e.action] == e.run)
    && (forall a | a in runs :: exists e | e in events :: e.action == a && e.run == runs[a])
  }

  ghost predicate RunCounts<P>(sequences: map<string, nat>, events: seq<Event<P>>) {
    forall run :: CountRun(events, run) == (if run in sequences then sequences[run] else 0)
  }

  lemma CountsOne<P>(sequences: map<string, nat>, events: seq<Event<P>>, e: Event<P>)
    requires RunCounts(sequences, events)
    ensures var n := if e.run in sequences then sequences[e.run] else 0;
            n == CountRun(events, e.run) && RunCounts(sequences[e.run := n + 1], events + [e])
  {
    assert (events + [e])[..|events|] == events;
  }

  lemma RunsOne<P>(runs: map<ActionId, string>, events: seq<Event<P>>, e: Event<P>)
    requires ActionRuns(runs, events)
    ensures !e.action.NoAction? ==> (CrossesRuns(events, e) <==> e.action in runs && runs[e.action] != e.run)
    ensures !CrossesRuns(events, e) ==>
              ActionRuns(if e.action.NoAction? then runs else runs[e.action := e.run], events + [e])
  {
    var after := events + [e];
    assert forall f :: f in after <==> f in events || f == e;
    if !CrossesRuns(events, e) {
      var next := if e.action.NoAction? then runs else runs[e.action := e.run];
      forall a | a in next ensures exists f | f in after :: f.action == a && f.run == next[a] {
        if a == e.action && !e.action.NoAction? {
          assert e in after;
        } else {
          var f :| f in events && f.action == a && f.run == runs[a];
          assert f in after;
        }
      }
    }
  }

  method RebuildInstallation<P(!new)>(rule: Rule<P>, events: seq<Event<P>>) returns (view: Option<InstallationView<P>>)
    ensures view.Some? <==> InstallationAccepted(rule, events)
    ensures view.Some? ==> view.value == InstallationView(|events|, events)
  {
    hide ActionStep, UsedId, ActionMaps, SeenIds, RunCounts, ActionRuns, CrossesRuns, CountRun, InstallationAccepted, ValidEvent;
    var position, kept: seq<Event<P>> := 0, [];
    var seen: set<EventId>, reserved: set<ActionId>, history: map<ActionId, seq<Event<P>>> := {}, {}, map[];
    var runSequences: map<string, nat>, actionRuns: map<ActionId, string> := map[], map[];
    NothingRead<P>();
    NothingCounted(rule);
    for i := 0 to |events|
      invariant InstallationAccepted(rule, events[..i]) && SeenIds(seen, events[..i])
      invariant ActionMaps(reserved, history, events[..i])
      invariant RunCounts(runSequences, events[..i]) && ActionRuns(actionRuns, events[..i])
      invariant kept == events[..i] && position == i
    {
      var e := events[i];
      ghost var prior := events[..i];
      InstallationGrows(rule, events, i);
      SeenOne(seen, prior, e);
      SeenMember(seen, prior, e.id);
      CountsOne(runSequences, prior, e);
      RunsOne(actionRuns, prior, e);
      if !ValidEvent(e) || e.position != i + 1 || e.id in seen {
        return None;
      }
      var sequence := (if e.run in runSequences then runSequences[e.run] else 0) + 1;
      runSequences := runSequences[e.run := sequence];
      if e.runSequence != sequence {
        return None;
      }
      if !e.action.NoAction? {
        if e.action in actionRuns && actionRuns[e.action] != e.run {
          return None;
        }
        actionRuns := actionRuns[e.action := e.run];
      } else {
        NoActionNeverCrosses(prior, e);
      }
      var ok;
      ok, reserved, history := CheckAction(rule, e, reserved, history, prior);
      if !ok {
        return None;
      }
      seen := seen + {e.id};
      kept := kept + [e];
      position := e.position;
    }
    assert events[..|events|] == events;
    return Some(InstallationView(position, kept));
  }

  lemma InstallationGrows<P(!new)>(rule: Rule<P>, events: seq<Event<P>>, i: nat)
    requires i < |events|
    ensures events[..i + 1] == events[..i] + [events[i]]
    ensures InstallationAccepted(rule, events[..i + 1]) <==>
            InstallationAccepted(rule, events[..i]) && InstallationStep(rule, events[..i], events[i])
    ensures InstallationAccepted(rule, events) ==> InstallationStep(rule, events[..i], events[i])
  {
    hide InstallationStep;
    var more := events[..i + 1];
    assert more[..i] == events[..i] && more[i] == events[i];
    assert InstallationAccepted(rule, more) <==>
           InstallationAccepted(rule, more[..i]) && InstallationStep(rule, more[..i], more[i]);
    if InstallationAccepted(rule, events) {
      InstallationPrefix(rule, events, i);
    }
  }

  lemma NothingCounted<P(!new)>(rule: Rule<P>)
    ensures InstallationAccepted(rule, [])
    ensures RunCounts<P>(map[], []) && ActionRuns<P>(map[], [])
  {
  }

  lemma NoActionNeverCrosses<P>(events: seq<Event<P>>, e: Event<P>)
    requires e.action.NoAction?
    ensures !CrossesRuns(events, e)
  {
  }
}
