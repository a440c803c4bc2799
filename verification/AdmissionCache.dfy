/**
 The replay cache: resuming from an installed projection, in pages of any size,
 gives what replaying the whole journal gives.
 */
module AdmissionCache {
  import opened Wrappers
  import opened Journal
  import opened AdmissionTypes
  import opened AdmissionReplay
  import opened AdmissionFacts
  import opened Sums

  // Resuming from an installed projection

  /** Same projection; the left state may still hold reservations of other components. */
  ghost predicate Resumes(full: ReplayState, cached: ReplayState) {
    && full.p == cached.p
    && (forall a | a in cached.reservations :: a in full.reservations && full.reservations[a] == cached.reservations[a])
    && (forall a | a in full.reservations && a !in cached.reservations :: !HasAdmissionPrefix(a))
  }

  lemma StepResumes(inst: string, full: ReplayState, cached: ReplayState, e: JournalEvent)
    requires Resumes(full, cached) && StepEvent(inst, full, e).Some?
    ensures StepEvent(inst, cached, e).Some?
    ensures Resumes(StepEvent(inst, full, e).value, StepEvent(inst, cached, e).value)
  {
    hide Apply, ValidOutcome, Unseen;
    if IsTransition(e) {
      assert HasAdmissionPrefix(e.action);
    }
  }

  lemma {:induction false} ReplayResumes(inst: string, full: ReplayState, cached: ReplayState, events: seq<JournalEvent>)
    requires Resumes(full, cached) && ReplayFrom(inst, full, events).Some?
    ensures ReplayFrom(inst, cached, events).Some?
    ensures Resumes(ReplayFrom(inst, full, events).value, ReplayFrom(inst, cached, events).value)
  {
    if events != [] {
      hide StepEvent, Resumes;
      var n := |events| - 1;
      ReplayResumes(inst, full, cached, events[..n]);
      StepResumes(inst, ReplayFrom(inst, full, events[..n]).value, ReplayFrom(inst, cached, events[..n]).value, events[n]);
    }
  }

  /** rebuildFrom an installed projection: the suffix is replayed with no memory of earlier reservations. */
  function RebuildFromCache(inst: string, cached: Projection, suffix: seq<JournalEvent>): Option<Projection> {
    match ReplayFrom(inst, ReplayState(cached, map[]), suffix)
    case None => None
    case Some(s) => if Settled(s) then Some(s.p) else None
  }

  /** Whenever the whole journal replays, resuming from the projection of any prefix gives the same projection. */
  lemma CacheIsTransparent(inst: string, events: seq<JournalEvent>, n: nat)
    requires n <= |events|
    requires Rebuild(inst, events).Some? && Rebuild(inst, events[..n]).Some?
    ensures RebuildFromCache(inst, Rebuild(inst, events[..n]).value, events[n..]) == Rebuild(inst, events)
  {
    hide StepEvent;
    ReplayPrefix(inst, events, n);
    var full := Replay(inst, events[..n]).value;
    var cached := ReplayState(full.p, map[]);
    assert Resumes(full, cached);
    ReplayResumes(inst, full, cached, events[n..]);
  }

  // The converse, for journals that reserve each action once

  ghost predicate ReservationsUnique(events: seq<JournalEvent>) {
    forall i, j | 0 <= i < j < |events| && events[i].kind.ActionReserved? && events[j].kind.ActionReserved? ::
      events[i].action != events[j].action
  }

  lemma StepResumesBack(inst: string, full: ReplayState, cached: ReplayState, e: JournalEvent)
    requires Resumes(full, cached) && StepEvent(inst, cached, e).Some?
    requires e.kind.ActionReserved? ==> e.action !in full.reservations
    ensures StepEvent(inst, full, e).Some?
    ensures Resumes(StepEvent(inst, full, e).value, StepEvent(inst, cached, e).value)
  {
    hide Apply, ValidOutcome, Unseen;
    if IsTransition(e) {
      assert HasAdmissionPrefix(e.action);
    }
  }

  lemma {:induction false} ReplayResumesBack(inst: string, events: seq<JournalEvent>, n: nat)
    requires n <= |events| && ReservationsUnique(events) && Rebuild(inst, events[..n]).Some?
    requires ReplayFrom(inst, ReplayState(Rebuild(inst, events[..n]).value, map[]), events[n..]).Some?
    ensures Replay(inst, events).Some?
    ensures Resumes(Replay(inst, events).value,
                    ReplayFrom(inst, ReplayState(Rebuild(inst, events[..n]).value, map[]), events[n..]).value)
    decreases |events|
  {
    hide StepEvent;
    if n == |events| {
      assert events[..n] == events;
    } else {
      var m := |events| - 1;
      assert events[..m][..n] == events[..n];
      assert events[n..][..m - n] == events[..m][n..];
      ReplayResumesBack(inst, events[..m], n);
      ReservationsKnown(inst, events[..m]);
      hide Resumes, Settled;
      StepResumesBack(inst, Replay(inst, events[..m]).value,
                      ReplayFrom(inst, ReplayState(Rebuild(inst, events[..n]).value, map[]), events[..m][n..]).value,
                      events[m]);
    }
  }

  /** Where no action is reserved twice, resuming and replaying everything agree, failures included. */
  lemma CacheIsExact(inst: string, events: seq<JournalEvent>, n: nat)
    requires n <= |events| && ReservationsUnique(events) && Rebuild(inst, events[..n]).Some?
    ensures RebuildFromCache(inst, Rebuild(inst, events[..n]).value, events[n..]) == Rebuild(inst, events)
  {
    hide StepEvent;
    var cached := ReplayState(Rebuild(inst, events[..n]).value, map[]);
    if ReplayFrom(inst, cached, events[n..]).Some? {
      ReplayResumesBack(inst, events, n);
    } else if Replay(inst, events).Some? {
      ReplayPrefix(inst, events, n);
      var full := Replay(inst, events[..n]).value;
      assert Resumes(full, cached);
      ReplayResumes(inst, full, cached, events[n..]);
      assert false;
    }
  }

  // The cache's event count check

  /** Run heads always add up to the cursor. */
  lemma {:induction false} HeadsAddUp(inst: string, events: seq<JournalEvent>)
    requires Replay(inst, events).Some?
    ensures Total(Replay(inst, events).value.p.runHeads) == Replay(inst, events).value.p.position == |events|
  {
    HeadsMatchStore(inst, events);
    if events != [] {
      hide StepEvent;
      var n := |events| - 1;
      var s := Replay(inst, events[..n]).value;
      HeadsAddUp(inst, events[..n]);
      StepHeads(inst, s, events[n]);
      TotalBump(s.p.runHeads, events[n].run);
    }
  }

  /** validProjectionCache's loop over the run heads, in whatever order the map yields them. */
  method CountsMatch(heads: map<string, nat>, position: nat) returns (ok: bool)
    ensures ok <==> Total(heads) == position
  {
    var keys := heads.Keys;
    var eventCount := 0;
    while keys != {}
      invariant keys <= heads.Keys
      invariant eventCount <= position
      invariant Total(heads) == eventCount + SumOver(heads, keys)
      decreases |keys|
    {
      var run :| run in keys;
      SumRemove(heads, keys, run);
      if heads[run] > position - eventCount {
        return false;
      }
      eventCount := eventCount + heads[run];
      keys := keys - {run};
    }
    ok := eventCount == position;
  }
}
