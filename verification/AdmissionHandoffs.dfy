/**
 Evidence handoffs in any replayable journal: every grant and acknowledgement
 follows the one receipt it names, so each handoff is a single unbroken chain.
 */
module AdmissionHandoffs {
  import opened Wrappers
  import opened AdmissionTypes
  import opened AdmissionReplay
  import opened AdmissionFacts

  predicate IsHandoff(e: JournalEvent) {
    IsTransition(e) && e.payload.body.HandoffBody?
  }

  function HandoffAt(e: JournalEvent): Handoff
    requires IsHandoff(e)
  {
    e.payload.body.handoff
  }

  function Stage(state: HandoffState): nat {
    match state
    case Issued => 0
    case Granted => 1
    case Acknowledged => 2
  }

  /** From event i the receipts lead back, one stage at a time, to the issue. */
  ghost predicate Chained(events: seq<JournalEvent>, i: nat)
    requires i < |events|
  {
    && IsHandoff(events[i])
    && var h := HandoffAt(events[i]);
    && (if h.predecessor.None? then h.state.Issued? else exists j :: LinksBack(events, i, j) && Chained(events, j))
  }

  ghost predicate LinksBack(events: seq<JournalEvent>, i: nat, j: nat)
    requires i < |events| && IsHandoff(events[i])
  {
    && j < i && IsHandoff(events[j])
    && var g, h := HandoffAt(events[j]), HandoffAt(events[i]);
    && g.id == h.id && g.subject == h.subject && h.predecessor == Some(g.receipt) && Stage(h.state) == Stage(g.state) + 1
  }

  lemma {:induction false} ChainedExtends(events: seq<JournalEvent>, more: seq<JournalEvent>, i: nat)
    requires i < |events| && events <= more && Chained(events, i)
    ensures Chained(more, i)
    decreases i
  {
    if HandoffAt(events[i]).predecessor.Some? {
      var j :| LinksBack(events, i, j) && Chained(events, j);
      ChainedExtends(events, more, j);
      assert LinksBack(more, i, j);
    }
  }

  /** The projected handoff is the latest one written under its key, and nothing was written past its stage. */
  ghost predicate Traced(events: seq<JournalEvent>, key: HandoffKey, h: Handoff) {
    && 0 < h.sequence <= |events| && IsHandoff(events[h.sequence - 1])
    && HandoffAt(events[h.sequence - 1]) == h.(sequence := 0)
    && key == HandoffKey(h.run, h.id) && Chained(events, h.sequence - 1)
  }

  /** A handoff event is reflected in the projection, which may have moved on to a later stage. */
  ghost predicate Reached(m: map<HandoffKey, Handoff>, e: JournalEvent)
    requires IsHandoff(e)
  {
    var key := HandoffKey(HandoffAt(e).run, HandoffAt(e).id);
    key in m && Stage(HandoffAt(e).state) <= Stage(m[key].state)
  }

  ghost predicate HandoffsTraced(m: map<HandoffKey, Handoff>, events: seq<JournalEvent>) {
    && (forall key | key in m :: Traced(events, key, m[key]))
    && (forall i | 0 <= i < |events| && IsHandoff(events[i]) :: Reached(m, events[i]))
  }

  lemma TracedExtends(events: seq<JournalEvent>, e: JournalEvent, key: HandoffKey, h: Handoff)
    requires Traced(events, key, h)
    ensures Traced(events + [e], key, h)
  {
    hide Chained;
    ChainedExtends(events, events + [e], h.sequence - 1);
  }

  lemma {:induction false} NewLink(events: seq<JournalEvent>, e: JournalEvent, l: Ledger)
    requires HandoffsTraced(l.handoffs, events) && IsHandoff(e)
    requires ApplyHandoff(l, HandoffAt(e).run, HandoffAt(e), |events| + 1).Some?
    ensures Chained(events + [e], |events|)
  {
    hide Traced;
    var h, after := HandoffAt(e), events + [e];
    var key := HandoffKey(h.run, h.id);
    if key in l.handoffs {
      var prior := l.handoffs[key];
      assert Traced(events, key, prior);
      var j := LinkOf(events, key, prior);
      assert after[j] == events[j];
      assert LinksBack(after, |events|, j);
      ChainedExtends(events, after, j);
    }
  }

  ghost function LinkOf(events: seq<JournalEvent>, key: HandoffKey, h: Handoff): (j: nat)
    requires Traced(events, key, h)
    ensures key == HandoffKey(h.run, h.id)
    ensures j < |events| && Chained(events, j) && HandoffAt(events[j]) == h.(sequence := 0)
  {
    h.sequence - 1
  }

  lemma TracedAfterHandoff(events: seq<JournalEvent>, e: JournalEvent, l: Ledger)
    requires HandoffsTraced(l.handoffs, events) && IsHandoff(e) && HandoffAt(e).sequence == 0
    requires ApplyHandoff(l, HandoffAt(e).run, HandoffAt(e), |events| + 1).Some?
    ensures HandoffsTraced(ApplyHandoff(l, HandoffAt(e).run, HandoffAt(e), |events| + 1).value.handoffs, events + [e])
    ensures forall i | 0 <= i < |events| && IsHandoff(events[i]) &&
              HandoffAt(events[i]).run == HandoffAt(e).run && HandoffAt(events[i]).id == HandoffAt(e).id ::
                Stage(HandoffAt(events[i]).state) < Stage(HandoffAt(e).state)
  {
    hide Chained;
    var h, after := HandoffAt(e), events + [e];
    NewLink(events, e, l);
    var m := ApplyHandoff(l, h.run, h, |events| + 1).value.handoffs;
    forall key | key in m ensures Traced(after, key, m[key]) {
      if key != HandoffKey(h.run, h.id) {
        TracedExtends(events, e, key, l.handoffs[key]);
      }
    }
    forall i | 0 <= i < |after| && IsHandoff(after[i]) ensures Reached(m, after[i]) {
      if i < |events| {
        assert Reached(l.handoffs, events[i]);
      }
    }
  }

  lemma TracedAfterOther(events: seq<JournalEvent>, e: JournalEvent, m: map<HandoffKey, Handoff>)
    requires HandoffsTraced(m, events) && !IsHandoff(e)
    ensures HandoffsTraced(m, events + [e])
  {
    hide Chained, Traced, Reached;
    var after := events + [e];
    forall key | key in m ensures Traced(after, key, m[key]) {
      TracedExtends(events, e, key, m[key]);
    }
    forall i | 0 <= i < |after| && IsHandoff(after[i]) ensures Reached(m, after[i]) {
      assert after[i] == events[i];
    }
  }

  /** Replay touches the handoffs only at handoff events, and there applies exactly the event's record. */
  lemma HandoffStep(inst: string, s: ReplayState, e: JournalEvent)
    requires StepEvent(inst, s, e).Some?
    ensures e.position == s.p.position + 1
    ensures var next := StepEvent(inst, s, e).value.p.ledger;
            if IsHandoff(e) then
              && HandoffAt(e).sequence == 0
              && ApplyHandoff(s.p.ledger, HandoffAt(e).run, HandoffAt(e), e.position) == Some(next)
              && HandoffAt(e).id.run == HandoffAt(e).run
            else next.handoffs == s.p.ledger.handoffs
  {
    hide StepEvent, ValidPair;
    hide ApplyAdmission, ApplyRelease, ApplyLease, ApplyLeaseEnd, ApplyHandoff, ApplyRecovery;
    hide ValidAdmissionOutcome, ValidReleaseOutcome, ValidLeaseOutcome, ValidLeaseEndOutcome, ValidRecoveryOutcome,
         Unseen, Remember;
    StepCases(inst, s, e);
  }

  lemma {:induction false} ReplayTraced(inst: string, events: seq<JournalEvent>)
    requires Replay(inst, events).Some?
    ensures HandoffsTraced(Replay(inst, events).value.p.ledger.handoffs, events)
  {
    if events != [] {
      hide StepEvent, HandoffsTraced, ApplyHandoff;
      var n := |events| - 1;
      var s, e := Replay(inst, events[..n]).value, events[n];
      ReplayTraced(inst, events[..n]);
      HeadsMatchStore(inst, events[..n]);
      HandoffStep(inst, s, e);
      assert events == events[..n] + [e];
      if IsHandoff(e) {
        TracedAfterHandoff(events[..n], e, s.p.ledger);
      } else {
        TracedAfterOther(events[..n], e, s.p.ledger.handoffs);
      }
    } else {
      assert Replay(inst, events).value.p.ledger.handoffs == map[];
    }
  }

  /** Every handoff event of a replayable journal leads back through its receipts to one issue. */
  lemma {:induction false} HandoffsAreChained(inst: string, events: seq<JournalEvent>, i: nat)
    requires i < |events| && Replay(inst, events).Some? && IsHandoff(events[i])
    ensures Chained(events, i)
  {
    hide StepEvent, Chained, HandoffsTraced, ApplyHandoff;
    ReplayPrefix(inst, events, i);
    ReplayPrefix(inst, events, i + 1);
    assert events[..i + 1][..i] == events[..i];
    var s := Replay(inst, events[..i]).value;
    ReplayTraced(inst, events[..i]);
    HeadsMatchStore(inst, events[..i]);
    HandoffStep(inst, s, events[i]);
    NewLink(events[..i], events[i], s.p.ledger);
    assert events[..i] + [events[i]] == events[..i + 1];
    ChainedExtends(events[..i + 1], events, i);
  }

  /** Two events of one handoff are at different stages, in order: a chain never forks and no stage repeats. */
  lemma HandoffsNeverFork(inst: string, events: seq<JournalEvent>, i: nat, j: nat)
    requires i < j < |events| && Replay(inst, events).Some?
    requires IsHandoff(events[i]) && IsHandoff(events[j])
    requires HandoffAt(events[i]).id == HandoffAt(events[j]).id
    ensures Stage(HandoffAt(events[i]).state) < Stage(HandoffAt(events[j]).state)
  {
    hide StepEvent, HandoffsTraced, ApplyHandoff;
    ReplayPrefix(inst, events, j);
    ReplayPrefix(inst, events, j + 1);
    ReplayPrefix(inst, events, i);
    ReplayPrefix(inst, events, i + 1);
    assert events[..j + 1][..j] == events[..j];
    assert events[..i + 1][..i] == events[..i];
    HandoffStep(inst, Replay(inst, events[..i]).value, events[i]);
    var s := Replay(inst, events[..j]).value;
    ReplayTraced(inst, events[..j]);
    HeadsMatchStore(inst, events[..j]);
    HandoffStep(inst, s, events[j]);
    TracedAfterHandoff(events[..j], events[j], s.p.ledger);
    assert events[..j][i] == events[i];
  }
}
