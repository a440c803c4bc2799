/**
 What every replayable journal guarantees, whoever wrote it: heads that count
 events, indexes keyed by what they store, fenced recovery generations and
 transitions that occur once.
 */
module AdmissionFacts {
  import opened Wrappers
  import opened Journal
  import opened AdmissionTypes
  import opened AdmissionReplay

  // Replay is a fold over events

  lemma {:induction false} ReplayConcat(inst: string, s: ReplayState, a: seq<JournalEvent>, b: seq<JournalEvent>)
    ensures ReplayFrom(inst, s, a + b) ==
            (match ReplayFrom(inst, s, a) case None => None case Some(mid) => ReplayFrom(inst, mid, b))
    decreases |b|
  {
    hide StepEvent;
    if b == [] {
      assert a + b == a;
    } else {
      var whole := a + b;
      assert whole[..|whole| - 1] == a + b[..|b| - 1];
      assert whole[|whole| - 1] == b[|b| - 1];
      ReplayConcat(inst, s, a, b[..|b| - 1]);
    }
  }

  lemma ReplayPrefix(inst: string, events: seq<JournalEvent>, n: nat)
    requires n <= |events| && Replay(inst, events).Some?
    ensures Replay(inst, events[..n]).Some?
    ensures ReplayFrom(inst, Replay(inst, events[..n]).value, events[n..]) == Replay(inst, events)
  {
    assert events == events[..n] + events[n..];
    ReplayConcat(inst, Start, events[..n], events[n..]);
  }

  // Heads

  ghost predicate HeadsCount(p: Projection, events: seq<JournalEvent>) {
    p.position == |events| && forall run :: RunHead(p, run) == CountRun(events, run)
  }

  /** An accepted event either moves the heads only or applies exactly the transition it carries. */
  lemma StepCases(inst: string, s: ReplayState, e: JournalEvent)
    requires StepEvent(inst, s, e).Some?
    ensures e.position == s.p.position + 1 && e.runSequence == RunHead(s.p, e.run) + 1
    ensures var next := StepEvent(inst, s, e).value;
            if IsTransition(e) then
              var r := RecordAt(e);
              && e.action in s.reservations && ValidPair(inst, s.reservations[e.action], e, r.request)
              && ValidOutcome(r.request, r.body) && Unseen(Advance(s.p, e), r)
              && Apply(s.p.ledger, r) == Some(next.p.ledger)
              && next.p == Remember(Advance(s.p, e), r).(ledger := next.p.ledger)
              && next.reservations == s.reservations - {e.action}
            else
              && next.p == Advance(s.p, e)
              && next.reservations == (if e.kind.ActionReserved? then s.reservations[e.action := e] else s.reservations)
  {
    hide Apply, ValidPair, ValidOutcome, Unseen;
  }

  lemma StepHeads(inst: string, s: ReplayState, e: JournalEvent)
    requires StepEvent(inst, s, e).Some?
    ensures StepEvent(inst, s, e).value.p.position == s.p.position + 1 == e.position
    ensures StepEvent(inst, s, e).value.p.runHeads == s.p.runHeads[e.run := RunHead(s.p, e.run) + 1]
  {
    hide StepEvent, Apply;
    StepCases(inst, s, e);
  }

  /** The projection's cursor is the journal length and its run heads are the store's run heads. */
  lemma {:induction false} HeadsMatchStore(inst: string, events: seq<JournalEvent>)
    requires Replay(inst, events).Some?
    ensures HeadsCount(Replay(inst, events).value.p, events)
  {
    if events != [] {
      var n := |events| - 1;
      var s := Replay(inst, events[..n]).value;
      HeadsMatchStore(inst, events[..n]);
      StepHeads(inst, s, events[n]);
      var p := Replay(inst, events).value.p;
      forall run ensures RunHead(p, run) == CountRun(events, run) {
        assert RunHead(s.p, run) == CountRun(events[..n], run);
      }
    }
  }

  // Indexes

  predicate AdmissionsKeyed(m: map<Scoped, RunAdmission>) {
    forall k | k in m :: k == Scoped(m[k].run, m[k].subject.id)
  }

  predicate LeasesKeyed(m: map<Scoped, Lease>) {
    forall k | k in m :: k == Scoped(m[k].run, m[k].subject.id) && m[k].issuedAt < m[k].expiresAt && m[k].issuedAt != 0
  }

  predicate RecoveriesKeyed(m: map<RecoveryKey, RecoveryRecord>) {
    forall k | k in m ::
      RecoveryKeyOf(m[k].identity) == k && !m[k].state.EffectObserved? && !m[k].state.Ambiguous?
  }

  /** The semantic key a receipt was issued under. */
  function ReceiptKey(r: ReceiptId): SemanticKey
    requires r.Receipt?
  {
    SemanticKey(r.run, r.action, r.generation)
  }

  predicate ReceiptsCommitted(transitions: map<SemanticKey, Record>, receipts: map<ReceiptId, HandoffKey>) {
    forall r | r in receipts :: r.Receipt? && ReceiptKey(r) in transitions
  }

  predicate TransitionsKeyed(p: Projection) {
    && (forall k | k in p.transitions :: SemanticKeyOf(p.transitions[k].request) == k)
    && (forall k | k in p.idempotency :: IdempotencyKeyOf(p.idempotency[k].request) == k)
  }

  predicate Indexed(p: Projection) {
    && AdmissionsKeyed(p.ledger.admissions) && LeasesKeyed(p.ledger.leases)
    && RecoveriesKeyed(p.ledger.recoveries)
    && ReceiptsCommitted(p.transitions, p.ledger.handoffReceipts)
    && TransitionsKeyed(p)
  }

  lemma AdmissionKeyed(l: Ledger, run: string, a: RunAdmission, n: nat)
    requires AdmissionsKeyed(l.admissions) && a.run == run && ApplyAdmission(l, run, a, n).Some?
    ensures AdmissionsKeyed(ApplyAdmission(l, run, a, n).value.admissions)
  {
  }

  lemma ReleaseKeyed(l: Ledger, run: string, t: AdmissionTombstone, op: Operation, n: nat)
    requires AdmissionsKeyed(l.admissions) && ApplyRelease(l, run, t, op, n).Some?
    ensures AdmissionsKeyed(ApplyRelease(l, run, t, op, n).value.admissions)
  {
  }

  lemma LeaseKeyed(l: Ledger, run: string, lease: Lease)
    requires LeasesKeyed(l.leases) && lease.run == run && lease.issuedAt < lease.expiresAt && lease.issuedAt != 0
    requires ApplyLease(l, run, lease).Some?
    ensures LeasesKeyed(ApplyLease(l, run, lease).value.leases)
  {
  }

  lemma LeaseEndKeyed(l: Ledger, run: string, s: Subject, t: LeaseTombstone)
    requires LeasesKeyed(l.leases) && ApplyLeaseEnd(l, run, s, t).Some?
    ensures LeasesKeyed(ApplyLeaseEnd(l, run, s, t).value.leases)
  {
  }

  lemma HandoffKeyed(transitions: map<SemanticKey, Record>, l: Ledger, run: string, h: Handoff, n: nat)
    requires ReceiptsCommitted(transitions, l.handoffReceipts)
    requires h.receipt.Receipt? && ReceiptKey(h.receipt) in transitions
    requires ApplyHandoff(l, run, h, n).Some?
    ensures ReceiptsCommitted(transitions, ApplyHandoff(l, run, h, n).value.handoffReceipts)
  {
  }

  lemma RecoveryKeyed(l: Ledger, v: RecoveryRecord)
    requires RecoveriesKeyed(l.recoveries) && !v.state.EffectObserved? && !v.state.Ambiguous?
    requires ApplyRecovery(l, v).Some?
    ensures RecoveriesKeyed(ApplyRecovery(l, v).value.recoveries)
  {
  }

  lemma ApplyKeepsIndexed(p: Projection, r: Record)
    requires Indexed(p) && ValidOutcome(r.request, r.body) && SemanticKeyOf(r.request) in p.transitions
    requires Apply(p.ledger, r).Some?
    ensures Indexed(p.(ledger := Apply(p.ledger, r).value))
  {
    hide ApplyAdmission, ApplyRelease, ApplyLease, ApplyLeaseEnd, ApplyHandoff, ApplyRecovery;
    var run := r.request.binding.run;
    match r.body
    case AdmissionBody(a) => AdmissionKeyed(p.ledger, run, a, r.position);
    case ReleaseBody(t) => ReleaseKeyed(p.ledger, run, t, r.request.binding.operation, r.position);
    case LeaseBody(l) => LeaseKeyed(p.ledger, run, l);
    case LeaseEndBody(t) => LeaseEndKeyed(p.ledger, run, r.request.binding.subject, t);
    case HandoffBody(h) => HandoffKeyed(p.transitions, p.ledger, run, h, r.position);
    case RecoveryBody(v) => RecoveryKeyed(p.ledger, v);
  }

  lemma StepIndexed(inst: string, s: ReplayState, e: JournalEvent)
    requires Indexed(s.p) && StepEvent(inst, s, e).Some?
    ensures Indexed(StepEvent(inst, s, e).value.p)
  {
    hide StepEvent, Apply, ValidPair, ValidOutcome;
    StepCases(inst, s, e);
    if IsTransition(e) {
      ApplyKeepsIndexed(Remember(Advance(s.p, e), RecordAt(e)), RecordAt(e));
    }
  }

  lemma {:induction false} ReplayIndexed(inst: string, events: seq<JournalEvent>)
    requires Replay(inst, events).Some?
    ensures Indexed(Replay(inst, events).value.p)
  {
    if events != [] {
      ReplayIndexed(inst, events[..|events| - 1]);
      StepIndexed(inst, Replay(inst, events[..|events| - 1]).value, events[|events| - 1]);
    }
  }

  // Recovery fencing

  predicate SameLine(j: RecoveryKey, k: RecoveryKey) {
    j.installation == k.installation && j.run == k.run && j.action == k.action
  }

  predicate Closed(state: RecoveryState) { state.Canceled? || state.NotPerformed? }

  /** Every generation below another recorded one is settled without effect. */
  predicate OlderClosed(m: map<RecoveryKey, RecoveryRecord>) {
    forall j, k | j in m && k in m && SameLine(j, k) && j.generation < k.generation :: Closed(m[j].state)
  }

  /** No generation between two recorded ones is missing. */
  ghost predicate NoGaps(m: map<RecoveryKey, RecoveryRecord>) {
    forall j, k, g: nat | j in m && k in m && SameLine(j, k) && j.generation <= g <= k.generation ::
      j.(generation := g) in m
  }

  ghost predicate FencedLines(m: map<RecoveryKey, RecoveryRecord>) {
    OlderClosed(m) && NoGaps(m)
  }

  /** latestRecovery returns the line's highest generation, or nothing exactly when the line is empty. */
  lemma LatestIsHighest(m: map<RecoveryKey, RecoveryRecord>, i: RecoveryIdentity)
    requires RecoveriesKeyed(m)
    ensures var latest := LatestRecovery(m, i);
            && (latest.None? ==> forall k | k in m :: !SameLine(k, RecoveryKeyOf(i)))
            && (latest.Some? ==>
                  && SameAction(latest.value.identity, i)
                  && RecoveryKeyOf(latest.value.identity) in m
                  && m[RecoveryKeyOf(latest.value.identity)] == latest.value
                  && forall k | k in m && SameLine(k, RecoveryKeyOf(i)) ::
                       k.generation <= latest.value.identity.generation)
  {
    var gens := Generations(m, i);
    forall k | k in m && SameLine(k, RecoveryKeyOf(i)) ensures k.generation in gens {
      assert SameAction(m[k].identity, i) && m[k].identity.generation == k.generation;
    }
    if gens != {} {
      var g := Maximum(gens);
      var k :| k in m && SameAction(m[k].identity, i) && m[k].identity.generation == g;
      assert k == RecoveryKey(i.installation, i.run, i.action, g);
    }
  }

  lemma ApplyKeepsClosed(l: Ledger, value: RecoveryRecord)
    requires RecoveriesKeyed(l.recoveries) && OlderClosed(l.recoveries) && ApplyRecovery(l, value).Some?
    ensures OlderClosed(ApplyRecovery(l, value).value.recoveries)
  {
    hide LatestRecovery;
    LatestIsHighest(l.recoveries, value.identity);
  }

  lemma ApplyKeepsNoGaps(l: Ledger, value: RecoveryRecord)
    requires RecoveriesKeyed(l.recoveries) && NoGaps(l.recoveries) && ApplyRecovery(l, value).Some?
    ensures NoGaps(ApplyRecovery(l, value).value.recoveries)
  {
    hide LatestRecovery;
    var m, key := l.recoveries, RecoveryKeyOf(value.identity);
    LatestIsHighest(m, value.identity);
    if key !in m {
      var latest := LatestRecovery(m, value.identity);
      forall j, g: nat | j in m && SameLine(j, key) && j.generation <= g < key.generation
        ensures j.(generation := g) in m
      {
        assert SameLine(j, RecoveryKeyOf(latest.value.identity));
      }
    }
  }

  lemma StepFenced(inst: string, s: ReplayState, e: JournalEvent)
    requires Indexed(s.p) && FencedLines(s.p.ledger.recoveries) && StepEvent(inst, s, e).Some?
    ensures FencedLines(StepEvent(inst, s, e).value.p.ledger.recoveries)
  {
    hide StepEvent, ValidPair, ValidOutcome, OlderClosed, NoGaps;
    hide ApplyAdmission, ApplyRelease, ApplyLease, ApplyLeaseEnd, ApplyHandoff, ApplyRecovery;
    StepCases(inst, s, e);
    if IsTransition(e) && RecordAt(e).body.RecoveryBody? {
      ApplyKeepsClosed(s.p.ledger, RecordAt(e).body.recovery);
      ApplyKeepsNoGaps(s.p.ledger, RecordAt(e).body.recovery);
    }
  }

  /** Every replayable journal keeps its recovery lines fenced. */
  lemma {:induction false} ReplayFenced(inst: string, events: seq<JournalEvent>)
    requires Replay(inst, events).Some?
    ensures FencedLines(Replay(inst, events).value.p.ledger.recoveries)
  {
    if events != [] {
      var n := |events| - 1;
      ReplayFenced(inst, events[..n]);
      ReplayIndexed(inst, events[..n]);
      StepFenced(inst, Replay(inst, events[..n]).value, events[n]);
    }
  }

  // Transitions occur once and are never forgotten

  predicate RecordedIn(p: Projection, r: Record) {
    && SemanticKeyOf(r.request) in p.transitions && p.transitions[SemanticKeyOf(r.request)] == r
    && IdempotencyKeyOf(r.request) in p.idempotency && p.idempotency[IdempotencyKeyOf(r.request)] == r
  }

  predicate DistinctKeys(a: Request, b: Request) {
    SemanticKeyOf(a) != SemanticKeyOf(b) && IdempotencyKeyOf(a) != IdempotencyKeyOf(b)
  }

  lemma StepKeepsRecord(inst: string, s: ReplayState, e: JournalEvent, r: Record)
    requires RecordedIn(s.p, r) && r.position <= s.p.position && StepEvent(inst, s, e).Some?
    ensures RecordedIn(StepEvent(inst, s, e).value.p, r)
    ensures IsTransition(e) ==> DistinctKeys(r.request, RecordAt(e).request)
  {
    hide StepEvent, Apply, ValidPair, ValidOutcome;
    StepCases(inst, s, e);
  }

  lemma {:induction false} ReplayKeepsRecord(inst: string, events: seq<JournalEvent>, i: nat)
    requires i < |events| && IsTransition(events[i]) && Replay(inst, events).Some?
    ensures RecordedIn(Replay(inst, events).value.p, RecordAt(events[i]))
    ensures RecordAt(events[i]).position == i + 1
    decreases |events|
  {
    hide StepEvent, Apply, ValidPair, ValidOutcome;
    var n := |events| - 1;
    var s := Replay(inst, events[..n]).value;
    HeadsMatchStore(inst, events[..n]);
    StepCases(inst, s, events[n]);
    if i < n {
      ReplayKeepsRecord(inst, events[..n], i);
      StepKeepsRecord(inst, s, events[n], RecordAt(events[i]));
    }
  }

  /** In any replayable journal two transitions never share an action generation or an idempotency key. */
  lemma OnceEach(inst: string, events: seq<JournalEvent>, i: nat, j: nat)
    requires i < j < |events| && IsTransition(events[i]) && IsTransition(events[j])
    requires Replay(inst, events).Some?
    ensures DistinctKeys(RecordAt(events[i]).request, RecordAt(events[j]).request)
  {
    hide StepEvent;
    ReplayPrefix(inst, events, j + 1);
    ReplayPrefix(inst, events, j);
    assert events[..j + 1][..j] == events[..j];
    ReplayKeepsRecord(inst, events[..j], i);
    HeadsMatchStore(inst, events[..j]);
    StepKeepsRecord(inst, Replay(inst, events[..j]).value, events[j], RecordAt(events[i]));
  }

  /** The transition index holds nothing that the journal does not. */
  ghost predicate FromJournal(p: Projection, events: seq<JournalEvent>) {
    && (forall k | k in p.transitions :: WrittenAt(events, p.transitions[k]))
    && (forall k | k in p.idempotency :: WrittenAt(events, p.idempotency[k]))
  }

  predicate WrittenAt(events: seq<JournalEvent>, r: Record) {
    0 < r.position <= |events| && IsTransition(events[r.position - 1]) && RecordAt(events[r.position - 1]) == r
  }

  lemma {:induction false} IndexFromJournal(inst: string, events: seq<JournalEvent>)
    requires Replay(inst, events).Some?
    ensures FromJournal(Replay(inst, events).value.p, events)
  {
    if events != [] {
      hide StepEvent, Apply, ValidPair, ValidOutcome;
      var n := |events| - 1;
      IndexFromJournal(inst, events[..n]);
      HeadsMatchStore(inst, events[..n]);
      StepCases(inst, Replay(inst, events[..n]).value, events[n]);
      assert forall r | WrittenAt(events[..n], r) :: WrittenAt(events, r);
    }
  }

  // Settled generations never move

  predicate SettledAt(p: Projection, k: RecoveryKey) {
    k in p.ledger.recoveries && !p.ledger.recoveries[k].state.ObservationStarted?
  }

  lemma RecoveryKeepsSettled(l: Ledger, v: RecoveryRecord, k: RecoveryKey)
    requires RecoveriesKeyed(l.recoveries) && k in l.recoveries && !l.recoveries[k].state.ObservationStarted?
    requires ApplyRecovery(l, v).Some?
    ensures k in ApplyRecovery(l, v).value.recoveries
    ensures ApplyRecovery(l, v).value.recoveries[k] == l.recoveries[k]
  {
    hide LatestRecovery, MayStartGeneration;
  }

  lemma StepKeepsSettled(inst: string, s: ReplayState, e: JournalEvent, k: RecoveryKey)
    requires Indexed(s.p) && SettledAt(s.p, k) && StepEvent(inst, s, e).Some?
    ensures k in StepEvent(inst, s, e).value.p.ledger.recoveries
    ensures StepEvent(inst, s, e).value.p.ledger.recoveries[k] == s.p.ledger.recoveries[k]
  {
    hide StepEvent, ValidPair, ValidOutcome;
    hide ApplyAdmission, ApplyRelease, ApplyLease, ApplyLeaseEnd, ApplyHandoff, ApplyRecovery;
    StepCases(inst, s, e);
    if IsTransition(e) && RecordAt(e).body.RecoveryBody? {
      RecoveryKeepsSettled(s.p.ledger, RecordAt(e).body.recovery, k);
    }
  }

  /** A generation that has settled in some prefix is the same record in every replayable extension. */
  lemma {:induction false} SettledForever(inst: string, events: seq<JournalEvent>, n: nat, k: RecoveryKey)
    requires n <= |events| && Replay(inst, events).Some? && Replay(inst, events[..n]).Some?
    requires SettledAt(Replay(inst, events[..n]).value.p, k)
    ensures SettledAt(Replay(inst, events).value.p, k)
    ensures Replay(inst, events).value.p.ledger.recoveries[k] == Replay(inst, events[..n]).value.p.ledger.recoveries[k]
    decreases |events|
  {
    hide StepEvent;
    if n < |events| {
      var m := |events| - 1;
      assert events[..m][..n] == events[..n];
      SettledForever(inst, events[..m], n, k);
      ReplayIndexed(inst, events[..m]);
      StepKeepsSettled(inst, Replay(inst, events[..m]).value, events[m], k);
    } else {
      assert events[..n] == events;
    }
  }

  /** Once a newer generation exists, an older one is closed without effect and never changes again. */
  lemma OlderGenerationFrozen(inst: string, events: seq<JournalEvent>, n: nat, j: RecoveryKey, k: RecoveryKey)
    requires n <= |events| && Replay(inst, events).Some? && Replay(inst, events[..n]).Some?
    requires j in Replay(inst, events[..n]).value.p.ledger.recoveries
    requires k in Replay(inst, events[..n]).value.p.ledger.recoveries
    requires SameLine(j, k) && j.generation < k.generation
    ensures Closed(Replay(inst, events[..n]).value.p.ledger.recoveries[j].state)
    ensures j in Replay(inst, events).value.p.ledger.recoveries
    ensures Replay(inst, events).value.p.ledger.recoveries[j] == Replay(inst, events[..n]).value.p.ledger.recoveries[j]
  {
    hide StepEvent;
    ReplayFenced(inst, events[..n]);
    SettledForever(inst, events, n, j);
  }

  /** Over the whole life of a journal at most one generation of an action is ever applied. */
  lemma AppliedOnce(inst: string, events: seq<JournalEvent>, m: nat, n: nat, j: RecoveryKey, k: RecoveryKey)
    requires m <= |events| && n <= |events| && Replay(inst, events).Some?
    requires Replay(inst, events[..m]).Some? && Replay(inst, events[..n]).Some?
    requires j in Replay(inst, events[..m]).value.p.ledger.recoveries
    requires k in Replay(inst, events[..n]).value.p.ledger.recoveries
    requires Replay(inst, events[..m]).value.p.ledger.recoveries[j].state.Applied?
    requires Replay(inst, events[..n]).value.p.ledger.recoveries[k].state.Applied?
    requires SameLine(j, k)
    ensures j == k
  {
    hide StepEvent;
    SettledForever(inst, events, m, j);
    SettledForever(inst, events, n, k);
    ReplayFenced(inst, events);
  }

  // Open reservations

  lemma {:induction false} ReservationsKnown(inst: string, events: seq<JournalEvent>)
    requires Replay(inst, events).Some?
    ensures forall a | a in Replay(inst, events).value.reservations ::
              exists f :: f in events && f.kind.ActionReserved? && f.action == a
  {
    if events != [] {
      hide StepEvent, Apply, ValidPair, ValidOutcome, Unseen;
      var n := |events| - 1;
      var s := Replay(inst, events[..n]).value;
      ReservationsKnown(inst, events[..n]);
      StepCases(inst, s, events[n]);
      forall a | a in Replay(inst, events).value.reservations
        ensures exists f :: f in events && f.kind.ActionReserved? && f.action == a
      {
        if a in s.reservations {
          var f :| f in events[..n] && f.kind.ActionReserved? && f.action == a;
          assert f in events;
        } else {
          assert events[n] in events;
        }
      }
    }
  }
}
