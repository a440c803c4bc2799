/**
 What a replayed projection says about an entry, read off the journal: the last
 transition written under an entry's key decides it, and each transition follows the
 one before it by one of a few listed moves.
 */
module AdmissionEntries {
  import opened Wrappers
  import opened AdmissionTypes
  import opened AdmissionReplay
  import opened AdmissionFacts

  /** One entry of one table. */
  datatype Slot =
    | AdmissionSlot(key: Scoped)
    | LeaseSlot(key: Scoped)
    | RecoverySlot(recovery: RecoveryKey)

  /** The entry a transition writes, if it is of one of these tables. */
  function SlotOf(e: JournalEvent): Option<Slot>
    requires IsTransition(e)
  {
    var run := e.payload.request.binding.run;
    match e.payload.body
    case AdmissionBody(a) => Some(AdmissionSlot(Scoped(run, a.subject.id)))
    case ReleaseBody(t) => Some(AdmissionSlot(Scoped(run, t.subject.id)))
    case LeaseBody(l) => Some(LeaseSlot(Scoped(run, l.subject.id)))
    case LeaseEndBody(t) => Some(LeaseSlot(Scoped(run, t.subject.id)))
    case HandoffBody(_) => None
    case RecoveryBody(v) => Some(RecoverySlot(RecoveryKeyOf(v.identity)))
  }

  predicate Writes(e: JournalEvent, slot: Slot) {
    IsTransition(e) && SlotOf(e) == Some(slot)
  }

  /** The position of the last transition that wrote the entry. */
  function Last(events: seq<JournalEvent>, slot: Slot): (r: Option<nat>)
    ensures r.Some? ==> r.value < |events| && Writes(events[r.value], slot)
    ensures r.Some? ==> forall k | r.value < k < |events| :: !Writes(events[k], slot)
    ensures r.None? ==> forall e | e in events :: !Writes(e, slot)
  {
    if events == [] then None
    else
      var n := |events| - 1;
      if Writes(events[n], slot) then Some(n) else Last(events[..n], slot)
  }

  function BodyAt(e: JournalEvent): Body
    requires IsTransition(e)
  {
    e.payload.body
  }

  lemma LastOne(events: seq<JournalEvent>, e: JournalEvent, slot: Slot)
    ensures Last(events + [e], slot) == (if Writes(e, slot) then Some(|events|) else Last(events, slot))
  {
    assert (events + [e])[..|events|] == events;
  }

  predicate OnAdmission(e: JournalEvent) { IsTransition(e) && (BodyAt(e).AdmissionBody? || BodyAt(e).ReleaseBody?) }

  predicate OnLease(e: JournalEvent) { IsTransition(e) && (BodyAt(e).LeaseBody? || BodyAt(e).LeaseEndBody?) }

  predicate OnRecovery(e: JournalEvent) { IsTransition(e) && BodyAt(e).RecoveryBody? }

  /** An accepted event applies its transition to the tables it is of and leaves the others alone. */
  lemma StepTables(inst: string, s: ReplayState, e: JournalEvent)
    requires StepEvent(inst, s, e).Some?
    ensures e.position == s.p.position + 1
    ensures var l, next := s.p.ledger, StepEvent(inst, s, e).value.p.ledger;
            && (OnAdmission(e) || (next.admissions == l.admissions && next.admissionTombs == l.admissionTombs))
            && (OnLease(e) || (next.leases == l.leases && next.leaseTombs == l.leaseTombs))
            && (OnRecovery(e) || next.recoveries == l.recoveries)
            && (IsTransition(e) ==> ValidOutcome(RecordAt(e).request, RecordAt(e).body) && Apply(l, RecordAt(e)) == Some(next))
  {
    hide StepEvent, ValidPair, ValidOutcome;
    hide ApplyAdmission, ApplyRelease, ApplyLease, ApplyLeaseEnd, ApplyHandoff, ApplyRecovery;
    hide Unseen, Remember;
    StepCases(inst, s, e);
  }

  // Admissions

  /** The entry after a release: ended by it, otherwise as the transition before left it. */
  predicate ReleasedEntry(entry: RunAdmission, before: RunAdmission, t: AdmissionTombstone, position: nat) {
    && entry.state.Released? && entry.receipt == t.receipt && entry.sequence == position
    && entry.generation == t.generation && entry.graphRevision == t.graphRevision && entry.policy == t.policy
    && entry.run == before.run && entry.subject == before.subject == t.subject
    && entry.original == before.original == t.original && entry.limiter == before.limiter
  }

  ghost predicate AdmissionRead(l: Ledger, events: seq<JournalEvent>, key: Scoped) {
    var last := Last(events, AdmissionSlot(key));
    if last.None? then key !in l.admissions && key !in l.admissionTombs
    else
      && key in l.admissions
      && match BodyAt(events[last.value])
         case AdmissionBody(a) => l.admissions[key] == a.(sequence := last.value + 1) && key !in l.admissionTombs
         case ReleaseBody(t) =>
           && key in l.admissionTombs && l.admissionTombs[key] == t
           && var before := Last(events[..last.value], AdmissionSlot(key));
           && before.Some? && BodyAt(events[before.value]).AdmissionBody?
           && ReleasedEntry(l.admissions[key], BodyAt(events[before.value]).admission, t, last.value + 1)
         case _ => false
  }

  ghost predicate AdmissionsRead(l: Ledger, events: seq<JournalEvent>) {
    forall key :: AdmissionRead(l, events, key)
  }

  lemma AdmissionReadOther(l: Ledger, next: Ledger, events: seq<JournalEvent>, e: JournalEvent, key: Scoped)
    requires AdmissionRead(l, events, key) && !Writes(e, AdmissionSlot(key))
    requires key in l.admissions <==> key in next.admissions
    requires key in l.admissions ==> next.admissions[key] == l.admissions[key]
    requires key in l.admissionTombs <==> key in next.admissionTombs
    requires key in l.admissionTombs ==> next.admissionTombs[key] == l.admissionTombs[key]
    ensures AdmissionRead(next, events + [e], key)
  {
    LastOne(events, e, AdmissionSlot(key));
    var last := Last(events, AdmissionSlot(key));
    if last.Some? {
      assert (events + [e])[..last.value] == events[..last.value];
    }
  }

  lemma AdmissionReadWritten(l: Ledger, events: seq<JournalEvent>, e: JournalEvent, a: RunAdmission)
    requires IsTransition(e) && e.payload.body == AdmissionBody(a) && AdmissionsRead(l, events)
    requires ApplyAdmission(l, e.payload.request.binding.run, a, |events| + 1).Some?
    ensures AdmissionsRead(ApplyAdmission(l, e.payload.request.binding.run, a, |events| + 1).value, events + [e])
  {
    hide Last;
    var run := e.payload.request.binding.run;
    var next, key := ApplyAdmission(l, run, a, |events| + 1).value, Scoped(run, a.subject.id);
    LastOne(events, e, AdmissionSlot(key));
    assert AdmissionRead(l, events, key);
    forall k ensures AdmissionRead(next, events + [e], k) {
      if k != key {
        assert AdmissionRead(l, events, k);
        AdmissionReadOther(l, next, events, e, k);
      }
    }
  }

  lemma AdmissionReadReleased(l: Ledger, events: seq<JournalEvent>, e: JournalEvent, t: AdmissionTombstone)
    requires IsTransition(e) && e.payload.body == ReleaseBody(t) && AdmissionsRead(l, events)
    requires ApplyRelease(l, e.payload.request.binding.run, t, e.payload.request.binding.operation, |events| + 1).Some?
    ensures AdmissionsRead(
              ApplyRelease(l, e.payload.request.binding.run, t, e.payload.request.binding.operation, |events| + 1).value,
              events + [e])
  {
    hide Last;
    var run, op := e.payload.request.binding.run, e.payload.request.binding.operation;
    var next, key := ApplyRelease(l, run, t, op, |events| + 1).value, Scoped(run, t.subject.id);
    LastOne(events, e, AdmissionSlot(key));
    assert AdmissionRead(l, events, key);
    assert (events + [e])[..|events|] == events;
    forall k ensures AdmissionRead(next, events + [e], k) {
      if k != key {
        assert AdmissionRead(l, events, k);
        AdmissionReadOther(l, next, events, e, k);
      }
    }
  }

  lemma StepReadsAdmissions(inst: string, s: ReplayState, events: seq<JournalEvent>, e: JournalEvent)
    requires StepEvent(inst, s, e).Some? && s.p.position == |events| && AdmissionsRead(s.p.ledger, events)
    ensures AdmissionsRead(StepEvent(inst, s, e).value.p.ledger, events + [e])
  {
    hide StepEvent, AdmissionRead, ValidOutcome, Last, SlotOf;
    hide ApplyAdmission, ApplyRelease, ApplyLease, ApplyLeaseEnd, ApplyHandoff, ApplyRecovery;
    StepTables(inst, s, e);
    var next := StepEvent(inst, s, e).value.p.ledger;
    if OnAdmission(e) {
      if BodyAt(e).AdmissionBody? {
        AdmissionReadWritten(s.p.ledger, events, e, BodyAt(e).admission);
      } else {
        AdmissionReadReleased(s.p.ledger, events, e, BodyAt(e).released);
      }
    } else {
      forall key ensures AdmissionRead(next, events + [e], key) {
        assert AdmissionRead(s.p.ledger, events, key);
        NoAdmissionWritten(e, key);
        AdmissionReadOther(s.p.ledger, next, events, e, key);
      }
    }
  }

  lemma NoAdmissionWritten(e: JournalEvent, key: Scoped)
    requires !OnAdmission(e)
    ensures !Writes(e, AdmissionSlot(key))
  {
  }

  /** Every admission entry of a replayed projection is the one its last transition left. */
  lemma {:induction false} ReplayReadsAdmissions(inst: string, events: seq<JournalEvent>)
    requires Replay(inst, events).Some?
    ensures AdmissionsRead(Replay(inst, events).value.p.ledger, events)
  {
    hide StepEvent;
    if events != [] {
      hide AdmissionsRead;
      var n := |events| - 1;
      ReplayReadsAdmissions(inst, events[..n]);
      HeadsMatchStore(inst, events[..n]);
      StepReadsAdmissions(inst, Replay(inst, events[..n]).value, events[..n], events[n]);
      assert events == events[..n] + [events[n]];
    }
  }

  // Leases

  /** The entry after a release or an expiry. */
  predicate EndedEntry(entry: Lease, before: Lease, t: LeaseTombstone, op: Operation) {
    && (op.LeaseRelease? ==> entry.state.LeaseReleased?) && (op.LeaseExpire? ==> entry.state.LeaseExpired?)
    && (op.LeaseRelease? || op.LeaseExpire?)
    && entry.receipt == t.receipt && entry.generation == t.generation && entry.graphRevision == t.graphRevision
    && entry.run == before.run && entry.subject == before.subject == t.subject && entry.original == before.original == t.original
    && entry.issuedAt == before.issuedAt == t.issuedAt && entry.expiresAt == before.expiresAt == t.expiresAt
  }

  ghost predicate LeaseRead(l: Ledger, events: seq<JournalEvent>, key: Scoped) {
    var last := Last(events, LeaseSlot(key));
    if last.None? then key !in l.leases && key !in l.leaseTombs
    else
      && key in l.leases
      && match BodyAt(events[last.value])
         case LeaseBody(lease) => l.leases[key] == lease && lease.state.Active? && key !in l.leaseTombs
         case LeaseEndBody(t) =>
           && key in l.leaseTombs && l.leaseTombs[key] == t
           && var before := Last(events[..last.value], LeaseSlot(key));
           && before.Some? && BodyAt(events[before.value]).LeaseBody?
           && EndedEntry(l.leases[key], BodyAt(events[before.value]).lease, t, events[last.value].payload.request.binding.operation)
         case _ => false
  }

  ghost predicate LeasesRead(l: Ledger, events: seq<JournalEvent>) {
    forall key :: LeaseRead(l, events, key)
  }

  lemma LeaseReadOther(l: Ledger, next: Ledger, events: seq<JournalEvent>, e: JournalEvent, key: Scoped)
    requires LeaseRead(l, events, key) && !Writes(e, LeaseSlot(key))
    requires key in l.leases <==> key in next.leases
    requires key in l.leases ==> next.leases[key] == l.leases[key]
    requires key in l.leaseTombs <==> key in next.leaseTombs
    requires key in l.leaseTombs ==> next.leaseTombs[key] == l.leaseTombs[key]
    ensures LeaseRead(next, events + [e], key)
  {
    LastOne(events, e, LeaseSlot(key));
    var last := Last(events, LeaseSlot(key));
    if last.Some? {
      assert (events + [e])[..last.value] == events[..last.value];
    }
  }

  lemma LeaseReadWritten(l: Ledger, events: seq<JournalEvent>, e: JournalEvent, lease: Lease)
    requires IsTransition(e) && e.payload.body == LeaseBody(lease) && LeasesRead(l, events)
    requires ApplyLease(l, e.payload.request.binding.run, lease).Some?
    ensures LeasesRead(ApplyLease(l, e.payload.request.binding.run, lease).value, events + [e])
  {
    hide Last;
    var run := e.payload.request.binding.run;
    var next, key := ApplyLease(l, run, lease).value, Scoped(run, lease.subject.id);
    LastOne(events, e, LeaseSlot(key));
    assert LeaseRead(l, events, key);
    forall k ensures LeaseRead(next, events + [e], k) {
      if k != key {
        assert LeaseRead(l, events, k);
        LeaseReadOther(l, next, events, e, k);
      }
    }
  }

  lemma LeaseReadEnded(l: Ledger, events: seq<JournalEvent>, e: JournalEvent, t: LeaseTombstone)
    requires IsTransition(e) && e.payload.body == LeaseEndBody(t) && LeasesRead(l, events)
    requires ValidLeaseEndOutcome(e.payload.request, t)
    requires ApplyLeaseEnd(l, e.payload.request.binding.run, e.payload.request.binding.subject, t).Some?
    ensures LeasesRead(ApplyLeaseEnd(l, e.payload.request.binding.run, e.payload.request.binding.subject, t).value, events + [e])
  {
    hide Last;
    var run := e.payload.request.binding.run;
    var next, key := ApplyLeaseEnd(l, run, e.payload.request.binding.subject, t).value, Scoped(run, t.subject.id);
    LastOne(events, e, LeaseSlot(key));
    assert LeaseRead(l, events, key);
    assert (events + [e])[..|events|] == events;
    forall k ensures LeaseRead(next, events + [e], k) {
      if k != key {
        assert LeaseRead(l, events, k);
        LeaseReadOther(l, next, events, e, k);
      }
    }
  }

  lemma StepReadsLeases(inst: string, s: ReplayState, events: seq<JournalEvent>, e: JournalEvent)
    requires StepEvent(inst, s, e).Some? && s.p.position == |events| && LeasesRead(s.p.ledger, events)
    ensures LeasesRead(StepEvent(inst, s, e).value.p.ledger, events + [e])
  {
    hide StepEvent, LeaseRead, ValidLeaseEndOutcome, Last, SlotOf;
    hide ApplyAdmission, ApplyRelease, ApplyLease, ApplyLeaseEnd, ApplyHandoff, ApplyRecovery;
    StepTables(inst, s, e);
    var next := StepEvent(inst, s, e).value.p.ledger;
    if OnLease(e) {
      if BodyAt(e).LeaseBody? {
        LeaseReadWritten(s.p.ledger, events, e, BodyAt(e).lease);
      } else {
        LeaseReadEnded(s.p.ledger, events, e, BodyAt(e).ended);
      }
    } else {
      forall key ensures LeaseRead(next, events + [e], key) {
        assert LeaseRead(s.p.ledger, events, key);
        NoLeaseWritten(e, key);
        LeaseReadOther(s.p.ledger, next, events, e, key);
      }
    }
  }

  lemma NoLeaseWritten(e: JournalEvent, key: Scoped)
    requires !OnLease(e)
    ensures !Writes(e, LeaseSlot(key))
  {
  }

  /** Every lease entry of a replayed projection is the one its last transition left. */
  lemma {:induction false} ReplayReadsLeases(inst: string, events: seq<JournalEvent>)
    requires Replay(inst, events).Some?
    ensures LeasesRead(Replay(inst, events).value.p.ledger, events)
  {
    hide StepEvent;
    if events != [] {
      hide LeasesRead;
      var n := |events| - 1;
      ReplayReadsLeases(inst, events[..n]);
      HeadsMatchStore(inst, events[..n]);
      StepReadsLeases(inst, Replay(inst, events[..n]).value, events[..n], events[n]);
      assert events == events[..n] + [events[n]];
    }
  }

  // Recoveries

  ghost predicate RecoveryRead(l: Ledger, events: seq<JournalEvent>, key: RecoveryKey) {
    var last := Last(events, RecoverySlot(key));
    if last.None? then key !in l.recoveries
    else key in l.recoveries && BodyAt(events[last.value]) == RecoveryBody(l.recoveries[key])
  }

  ghost predicate RecoveriesRead(l: Ledger, events: seq<JournalEvent>) {
    forall key :: RecoveryRead(l, events, key)
  }

  lemma StepReadsRecoveries(inst: string, s: ReplayState, events: seq<JournalEvent>, e: JournalEvent)
    requires StepEvent(inst, s, e).Some? && RecoveriesRead(s.p.ledger, events)
    ensures RecoveriesRead(StepEvent(inst, s, e).value.p.ledger, events + [e])
  {
    hide StepEvent, ValidOutcome, Last, LatestRecovery, MayStartGeneration;
    hide ApplyAdmission, ApplyRelease, ApplyLease, ApplyLeaseEnd, ApplyHandoff;
    StepTables(inst, s, e);
    var next := StepEvent(inst, s, e).value.p.ledger;
    forall key ensures RecoveryRead(next, events + [e], key) {
      assert RecoveryRead(s.p.ledger, events, key);
      LastOne(events, e, RecoverySlot(key));
    }
  }

  /** Every recovery entry of a replayed projection is the one its last transition left. */
  lemma {:induction false} ReplayReadsRecoveries(inst: string, events: seq<JournalEvent>)
    requires Replay(inst, events).Some?
    ensures RecoveriesRead(Replay(inst, events).value.p.ledger, events)
  {
    hide StepEvent;
    if events != [] {
      hide RecoveriesRead;
      var n := |events| - 1;
      ReplayReadsRecoveries(inst, events[..n]);
      StepReadsRecoveries(inst, Replay(inst, events[..n]).value, events[..n], events[n]);
      assert events == events[..n] + [events[n]];
    }
  }
}
