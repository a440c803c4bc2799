/**
 The moves of admissions, leases and recoveries through any replayable journal, and
 what an ended entry no longer does.
 */
module AdmissionMoves {
  import opened Wrappers
  import opened Journal
  import opened AdmissionTypes
  import opened AdmissionReplay
  import opened AdmissionBuild
  import opened AdmissionFacts
  import opened AdmissionEntries

  function OperationAt(e: JournalEvent): Operation
    requires IsTransition(e)
  {
    e.payload.request.binding.operation
  }

  /** The state replay reaches before event i, and the event's step from it. */
  lemma StepAt(inst: string, events: seq<JournalEvent>, i: nat)
    requires i < |events| && Replay(inst, events).Some?
    ensures Replay(inst, events[..i]).Some? && Replay(inst, events[..i + 1]).Some?
    ensures StepEvent(inst, Replay(inst, events[..i]).value, events[i]) == Replay(inst, events[..i + 1])
    ensures Replay(inst, events[..i]).value.p.position == i
  {
    hide StepEvent;
    ReplayPrefix(inst, events, i);
    ReplayPrefix(inst, events, i + 1);
    assert events[..i + 1][..i] == events[..i];
    HeadsMatchStore(inst, events[..i]);
  }

  // Admissions

  /** The states one admission transition may lead between. */
  predicate AdmissionMove(from: AdmissionState, to: AdmissionState) {
    || (from.Reserved? && (to.Queued? || to.Admitted? || to.Deferred?))
    || (from.Queued? && (to.Admitted? || to.Deferred?))
    || (from.Deferred? && (to.Admitted? || to.Deferred?))
  }

  /** An operation writes the state it is named for; only a deferral names a limiting quota. */
  predicate StateOf(op: Operation, a: RunAdmission) {
    && (op.AdmissionReserve? || op.QueueEnqueue? || op.QueueAdmit? || op.BackpressureDefer?)
    && (op.AdmissionReserve? <==> a.state.Reserved?) && (op.QueueEnqueue? <==> a.state.Queued?)
    && (op.QueueAdmit? <==> a.state.Admitted?) && (op.BackpressureDefer? <==> a.state.Deferred?)
    && (a.limiter.NoQuota? <==> !a.state.Deferred?)
  }

  /** A release is written by the operation the state before calls for. */
  predicate ReleaseOf(op: Operation, from: AdmissionState) {
    || (op.AdmissionRelease? && (from.Reserved? || from.Admitted?))
    || (op.QueueRelease? && (from.Queued? || from.Deferred?))
  }

  ghost predicate AdmissionMoves(inst: string, events: seq<JournalEvent>, i: nat)
    requires i < |events| && OnAdmission(events[i])
  {
    var request, op := events[i].payload.request, OperationAt(events[i]);
    match BodyAt(events[i])
    case AdmissionBody(a) =>
      var before := Last(events[..i], AdmissionSlot(Scoped(request.binding.run, a.subject.id)));
      && StateOf(op, a) && (before.None? <==> a.state.Reserved?)
      && a.run == request.binding.run && request.policy == Some(a.policy)
      && a.generation == request.binding.identity.generation
      && a.receipt == Receipt(op, inst, a.run, request.binding.identity.action, a.generation, a.original)
      && (before.Some? ==>
            && BodyAt(events[before.value]).AdmissionBody?
            && BodyAt(events[before.value]).admission.subject == a.subject
            && AdmissionMove(BodyAt(events[before.value]).admission.state, a.state))
    case ReleaseBody(t) =>
      var before := Last(events[..i], AdmissionSlot(Scoped(request.binding.run, t.subject.id)));
      && before.Some? && BodyAt(events[before.value]).AdmissionBody?
      && BodyAt(events[before.value]).admission.subject == t.subject
      && BodyAt(events[before.value]).admission.original == t.original
      && ReleaseOf(op, BodyAt(events[before.value]).admission.state)
      && t.receipt == Receipt(op, inst, t.run, request.binding.identity.action, t.generation, t.original)
    case _ => false
  }

  /** Every admission transition of a replayable journal starts an entry or makes a listed move from the one before. */
  lemma AdmissionsMove(inst: string, events: seq<JournalEvent>, i: nat)
    requires i < |events| && Replay(inst, events).Some? && OnAdmission(events[i])
    ensures AdmissionMoves(inst, events, i)
  {
    hide StepEvent, Last, ApplyLease, ApplyLeaseEnd, ApplyHandoff, ApplyRecovery;
    hide ValidLeaseOutcome, ValidLeaseEndOutcome, ValidHandoffOutcome, ValidRecoveryOutcome;
    StepAt(inst, events, i);
    var s, e := Replay(inst, events[..i]).value, events[i];
    StepTables(inst, s, e);
    BoundTo(inst, s, e);
    ReplayReadsAdmissions(inst, events[..i]);
    var run := e.payload.request.binding.run;
    var key := if BodyAt(e).AdmissionBody? then Scoped(run, BodyAt(e).admission.subject.id) else Scoped(run, BodyAt(e).released.subject.id);
    assert AdmissionRead(s.p.ledger, events[..i], key);
  }

  lemma BoundTo(inst: string, s: ReplayState, e: JournalEvent)
    requires StepEvent(inst, s, e).Some? && IsTransition(e)
    ensures e.payload.request.binding.installation == inst && e.payload.request.binding.run == e.run
  {
    hide StepEvent, ValidOutcome, Apply, Unseen;
    StepCases(inst, s, e);
  }

  /** Nothing is ever written under an entry after its release. */
  lemma {:induction false} ReleaseIsLast(inst: string, events: seq<JournalEvent>, i: nat, key: Scoped)
    requires i < |events| && Replay(inst, events).Some?
    requires Writes(events[i], AdmissionSlot(key)) && BodyAt(events[i]).ReleaseBody?
    ensures Last(events, AdmissionSlot(key)) == Some(i)
    decreases |events|
  {
    hide StepEvent, ReplayFrom;
    var n := |events| - 1;
    if i < n {
      ReplayPrefix(inst, events, n);
      ReleaseIsLast(inst, events[..n], i, key);
      if Writes(events[n], AdmissionSlot(key)) {
        WritesAdmission(events[n], key);
        AdmissionsMove(inst, events, n);
      }
    }
  }

  lemma WritesAdmission(e: JournalEvent, key: Scoped)
    requires Writes(e, AdmissionSlot(key))
    ensures OnAdmission(e)
  {
  }

  /**
   A released entry is Released, with the release's receipt and position, in every
   replayable extension of the journal.
   */
  lemma ReleasedForever(inst: string, events: seq<JournalEvent>, i: nat, key: Scoped)
    requires i < |events| && Replay(inst, events).Some?
    requires Writes(events[i], AdmissionSlot(key)) && BodyAt(events[i]).ReleaseBody?
    ensures var l := Replay(inst, events).value.p.ledger;
            && key in l.admissions && l.admissions[key].state.Released?
            && l.admissions[key].receipt == BodyAt(events[i]).released.receipt && l.admissions[key].sequence == i + 1
            && key in l.admissionTombs && l.admissionTombs[key] == BodyAt(events[i]).released
  {
    hide StepEvent, Last;
    ReleaseIsLast(inst, events, i, key);
    ReplayReadsAdmissions(inst, events);
    assert AdmissionRead(Replay(inst, events).value.p.ledger, events, key);
  }

  /** A key counts against the quotas exactly when its last transition admitted it. */
  lemma AdmittedIff(inst: string, events: seq<JournalEvent>, key: Scoped)
    requires Replay(inst, events).Some?
    ensures var m, last := Replay(inst, events).value.p.ledger.admissions, Last(events, AdmissionSlot(key));
            (key in m && m[key].state.Admitted?) <==> (last.Some? && OperationAt(events[last.value]).QueueAdmit?)
  {
    hide StepEvent, Last;
    ReplayReadsAdmissions(inst, events);
    assert AdmissionRead(Replay(inst, events).value.p.ledger, events, key);
    var last := Last(events, AdmissionSlot(key));
    if last.Some? {
      WritesAdmission(events[last.value], key);
      AdmissionsMove(inst, events, last.value);
    }
  }

  /** A release takes exactly its own entry out of every dimension. */
  lemma ReleaseFrees(inst: string, events: seq<JournalEvent>, i: nat, key: Scoped, d: Dimension)
    requires i < |events| && Replay(inst, events).Some?
    requires Writes(events[i], AdmissionSlot(key)) && BodyAt(events[i]).ReleaseBody?
    ensures Replay(inst, events[..i]).Some? && Replay(inst, events[..i + 1]).Some?
    ensures Occupants(Replay(inst, events[..i + 1]).value.p.ledger.admissions, d)
            == Occupants(Replay(inst, events[..i]).value.p.ledger.admissions, d) - {key}
  {
    hide StepEvent, Last, ApplyAdmission, ApplyLease, ApplyLeaseEnd, ApplyHandoff, ApplyRecovery, ValidOutcome, InDimension;
    StepAt(inst, events, i);
    StepTables(inst, Replay(inst, events[..i]).value, events[i]);
  }

  // Leases

  ghost predicate LeaseMoves(inst: string, events: seq<JournalEvent>, i: nat)
    requires i < |events| && OnLease(events[i])
  {
    var request, op := events[i].payload.request, OperationAt(events[i]);
    match BodyAt(events[i])
    case LeaseBody(l) =>
      var before := Last(events[..i], LeaseSlot(Scoped(request.binding.run, l.subject.id)));
      && (op.LeaseAcquire? || op.LeaseRenew?) && l.state.Active? && l.issuedAt < l.expiresAt
      && l.run == request.binding.run && l.generation == request.binding.identity.generation
      && request.binding.subject == LeaseSubj(l.subject, l.expiresAt)
      && l.receipt == Receipt(op, inst, l.run, request.binding.identity.action, l.generation, l.original)
      && (before.Some? ==>
            && BodyAt(events[before.value]).LeaseBody?
            && var held := BodyAt(events[before.value]).lease;
            && held.subject == l.subject && held.original == l.original && held.issuedAt == l.issuedAt
            && held.generation < l.generation && held.expiresAt < l.expiresAt)
    case LeaseEndBody(t) =>
      var before := Last(events[..i], LeaseSlot(Scoped(request.binding.run, t.subject.id)));
      && (op.LeaseRelease? || op.LeaseExpire?)
      && before.Some? && BodyAt(events[before.value]).LeaseBody?
      && var held := BodyAt(events[before.value]).lease;
      && held.subject == t.subject && held.original == t.original
      && held.issuedAt == t.issuedAt && held.expiresAt == t.expiresAt
      && held.issuedAt <= t.terminalAt && (op.LeaseExpire? ==> held.expiresAt <= t.terminalAt)
      && request.binding.subject == LeaseSubj(held.subject, held.expiresAt)
      && t.receipt == Receipt(op, inst, t.run, request.binding.identity.action, t.generation, t.original)
    case _ => false
  }

  /** Every lease transition takes, extends or ends a lease, each extension strictly later than the one before. */
  lemma LeasesMove(inst: string, events: seq<JournalEvent>, i: nat)
    requires i < |events| && Replay(inst, events).Some? && OnLease(events[i])
    ensures LeaseMoves(inst, events, i)
  {
    hide StepEvent, Last, ApplyAdmission, ApplyRelease, ApplyHandoff, ApplyRecovery;
    hide ValidAdmissionOutcome, ValidReleaseOutcome, ValidHandoffOutcome, ValidRecoveryOutcome;
    StepAt(inst, events, i);
    var s, e := Replay(inst, events[..i]).value, events[i];
    StepTables(inst, s, e);
    BoundTo(inst, s, e);
    ReplayReadsLeases(inst, events[..i]);
    var run := e.payload.request.binding.run;
    var key := if BodyAt(e).LeaseBody? then Scoped(run, BodyAt(e).lease.subject.id) else Scoped(run, BodyAt(e).ended.subject.id);
    assert LeaseRead(s.p.ledger, events[..i], key);
  }

  lemma WritesLease(e: JournalEvent, key: Scoped)
    requires Writes(e, LeaseSlot(key))
    ensures OnLease(e)
  {
  }

  /** Nothing is ever written under a lease after its end. */
  lemma {:induction false} EndIsLast(inst: string, events: seq<JournalEvent>, i: nat, key: Scoped)
    requires i < |events| && Replay(inst, events).Some?
    requires Writes(events[i], LeaseSlot(key)) && BodyAt(events[i]).LeaseEndBody?
    ensures Last(events, LeaseSlot(key)) == Some(i)
    decreases |events|
  {
    hide StepEvent, ReplayFrom;
    var n := |events| - 1;
    if i < n {
      ReplayPrefix(inst, events, n);
      EndIsLast(inst, events[..n], i, key);
      if Writes(events[n], LeaseSlot(key)) {
        WritesLease(events[n], key);
        LeasesMove(inst, events, n);
      }
    }
  }

  /** A lease once released or expired stays so, with that end's receipt, in every replayable extension. */
  lemma EndedForever(inst: string, events: seq<JournalEvent>, i: nat, key: Scoped)
    requires i < |events| && Replay(inst, events).Some?
    requires Writes(events[i], LeaseSlot(key)) && BodyAt(events[i]).LeaseEndBody?
    ensures var l := Replay(inst, events).value.p.ledger;
            && key in l.leases && l.leases[key].receipt == BodyAt(events[i]).ended.receipt
            && (OperationAt(events[i]).LeaseRelease? ==> l.leases[key].state.LeaseReleased?)
            && (OperationAt(events[i]).LeaseExpire? ==> l.leases[key].state.LeaseExpired?)
            && (OperationAt(events[i]).LeaseRelease? || OperationAt(events[i]).LeaseExpire?)
            && key in l.leaseTombs && l.leaseTombs[key] == BodyAt(events[i]).ended
  {
    hide StepEvent, Last;
    EndIsLast(inst, events, i, key);
    ReplayReadsLeases(inst, events);
    assert LeaseRead(Replay(inst, events).value.p.ledger, events, key);
  }

  /** The last transition of another lease took or extended it, on this resource, one of the two exclusively. */
  ghost predicate HeldAgainst(events: seq<JournalEvent>, key: Scoped, run: string, subject: LeaseSubject) {
    var last := Last(events, LeaseSlot(key));
    && last.Some? && BodyAt(events[last.value]).LeaseBody? && key != Scoped(run, subject.id)
    && var held := BodyAt(events[last.value]).lease.subject;
    && held.resource == subject.resource && (held.mode.Exclusive? || subject.mode.Exclusive?)
  }

  /** A request meets a conflicting lease exactly when the journal's last word on some other lease holds against it. */
  lemma ConflictIff(inst: string, events: seq<JournalEvent>, run: string, subject: LeaseSubject)
    requires Replay(inst, events).Some?
    ensures ConflictingLease(Replay(inst, events).value.p.ledger.leases, run, subject)
            <==> exists key :: HeldAgainst(events, key, run, subject)
  {
    hide StepEvent, Last;
    ReplayReadsLeases(inst, events);
    var m := Replay(inst, events).value.p.ledger.leases;
    forall key
      ensures HeldAgainst(events, key, run, subject) <==>
              key in m && m[key].state.Active? && key != Scoped(run, subject.id) && Excludes(m[key].subject, subject)
    {
      assert LeaseRead(Replay(inst, events).value.p.ledger, events, key);
    }
  }

  // Recoveries

  /** The state a recovery record shows is the one its provider fact names; a started observation has no fact. */
  predicate FactNamesState(v: RecoveryRecord) {
    && (v.fact.None? <==> v.state.ObservationStarted?)
    && (v.fact.Some? ==>
          && (v.fact.value.status.ProviderEffectObserved? <==> v.state.Applied?)
          && (v.fact.value.status.ProviderNotPerformed? <==> v.state.NotPerformed?)
          && (v.fact.value.status.ProviderCanceled? <==> v.state.Canceled?)
          && (v.fact.value.status.ProviderFenced? <==> v.state.Fenced?)
          && !v.fact.value.status.ProviderAmbiguous?
          && v.fact.value.digest == v.identity.digest && v.fact.value.receipt != "")
  }

  /** Starting needs a closed predecessor of the same digest, if the action was ever recovered. */
  ghost predicate MayStart(m: map<RecoveryKey, RecoveryRecord>, i: RecoveryIdentity) {
    var key := RecoveryKeyOf(i);
    || (forall k | k in m :: !SameLine(k, key))
    || (&& i.generation > 0 && i.generation - 1 != MAX_UINT64
        && var previous := key.(generation := i.generation - 1);
        && previous in m && (m[previous].state.Canceled? || m[previous].state.NotPerformed?)
        && m[previous].identity.digest == i.digest
        && forall k | k in m && SameLine(k, key) :: k.generation < i.generation)
  }

  ghost predicate RecoveryMoves(inst: string, m: map<RecoveryKey, RecoveryRecord>, e: JournalEvent)
    requires OnRecovery(e)
  {
    var v, op, b := BodyAt(e).recovery, OperationAt(e), e.payload.request.binding;
    var key := RecoveryKeyOf(v.identity);
    && v.identity.run == e.run && v.identity.installation == inst
    && v.receipt == Receipt(op, inst, e.run, b.identity.action, b.identity.generation, e.payload.request)
    && FactNamesState(v)
    && (op.StartObservation? || op.CancelOrFence? || op.ScannerApply?)
    && (op.StartObservation? <==> v.state.ObservationStarted?) && (v.state.Applied? ==> op.ScannerApply?)
    && (if v.state.ObservationStarted? then key !in m && MayStart(m, v.identity)
        else
          && key in m && m[key].state.ObservationStarted?
          && forall k | k in m && SameLine(k, key) :: k.generation <= key.generation)
  }

  lemma RecoveryApplies(m: Ledger, v: RecoveryRecord)
    requires RecoveriesKeyed(m.recoveries) && ApplyRecovery(m, v).Some?
    ensures var key := RecoveryKeyOf(v.identity);
            if v.state.ObservationStarted? then key !in m.recoveries && MayStart(m.recoveries, v.identity)
            else
              && key in m.recoveries && m.recoveries[key].state.ObservationStarted?
              && forall k | k in m.recoveries && SameLine(k, key) :: k.generation <= key.generation
  {
    hide LatestRecovery;
    LatestIsHighest(m.recoveries, v.identity);
  }

  lemma OutcomeNames(inst: string, e: JournalEvent)
    requires OnRecovery(e) && ValidOutcome(RecordAt(e).request, RecordAt(e).body)
    requires e.payload.request.binding.installation == inst && e.payload.request.binding.run == e.run
    ensures var v, op, b := BodyAt(e).recovery, OperationAt(e), e.payload.request.binding;
            && v.identity.run == e.run && v.identity.installation == inst
            && v.receipt == Receipt(op, inst, e.run, b.identity.action, b.identity.generation, e.payload.request)
            && FactNamesState(v)
            && (op.StartObservation? || op.CancelOrFence? || op.ScannerApply?)
            && (op.StartObservation? <==> v.state.ObservationStarted?) && (v.state.Applied? ==> op.ScannerApply?)
  {
    hide ValidAdmissionOutcome, ValidReleaseOutcome, ValidLeaseOutcome, ValidLeaseEndOutcome, ValidHandoffOutcome;
  }

  /**
   Every recovery transition of a replayable journal records the state its provider fact
   names, and starts a generation or settles a started one that is still the latest.
   */
  lemma RecoveriesMove(inst: string, events: seq<JournalEvent>, i: nat)
    requires i < |events| && Replay(inst, events).Some? && OnRecovery(events[i])
    ensures Replay(inst, events[..i]).Some?
    ensures RecoveryMoves(inst, Replay(inst, events[..i]).value.p.ledger.recoveries, events[i])
  {
    hide StepEvent, ValidOutcome, FactNamesState, MayStart;
    hide ApplyAdmission, ApplyRelease, ApplyLease, ApplyLeaseEnd, ApplyHandoff, ApplyRecovery;
    StepAt(inst, events, i);
    var s, e := Replay(inst, events[..i]).value, events[i];
    StepTables(inst, s, e);
    BoundTo(inst, s, e);
    OutcomeNames(inst, e);
    ReplayIndexed(inst, events[..i]);
    RecoveryApplies(s.p.ledger, BodyAt(e).recovery);
  }

  /** Every recovery entry of a replayed projection shows the state its provider fact names. */
  lemma RecoveriesShowFacts(inst: string, events: seq<JournalEvent>, key: RecoveryKey)
    requires Replay(inst, events).Some? && key in Replay(inst, events).value.p.ledger.recoveries
    ensures FactNamesState(Replay(inst, events).value.p.ledger.recoveries[key])
  {
    hide StepEvent, FactNamesState, ReplayFrom, Last;
    ReplayReadsRecoveries(inst, events);
    assert RecoveryRead(Replay(inst, events).value.p.ledger, events, key);
    RecoveriesMove(inst, events, Last(events, RecoverySlot(key)).value);
  }
}
