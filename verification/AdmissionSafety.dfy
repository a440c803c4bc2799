/**
 Safety of the whole step system: quotas, lease exclusion and the exact condition
 under which what the writers commit is what replay accepts.
 */
module AdmissionSafety {
  import opened Wrappers
  import opened AdmissionTypes
  import opened AdmissionReplay
  import opened AdmissionBuild
  import opened AdmissionFacts

  // What a safe ledger looks like

  ghost predicate QuotasKept(policy: Policy, m: map<Scoped, RunAdmission>) {
    forall d :: |Occupants(m, d)| <= Limit(policy, d)
  }

  ghost predicate LeasesExclusive(m: map<Scoped, Lease>) {
    forall j, k | j in m && k in m && j != k && m[j].state.Active? && m[k].state.Active? ::
      !Excludes(m[j].subject, m[k].subject)
  }

  ghost predicate Safe(policy: Policy, l: Ledger) {
    QuotasKept(policy, l.admissions) && LeasesExclusive(l.leases)
  }

  lemma SubsetSize<T>(a: set<T>, b: set<T>)
    requires a <= b
    ensures |a| <= |b|
  {
    assert b == a + (b - a);
  }

  lemma QuotasAfterPlain(policy: Policy, m: map<Scoped, RunAdmission>, key: Scoped, value: RunAdmission)
    requires QuotasKept(policy, m) && !value.state.Admitted?
    ensures QuotasKept(policy, m[key := value])
  {
    forall d ensures |Occupants(m[key := value], d)| <= Limit(policy, d) {
      SubsetSize(Occupants(m[key := value], d), Occupants(m, d));
    }
  }

  lemma QuotasAfterAdmit(policy: Policy, m: map<Scoped, RunAdmission>, key: Scoped, value: RunAdmission)
    requires QuotasKept(policy, m)
    requires LimitingQuota(policy, m, value.run, value.subject).NoQuota?
    ensures QuotasKept(policy, m[key := value])
  {
    forall d ensures |Occupants(m[key := value], d)| <= Limit(policy, d) {
      if InDimension(value, d) {
        assert !Full(policy, m, d);
        SubsetSize(Occupants(m[key := value], d), Occupants(m, d) + {key});
      } else {
        SubsetSize(Occupants(m[key := value], d), Occupants(m, d));
      }
    }
  }

  lemma ExclusiveAfterAcquire(m: map<Scoped, Lease>, run: string, value: Lease)
    requires LeasesExclusive(m) && !ConflictingLease(m, run, value.subject)
    ensures LeasesExclusive(m[Scoped(run, value.subject.id) := value])
  {
    var key := Scoped(run, value.subject.id);
    forall j | j in m && j != key && m[j].state.Active?
      ensures !Excludes(m[j].subject, value.subject) && !Excludes(value.subject, m[j].subject)
    {
    }
  }

  lemma ExclusiveAfterUpdate(m: map<Scoped, Lease>, key: Scoped, value: Lease)
    requires LeasesExclusive(m) && key in m && m[key].state.Active? && value.subject == m[key].subject
    ensures LeasesExclusive(m[key := value])
  {
  }

  // Writer against replayer, one call kind at a time

  /** The state a call must find for replay to accept what its builder writes. */
  predicate Guard(l: Ledger, call: Call, now: int) {
    match call
    case AdmissionCall(run, _, subject, op, _) =>
      op.QueueEnqueue? && Scoped(run, subject.id) in l.admissions ==>
        l.admissions[Scoped(run, subject.id)].state.Reserved?
    case EndLeaseCall(run, _, lease, _, expire) =>
      !expire && Scoped(run, lease.id) in l.leases ==> l.leases[Scoped(run, lease.id)].issuedAt <= now
    case _ => true
  }

  lemma ReserveLands(cfg: Config, l: Ledger, call: Call, n: nat)
    requires call.ReserveCall? && BuildReserve(cfg, l, call).Ok? && Safe(cfg.policy, l)
    ensures var body := BuildReserve(cfg, l, call).value;
            var next := ApplyAdmission(l, call.run, body.admission, n);
            next.Some? && Safe(cfg.policy, next.value)
  {
    var a := BuildReserve(cfg, l, call).value.admission;
    QuotasAfterPlain(cfg.policy, l.admissions, Scoped(call.run, a.subject.id), a.(sequence := n));
  }

  lemma AdmissionLands(cfg: Config, l: Ledger, call: Call, n: nat)
    requires call.AdmissionCall? && call.Valid(cfg) && BuildAdmission(cfg, l, call).Ok?
    requires AdmissionsKeyed(l.admissions) && Safe(cfg.policy, l)
    ensures var body := BuildAdmission(cfg, l, call).value;
            var next := ApplyAdmission(l, call.run, body.admission, n);
            && (next.Some? <==> Guard(l, call, 0))
            && (next.Some? ==> Safe(cfg.policy, next.value))
  {
    var a := BuildAdmission(cfg, l, call).value.admission;
    if call.operation.QueueAdmit? {
      QuotasAfterAdmit(cfg.policy, l.admissions, Scoped(call.run, a.subject.id), a.(sequence := n));
    } else {
      QuotasAfterPlain(cfg.policy, l.admissions, Scoped(call.run, a.subject.id), a.(sequence := n));
    }
  }

  lemma ReleaseLands(cfg: Config, l: Ledger, call: Call, now: int, n: nat)
    requires call.ReleaseCall? && BuildRelease(cfg, l, call, now).Ok? && Safe(cfg.policy, l)
    ensures var body := BuildRelease(cfg, l, call, now).value;
            var next := ApplyRelease(l, call.run, body.released, call.operation, n);
            next.Some? && Safe(cfg.policy, next.value)
  {
    var t := BuildRelease(cfg, l, call, now).value.released;
    var next := ApplyRelease(l, call.run, t, call.operation, n).value;
    var key := Scoped(call.run, t.subject.id);
    QuotasAfterPlain(cfg.policy, l.admissions, key, next.admissions[key]);
  }

  lemma AcquireLands(cfg: Config, l: Ledger, call: Call, now: int)
    requires call.AcquireCall? && BuildAcquire(cfg, l, call, now).Ok? && Safe(cfg.policy, l)
    ensures var body := BuildAcquire(cfg, l, call, now).value;
            var next := ApplyLease(l, call.run, body.lease);
            next.Some? && Safe(cfg.policy, next.value)
  {
    ExclusiveAfterAcquire(l.leases, call.run, BuildAcquire(cfg, l, call, now).value.lease);
  }

  lemma RenewLands(cfg: Config, l: Ledger, call: Call, now: int)
    requires call.RenewCall? && BuildRenew(cfg, l, call, now).Ok? && Safe(cfg.policy, l)
    ensures var body := BuildRenew(cfg, l, call, now).value;
            var next := ApplyLease(l, call.run, body.lease);
            next.Some? && Safe(cfg.policy, next.value)
  {
    var lease := BuildRenew(cfg, l, call, now).value.lease;
    ExclusiveAfterUpdate(l.leases, Scoped(call.run, lease.subject.id), lease);
  }

  lemma EndLeaseLands(cfg: Config, l: Ledger, call: Call, now: int)
    requires call.EndLeaseCall? && BuildEndLease(cfg, l, call, now).Ok?
    requires LeasesKeyed(l.leases) && Safe(cfg.policy, l)
    ensures var body := BuildEndLease(cfg, l, call, now).value;
            var next := ApplyLeaseEnd(l, call.run, call.Subj(), body.ended);
            && (next.Some? <==> Guard(l, call, now))
            && (next.Some? ==> Safe(cfg.policy, next.value))
  {
    var t := BuildEndLease(cfg, l, call, now).value.ended;
    var next := ApplyLeaseEnd(l, call.run, call.Subj(), t);
    if next.Some? {
      var key := Scoped(call.run, t.subject.id);
      ExclusiveAfterUpdate(l.leases, key, next.value.leases[key]);
    }
  }

  lemma HandoffLands(cfg: Config, p: Projection, call: Call, n: nat)
    requires call.HandoffCall? && call.Valid(cfg) && BuildHandoff(cfg, p.ledger, call).Ok?
    requires ReceiptsCommitted(p.transitions, p.ledger.handoffReceipts)
    requires SemanticKeyOf(RequestFor(cfg, call)) !in p.transitions
    ensures ApplyHandoff(p.ledger, call.run, BuildHandoff(cfg, p.ledger, call).value.handoff, n).Some?
  {
    var h := BuildHandoff(cfg, p.ledger, call).value.handoff;
    assert ReceiptKey(h.receipt) == SemanticKeyOf(RequestFor(cfg, call));
  }

  lemma StartLands(cfg: Config, l: Ledger, call: Call)
    requires call.StartCall? && BuildStart(cfg, l, call).Ok?
    ensures ApplyRecovery(l, BuildStart(cfg, l, call).value.recovery).Some?
  {
    hide LatestRecovery, MayStartGeneration;
  }

  lemma FenceLands(cfg: Config, l: Ledger, call: Call)
    requires call.FenceCall? && BuildFence(cfg, l, call).Ok? && RecoveriesKeyed(l.recoveries)
    ensures ApplyRecovery(l, BuildFence(cfg, l, call).value.recovery).Some?
  {
    hide LatestRecovery;
  }

  lemma ScannerLands(cfg: Config, l: Ledger, call: Call)
    requires call.ScannerCall? && BuildScanner(cfg, l, call).Ok? && RecoveriesKeyed(l.recoveries)
    ensures ApplyRecovery(l, BuildScanner(cfg, l, call).value.recovery).Some?
  {
    hide LatestRecovery;
  }

  /** Replay accepts what a builder wrote exactly when the call met its guard, and the ledger it reaches is safe. */
  lemma AcceptedIff(cfg: Config, p: Projection, call: Call, now: int, r: Record)
    requires Indexed(p) && Safe(cfg.policy, p.ledger) && call.Valid(cfg)
    requires SemanticKeyOf(RequestFor(cfg, call)) !in p.transitions
    requires Build(cfg, p.ledger, call, now) == Ok(r.body) && r.request == RequestFor(cfg, call)
    ensures Apply(p.ledger, r).Some? <==> Guard(p.ledger, call, now)
    ensures Apply(p.ledger, r).Some? ==> Safe(cfg.policy, Apply(p.ledger, r).value)
  {
    hide ApplyAdmission, ApplyRelease, ApplyLease, ApplyLeaseEnd, ApplyHandoff, ApplyRecovery;
    hide QuotasKept, LeasesExclusive;
    match call
    case ReserveCall(_, _, _) => ReserveLands(cfg, p.ledger, call, r.position);
    case AdmissionCall(_, _, _, _, _) => AdmissionLands(cfg, p.ledger, call, r.position);
    case ReleaseCall(_, _, _, _) => ReleaseLands(cfg, p.ledger, call, now, r.position);
    case AcquireCall(_, _, _, _) => AcquireLands(cfg, p.ledger, call, now);
    case RenewCall(_, _, _, _) => RenewLands(cfg, p.ledger, call, now);
    case EndLeaseCall(_, _, _, _, _) => EndLeaseLands(cfg, p.ledger, call, now);
    case HandoffCall(_, _, _, _, _) => HandoffLands(cfg, p, call, r.position);
    case StartCall(_, _) => StartLands(cfg, p.ledger, call);
    case FenceCall(_, _, _) => FenceLands(cfg, p.ledger, call);
    case ScannerCall(_, _, _, _) => ScannerLands(cfg, p.ledger, call);
  }
}
