/**
 What each call is answered, told from the journal's last word on the entry it names
 rather than from the projection the builder reads.
 */
module AdmissionAnswers {
  import opened Wrappers
  import opened AdmissionTypes
  import opened AdmissionReplay
  import opened AdmissionBuild
  import opened AdmissionFacts
  import opened AdmissionQuotas
  import opened AdmissionEntries
  import opened AdmissionMoves
  import opened AdmissionHandoffs
  import opened AdmissionSafety
  import opened AdmissionGuards

  type Answer = Result<Body, Error>

  ghost function AnswerTo(cfg: Config, events: seq<JournalEvent>, call: Call, now: int): Answer
    requires Replay(cfg.installation, events).Some?
  {
    Build(cfg, Replay(cfg.installation, events).value.p.ledger, call, now)
  }

  // Admissions

  /** The last transition on the entry, if any. */
  ghost function AdmissionWord(events: seq<JournalEvent>, run: string, id: string): Option<Body> {
    var last := Last(events, AdmissionSlot(Scoped(run, id)));
    if last.None? then None else Some(BodyAt(events[last.value]))
  }

  lemma WordIsEntry(inst: string, events: seq<JournalEvent>, run: string, id: string)
    requires Replay(inst, events).Some?
    ensures var m, word := Replay(inst, events).value.p.ledger.admissions, AdmissionWord(events, run, id);
            if word.None? then Scoped(run, id) !in m
            else
              && Scoped(run, id) in m
              && (word.value.AdmissionBody? || word.value.ReleaseBody?)
              && (word.value.AdmissionBody? ==>
                    && m[Scoped(run, id)] == word.value.admission.(sequence := m[Scoped(run, id)].sequence)
                    && !word.value.admission.state.Released?)
              && (word.value.ReleaseBody? ==>
                    m[Scoped(run, id)].state.Released? && m[Scoped(run, id)].subject == word.value.released.subject)
  {
    hide StepEvent, Last, ReplayFrom;
    ReplayReadsAdmissions(inst, events);
    var key := Scoped(run, id);
    assert AdmissionRead(Replay(inst, events).value.p.ledger, events, key);
    var last := Last(events, AdmissionSlot(key));
    if last.Some? {
      WritesAdmission(events[last.value], key);
      AdmissionsMove(inst, events, last.value);
    }
  }

  /** Reserve is refused exactly when the entry was ever written. */
  lemma ReserveAnswers(cfg: Config, events: seq<JournalEvent>, call: Call, now: int)
    requires Replay(cfg.installation, events).Some? && call.ReserveCall?
    ensures var word, answer := AdmissionWord(events, call.run, call.subject.id), AnswerTo(cfg, events, call, now);
            if word.Some? then answer == Err(Conflict) else answer.Ok?
  {
    hide StepEvent, ReplayFrom, AdmissionWord;
    WordIsEntry(cfg.installation, events, call.run, call.subject.id);
  }

  /**
   Enqueue, admit and defer: not found without an entry, a conflict once it is admitted
   or released or names another subject, out of date when the quotas call for another
   decision, and otherwise the entry moved on with its original request kept.
   */
  lemma AdmissionAnswers(cfg: Config, events: seq<JournalEvent>, call: Call, now: int, q: Quota)
    requires Replay(cfg.installation, events).Some? && call.AdmissionCall? && call.Valid(cfg)
    requires Names(cfg.policy, Replay(cfg.installation, events).value.p.ledger.admissions, call.run, call.subject, q)
    ensures var word, answer := AdmissionWord(events, call.run, call.subject.id), AnswerTo(cfg, events, call, now);
            if word.None? then answer == Err(NotFound)
            else if word.value.ReleaseBody? then answer == Err(Conflict)
            else
              && word.value.AdmissionBody?
              && var held := word.value.admission;
              if held.state.Admitted? || held.subject != call.subject then answer == Err(Conflict)
              else if (call.operation.QueueAdmit? && !q.NoQuota?) || (call.operation.BackpressureDefer? && q != call.limiter)
              then answer == Err(DecisionChanged)
              else
                && answer.Ok? && answer.value.AdmissionBody?
                && answer.value.admission.original == held.original && answer.value.admission.subject == held.subject
                && answer.value.admission.limiter == call.limiter
  {
    hide StepEvent, ReplayFrom, AdmissionWord, Names, LimitingQuota;
    WordIsEntry(cfg.installation, events, call.run, call.subject.id);
    OneQuotaNamed(cfg.policy, Replay(cfg.installation, events).value.p.ledger.admissions, call.run, call.subject, q);
  }

  lemma OneQuotaNamed(policy: Policy, m: Entries, run: string, s: AdmissionSubject, q: Quota)
    requires Names(policy, m, run, s, q)
    ensures q == LimitingQuota(policy, m, run, s)
  {
    hide AdmittedInAll, AdmittedFor, AdmittedIn, AdmittedOf, AdmittedAs, LimitingQuota;
    LimitingQuotaNames(policy, m, run, s);
  }

  /** Release: not found, a conflict, out of date when the state calls for the other operation, or the end stamped now. */
  lemma ReleaseAnswers(cfg: Config, events: seq<JournalEvent>, call: Call, now: int)
    requires Replay(cfg.installation, events).Some? && call.ReleaseCall? && call.Valid(cfg)
    ensures var word, answer := AdmissionWord(events, call.run, call.subject.id), AnswerTo(cfg, events, call, now);
            if word.None? then answer == Err(NotFound)
            else if word.value.ReleaseBody? then answer == Err(Conflict)
            else
              && word.value.AdmissionBody?
              && var held := word.value.admission;
              if held.subject != call.subject then answer == Err(Conflict)
              else if !ReleaseOf(call.operation, held.state) then answer == Err(DecisionChanged)
              else
                && answer.Ok? && answer.value.ReleaseBody?
                && answer.value.released.releasedAt == now && answer.value.released.original == held.original
  {
    hide StepEvent, ReplayFrom, AdmissionWord;
    WordIsEntry(cfg.installation, events, call.run, call.subject.id);
  }

  // Leases

  ghost function LeaseWord(events: seq<JournalEvent>, run: string, id: string): Option<Body> {
    var last := Last(events, LeaseSlot(Scoped(run, id)));
    if last.None? then None else Some(BodyAt(events[last.value]))
  }

  lemma WordIsLease(inst: string, events: seq<JournalEvent>, run: string, id: string)
    requires Replay(inst, events).Some?
    ensures var m, word := Replay(inst, events).value.p.ledger.leases, LeaseWord(events, run, id);
            if word.None? then Scoped(run, id) !in m
            else
              && Scoped(run, id) in m && (word.value.LeaseBody? || word.value.LeaseEndBody?)
              && (word.value.LeaseBody? ==> m[Scoped(run, id)] == word.value.lease && word.value.lease.state.Active?)
              && (word.value.LeaseEndBody? ==>
                    && !m[Scoped(run, id)].state.Active? && m[Scoped(run, id)].subject == word.value.ended.subject
                    && m[Scoped(run, id)].expiresAt == word.value.ended.expiresAt)
  {
    hide StepEvent, Last, ReplayFrom;
    ReplayReadsLeases(inst, events);
    assert LeaseRead(Replay(inst, events).value.p.ledger, events, Scoped(run, id));
  }

  /** Acquire: too late, already known, held against, or a lease issued now. */
  lemma AcquireAnswers(cfg: Config, events: seq<JournalEvent>, call: Call, now: int)
    requires Replay(cfg.installation, events).Some? && call.AcquireCall?
    ensures var word, answer := LeaseWord(events, call.run, call.lease.id), AnswerTo(cfg, events, call, now);
            if now >= call.expiresAt then answer == Err(Terminal)
            else if word.Some? then answer == Err(Conflict)
            else if exists key :: HeldAgainst(events, key, call.run, call.lease) then answer == Err(LeaseBusy)
            else
              && answer.Ok? && answer.value.LeaseBody?
              && answer.value.lease.issuedAt == now && answer.value.lease.expiresAt == call.expiresAt
  {
    hide StepEvent, ReplayFrom, LeaseWord, HeldAgainst, ConflictingLease;
    WordIsLease(cfg.installation, events, call.run, call.lease.id);
    ConflictIff(cfg.installation, events, call.run, call.lease);
  }

  /** Renew: only a lease still held and not yet expired, to a later generation and a later end. */
  lemma RenewAnswers(cfg: Config, events: seq<JournalEvent>, call: Call, now: int)
    requires Replay(cfg.installation, events).Some? && call.RenewCall?
    ensures var word, answer := LeaseWord(events, call.run, call.lease.id), AnswerTo(cfg, events, call, now);
            if now >= call.expiresAt then answer == Err(Terminal)
            else if word.None? then answer == Err(NotFound)
            else if word.value.LeaseEndBody? then
              answer == Err(if word.value.ended.subject != call.lease then Conflict else Terminal)
            else
              && word.value.LeaseBody?
              && var held := word.value.lease;
              if held.subject != call.lease then answer == Err(Conflict)
              else if now >= held.expiresAt then answer == Err(Terminal)
              else if call.identity.generation <= held.generation || call.expiresAt <= held.expiresAt then answer == Err(Conflict)
              else answer.Ok? && answer.value.LeaseBody? && answer.value.lease.expiresAt == call.expiresAt
  {
    hide StepEvent, ReplayFrom, LeaseWord;
    WordIsLease(cfg.installation, events, call.run, call.lease.id);
  }

  /** Release and expiry: only the lease as last extended, an expiry not before its time, stamped now. */
  lemma EndLeaseAnswers(cfg: Config, events: seq<JournalEvent>, call: Call, now: int)
    requires Replay(cfg.installation, events).Some? && call.EndLeaseCall?
    ensures var word, answer := LeaseWord(events, call.run, call.lease.id), AnswerTo(cfg, events, call, now);
            if word.None? then answer == Err(NotFound)
            else if word.value.LeaseEndBody? then
              answer == Err(if word.value.ended.subject != call.lease || word.value.ended.expiresAt != call.expiresAt then Conflict else Terminal)
            else
              && word.value.LeaseBody?
              && var held := word.value.lease;
              if held.subject != call.lease || held.expiresAt != call.expiresAt then answer == Err(Conflict)
              else if call.expire && now < held.expiresAt then answer == Err(NotExpired)
              else
                && answer.Ok? && answer.value.LeaseEndBody? && answer.value.ended.terminalAt == now
                && (answer.value.ended.state.LeaseExpired? <==> call.expire)
                && (answer.value.ended.state.LeaseReleased? <==> !call.expire)
  {
    hide StepEvent, ReplayFrom, LeaseWord;
    WordIsLease(cfg.installation, events, call.run, call.lease.id);
  }

  // Handoffs

  /** Issue once; grant and acknowledge only the next stage, against the receipt of the stage before. */
  lemma HandoffAnswers(cfg: Config, events: seq<JournalEvent>, call: Call, now: int)
    requires Replay(cfg.installation, events).Some? && call.HandoffCall? && call.Valid(cfg)
    ensures var l := Replay(cfg.installation, events).value.p.ledger;
            var key := HandoffKey(call.run, HandoffId(call.run, call.handoff));
            var answer := AnswerTo(cfg, events, call, now);
            if call.state.Issued? then (if key in l.handoffs then answer == Err(Conflict) else answer.Ok?)
            else
              && call.predecessor.Some?
              && var named := call.predecessor.value;
              if key !in l.handoffs then
                answer == Err(if named in l.handoffReceipts && l.handoffReceipts[named] != key then Conflict else NotFound)
              else
                (if named == l.handoffs[key].receipt && Stage(call.state) == Stage(l.handoffs[key].state) + 1
                    && l.handoffs[key].subject == call.handoff
                 then answer.Ok? && answer.value.HandoffBody? && answer.value.handoff.state == call.state
                 else answer == Err(Conflict))
  {
    hide StepEvent, ReplayFrom;
  }

  // Recoveries

  predicate Elsewhere(cfg: Config, i: RecoveryIdentity) {
    i.installation != "" && i.installation != cfg.installation
  }

  function Here(cfg: Config, i: RecoveryIdentity): RecoveryIdentity {
    RecoveryIdentity(cfg.installation, i.run, i.action, i.generation, i.digest)
  }

  /** A later generation of the action is recorded. */
  ghost predicate Overtaken(m: map<RecoveryKey, RecoveryRecord>, key: RecoveryKey) {
    exists k | k in m :: SameLine(k, key) && k.generation > key.generation
  }

  lemma SupersededIff(l: Ledger, i: RecoveryIdentity)
    requires RecoveriesKeyed(l.recoveries)
    ensures Superseded(l, i) <==> Overtaken(l.recoveries, RecoveryKeyOf(i))
  {
    hide LatestRecovery;
    LatestIsHighest(l.recoveries, i);
  }

  lemma MayStartIff(l: Ledger, i: RecoveryIdentity)
    requires RecoveriesKeyed(l.recoveries) && RecoveryKeyOf(i) !in l.recoveries
    ensures MayStartGeneration(LatestRecovery(l.recoveries, i), i) <==> MayStart(l.recoveries, i)
  {
    hide LatestRecovery;
    LatestIsHighest(l.recoveries, i);
    var latest := LatestRecovery(l.recoveries, i);
    if latest.Some? {
      assert SameLine(RecoveryKeyOf(latest.value.identity), RecoveryKeyOf(i));
    }
  }

  /** A generation is started exactly once, after a closed predecessor of the same digest. */
  lemma StartAnswers(cfg: Config, events: seq<JournalEvent>, call: Call, now: int)
    requires Replay(cfg.installation, events).Some? && call.StartCall?
    ensures var m := Replay(cfg.installation, events).value.p.ledger.recoveries;
            var i, answer := Here(cfg, call.recovery), AnswerTo(cfg, events, call, now);
            if Elsewhere(cfg, call.recovery) || RecoveryKeyOf(i) in m || !MayStart(m, i) then answer == Err(Conflict)
            else answer.Ok? && answer.value.RecoveryBody? && answer.value.recovery.identity == i
  {
    hide StepEvent, ReplayFrom, LatestRecovery, MayStartGeneration, MayStart;
    ReplayIndexed(cfg.installation, events);
    var l := Replay(cfg.installation, events).value.p.ledger;
    if RecoveryKeyOf(Here(cfg, call.recovery)) !in l.recoveries {
      MayStartIff(l, Here(cfg, call.recovery));
    }
  }

  /** The state a proof or a fact calls for. */
  predicate Settles(status: ProviderStatus, state: RecoveryState) {
    || (status.ProviderEffectObserved? && state.Applied?) || (status.ProviderNotPerformed? && state.NotPerformed?)
    || (status.ProviderCanceled? && state.Canceled?) || (status.ProviderFenced? && state.Fenced?)
  }

  /** CancelOrFence settles a started generation that is still the latest, into the state its proof names. */
  lemma FenceAnswers(cfg: Config, events: seq<JournalEvent>, call: Call, now: int)
    requires Replay(cfg.installation, events).Some? && call.FenceCall? && call.Valid(cfg)
    ensures var m := Replay(cfg.installation, events).value.p.ledger.recoveries;
            var key, answer := RecoveryKeyOf(Here(cfg, call.recovery)), AnswerTo(cfg, events, call, now);
            if Elsewhere(cfg, call.recovery) then answer == Err(Conflict)
            else if key !in m then answer == Err(NotFound)
            else if Overtaken(m, key) then answer == Err(FencedGeneration)
            else if !m[key].state.ObservationStarted? then answer == Err(Conflict)
            else
              && answer.Ok? && answer.value.RecoveryBody? && answer.value.recovery.identity == Here(cfg, call.recovery)
              && Settles(call.proof.status, answer.value.recovery.state)
  {
    hide StepEvent, ReplayFrom, LatestRecovery, Superseded, Overtaken;
    ReplayIndexed(cfg.installation, events);
    SupersededIff(Replay(cfg.installation, events).value.p.ledger, Here(cfg, call.recovery));
  }

  /** ScannerApply does the same with what it observed, and calls a settled generation fenced unless it was applied. */
  lemma ScannerAnswers(cfg: Config, events: seq<JournalEvent>, call: Call, now: int)
    requires Replay(cfg.installation, events).Some? && call.ScannerCall? && call.Valid(cfg)
    ensures var m := Replay(cfg.installation, events).value.p.ledger.recoveries;
            var key, answer := RecoveryKeyOf(Here(cfg, call.recovery)), AnswerTo(cfg, events, call, now);
            if Elsewhere(cfg, call.recovery) then answer == Err(Conflict)
            else if key !in m then answer == Err(NotFound)
            else if Overtaken(m, key) || m[key].state.Canceled? || m[key].state.NotPerformed? || m[key].state.Fenced?
            then answer == Err(FencedGeneration)
            else if m[key].state.Applied? then answer == Err(Conflict)
            else
              && m[key].state.ObservationStarted?
              && answer.Ok? && answer.value.RecoveryBody? && answer.value.recovery.identity == Here(cfg, call.recovery)
              && Settles(call.fact.status, answer.value.recovery.state)
  {
    hide StepEvent, ReplayFrom, LatestRecovery, Superseded, Overtaken;
    ReplayIndexed(cfg.installation, events);
    SupersededIff(Replay(cfg.installation, events).value.p.ledger, Here(cfg, call.recovery));
  }

  /** The readable journal an undisturbed call with new identifiers finds. */
  ghost predicate Undisturbed(cfg: Config, events: seq<JournalEvent>, call: Call, now: int) {
    && Rebuild(cfg.installation, events).Some? && Unused(cfg, events, call) && call.Valid(cfg)
    && cfg.policy.version != 0 && now != 0 && call.identity.outcomeKind.ActionResult?
    && Build(cfg, Rebuild(cfg.installation, events).value.ledger, call, now).Ok?
  }

  lemma RecoveryLeaves(cfg: Config, events: seq<JournalEvent>, call: Call, now: int, v: RecoveryRecord)
    requires Undisturbed(cfg, events, call, now)
    requires var l := Rebuild(cfg.installation, events).value.ledger;
             Build(cfg, l, call, now) == Ok(RecoveryBody(v)) && ApplyRecovery(l, v).Some?
    ensures Rebuild(cfg.installation, After(cfg, events, call, now)).Some?
    ensures var m := Rebuild(cfg.installation, After(cfg, events, call, now)).value.ledger.recoveries;
            RecoveryKeyOf(v.identity) in m && m[RecoveryKeyOf(v.identity)] == v
  {
    hide Rebuild, Build, Unused, After, LatestRecovery, MayStartGeneration;
    UnusedCallLands(cfg, events, call, now);
  }

  /** An undisturbed fence or scanner call leaves the generation in the state its own status names. */
  lemma SettlingLeaves(cfg: Config, events: seq<JournalEvent>, call: Call, now: int)
    requires (call.FenceCall? || call.ScannerCall?) && Undisturbed(cfg, events, call, now)
    ensures Rebuild(cfg.installation, After(cfg, events, call, now)).Some?
    ensures var m, key := Rebuild(cfg.installation, After(cfg, events, call, now)).value.ledger.recoveries,
                          RecoveryKeyOf(Here(cfg, call.recovery));
            && key in m
            && Settles(if call.FenceCall? then call.proof.status else call.fact.status, m[key].state)
  {
    hide StepEvent, ReplayFrom, Build, Unused, After, LatestRecovery, Superseded, Overtaken, ApplyRecovery, Settles;
    ReplayIndexed(cfg.installation, events);
    var l := Rebuild(cfg.installation, events).value.ledger;
    if call.FenceCall? {
      FenceAnswers(cfg, events, call, now);
      FenceBuilt(cfg, l, call, now);
    } else {
      ScannerAnswers(cfg, events, call, now);
      ScannerBuilt(cfg, l, call, now);
    }
    RecoveryLeaves(cfg, events, call, now, Build(cfg, l, call, now).value.recovery);
  }

  lemma FenceBuilt(cfg: Config, l: Ledger, call: Call, now: int)
    requires call.FenceCall? && Build(cfg, l, call, now).Ok? && RecoveriesKeyed(l.recoveries)
    ensures Build(cfg, l, call, now).value.RecoveryBody? && ApplyRecovery(l, Build(cfg, l, call, now).value.recovery).Some?
  {
    hide LatestRecovery, ApplyRecovery;
    FenceLands(cfg, l, call);
  }

  lemma ScannerBuilt(cfg: Config, l: Ledger, call: Call, now: int)
    requires call.ScannerCall? && Build(cfg, l, call, now).Ok? && RecoveriesKeyed(l.recoveries)
    ensures Build(cfg, l, call, now).value.RecoveryBody? && ApplyRecovery(l, Build(cfg, l, call, now).value.recovery).Some?
  {
    hide LatestRecovery, ApplyRecovery;
    ScannerLands(cfg, l, call);
  }
}
