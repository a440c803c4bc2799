/**
 The builders' scans over projection maps, which Go iterates in no fixed order:
 each is shown to compute its order-free specification.
 */
module AdmissionLoops {
  import opened Wrappers
  import opened Journal
  import opened Numeric
  import opened AdmissionTypes
  import opened AdmissionReplay
  import opened AdmissionBuild
  import opened AdmissionFacts
  import opened AdmissionQuotas

  ghost function OccupantsIn(m: map<Scoped, RunAdmission>, d: Dimension, seen: set<Scoped>): set<Scoped> {
    set k | k in Occupants(m, d) && k in seen
  }

  /** A counter of one dimension after the scan has seen some of the entries. */
  ghost function Counted(m: map<Scoped, RunAdmission>, d: Dimension, seen: set<Scoped>): uint64 {
    SaturatingCap(|OccupantsIn(m, d, seen)|, MAX_UINT64)
  }

  lemma CountNone(m: map<Scoped, RunAdmission>, d: Dimension)
    ensures Counted(m, d, {}) == 0
  {
    assert OccupantsIn(m, d, {}) == {};
  }

  lemma CountOne(m: map<Scoped, RunAdmission>, d: Dimension, seen: set<Scoped>, k: Scoped)
    requires k in m && k !in seen
    ensures Counted(m, d, seen + {k}) ==
            (if m[k].state.Admitted? && InDimension(m[k], d) then SaturatingAdd(Counted(m, d, seen), 1)
             else Counted(m, d, seen))
  {
    if k in Occupants(m, d) {
      assert OccupantsIn(m, d, seen + {k}) == OccupantsIn(m, d, seen) + {k};
    } else {
      assert OccupantsIn(m, d, seen + {k}) == OccupantsIn(m, d, seen);
    }
  }

  lemma CountAll(policy: Policy, m: map<Scoped, RunAdmission>, d: Dimension)
    requires policy.Valid()
    ensures Counted(m, d, m.Keys) >= Limit(policy, d) <==> Full(policy, m, d)
  {
    assert OccupantsIn(m, d, m.Keys) == Occupants(m, d);
  }

  /** limitingQuota: five saturating counters, compared with the limits in a fixed order. */
  method FindLimitingQuota(policy: Policy, admissions: map<Scoped, RunAdmission>, run: string, subject: AdmissionSubject)
    returns (limiting: Quota)
    requires policy.Valid()
    ensures limiting == LimitingQuota(policy, admissions, run, subject)
    ensures Names(policy, admissions, run, subject, limiting)
  {
    hide Counted, Full, Occupants, SaturatingAdd, Names;
    LimitingQuotaNames(policy, admissions, run, subject);
    var d1, d2, d3, d4 :=
      ForPrincipal(subject.principal), ForRun(run), ForProject(subject.project), ForPrimitive(subject.primitive);
    var installation: uint64, principal: uint64, runs: uint64, project: uint64, primitive: uint64 := 0, 0, 0, 0, 0;
    var rest := admissions.Keys;
    ghost var seen: set<Scoped> := {};
    forall d ensures Counted(admissions, d, seen) == 0 {
      CountNone(admissions, d);
    }
    while rest != {}
      invariant seen + rest == admissions.Keys && seen !! rest
      invariant installation == Counted(admissions, WholeInstallation, seen)
      invariant principal == Counted(admissions, d1, seen)
      invariant runs == Counted(admissions, d2, seen)
      invariant project == Counted(admissions, d3, seen)
      invariant primitive == Counted(admissions, d4, seen)
      decreases |rest|
    {
      var k :| k in rest;
      var value := admissions[k];
      CountOne(admissions, WholeInstallation, seen, k);
      CountOne(admissions, d1, seen, k);
      CountOne(admissions, d2, seen, k);
      CountOne(admissions, d3, seen, k);
      CountOne(admissions, d4, seen, k);
      if value.state.Admitted? {
        installation := SaturatingAdd(installation, 1);
        if value.subject.principal == subject.principal {
          principal := SaturatingAdd(principal, 1);
        }
        if value.run == run {
          runs := SaturatingAdd(runs, 1);
        }
        if value.subject.project == subject.project {
          project := SaturatingAdd(project, 1);
        }
        if value.subject.primitive == subject.primitive {
          primitive := SaturatingAdd(primitive, 1);
        }
      }
      seen := seen + {k};
      rest := rest - {k};
    }
    assert seen == admissions.Keys;
    forall d ensures Counted(admissions, d, admissions.Keys) >= Limit(policy, d) <==> Full(policy, admissions, d) {
      CountAll(policy, admissions, d);
    }
    limiting :=
      if installation >= policy.installationLimit then InstallationQuota
      else if principal >= policy.principalLimit then PrincipalQuota
      else if runs >= policy.runLimit then RunQuota
      else if project >= policy.projectLimit then ProjectQuota
      else if primitive >= policy.primitiveLimit then PrimitiveQuota
      else NoQuota;
  }

  /** conflictingLease. */
  method FindConflictingLease(leases: map<Scoped, Lease>, run: string, subject: LeaseSubject) returns (busy: bool)
    ensures busy <==> ConflictingLease(leases, run, subject)
  {
    var rest := leases.Keys;
    while rest != {}
      invariant rest <= leases.Keys
      invariant forall k | k in leases && k !in rest ::
                  !(leases[k].state.Active? && k != Scoped(run, subject.id) && Excludes(leases[k].subject, subject))
      decreases |rest|
    {
      var k :| k in rest;
      rest := rest - {k};
      if leases[k].state.Active? && k != Scoped(run, subject.id) && leases[k].subject.resource == subject.resource {
        if leases[k].subject.mode.Exclusive? || subject.mode.Exclusive? {
          return true;
        }
      }
    }
    busy := false;
  }

  /** latestRecovery: the running maximum does not depend on the order the map is scanned in. */
  method FindLatestRecovery(recoveries: map<RecoveryKey, RecoveryRecord>, i: RecoveryIdentity)
    returns (latest: Option<RecoveryRecord>)
    requires RecoveriesKeyed(recoveries)
    ensures latest == LatestRecovery(recoveries, i)
  {
    latest := None;
    var rest := recoveries.Keys;
    while rest != {}
      invariant rest <= recoveries.Keys
      invariant latest.None? ==> forall k | k in recoveries && k !in rest :: !SameAction(recoveries[k].identity, i)
      invariant latest.Some? ==>
                  && SameAction(latest.value.identity, i)
                  && RecoveryKeyOf(latest.value.identity) in recoveries
                  && recoveries[RecoveryKeyOf(latest.value.identity)] == latest.value
                  && forall k | k in recoveries && k !in rest && SameAction(recoveries[k].identity, i) ::
                       recoveries[k].identity.generation <= latest.value.identity.generation
      decreases |rest|
    {
      var k :| k in rest;
      rest := rest - {k};
      if SameAction(recoveries[k].identity, i) &&
         (latest.None? || recoveries[k].identity.generation > latest.value.identity.generation) {
        latest := Some(recoveries[k]);
      }
    }
    LatestIsHighest(recoveries, i);
    var spec := LatestRecovery(recoveries, i);
    if spec.Some? {
      assert recoveries[RecoveryKeyOf(spec.value.identity)] == spec.value;
    }
    if latest.Some? {
      assert SameLine(RecoveryKeyOf(latest.value.identity), RecoveryKeyOf(i));
    }
  }
}
