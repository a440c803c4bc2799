/**
 The five quotas in plain counts, and which one an admission is told it lacks.
 */
module AdmissionQuotas {
  import opened AdmissionTypes
  import opened AdmissionBuild

  type Entries = map<Scoped, RunAdmission>

  function AdmittedInAll(m: Entries): nat {
    |set k | k in m && m[k].state.Admitted?|
  }

  function AdmittedFor(m: Entries, principal: string): nat {
    |set k | k in m && m[k].state.Admitted? && m[k].subject.principal == principal|
  }

  function AdmittedIn(m: Entries, run: string): nat {
    |set k | k in m && m[k].state.Admitted? && m[k].run == run|
  }

  function AdmittedOf(m: Entries, project: string): nat {
    |set k | k in m && m[k].state.Admitted? && m[k].subject.project == project|
  }

  function AdmittedAs(m: Entries, primitive: string): nat {
    |set k | k in m && m[k].state.Admitted? && m[k].subject.primitive == primitive|
  }

  lemma CountsAre(m: Entries, run: string, s: AdmissionSubject)
    ensures |Occupants(m, WholeInstallation)| == AdmittedInAll(m)
    ensures |Occupants(m, ForPrincipal(s.principal))| == AdmittedFor(m, s.principal)
    ensures |Occupants(m, ForRun(run))| == AdmittedIn(m, run)
    ensures |Occupants(m, ForProject(s.project))| == AdmittedOf(m, s.project)
    ensures |Occupants(m, ForPrimitive(s.primitive))| == AdmittedAs(m, s.primitive)
  {
    assert Occupants(m, WholeInstallation) == set k | k in m && m[k].state.Admitted?;
    assert Occupants(m, ForPrincipal(s.principal)) == set k | k in m && m[k].state.Admitted? && m[k].subject.principal == s.principal;
    assert Occupants(m, ForRun(run)) == set k | k in m && m[k].state.Admitted? && m[k].run == run;
    assert Occupants(m, ForProject(s.project)) == set k | k in m && m[k].state.Admitted? && m[k].subject.project == s.project;
    assert Occupants(m, ForPrimitive(s.primitive)) == set k | k in m && m[k].state.Admitted? && m[k].subject.primitive == s.primitive;
  }

  /** The named quota is the first full one, in the order installation, principal, run, project, primitive. */
  predicate Names(policy: Policy, m: Entries, run: string, s: AdmissionSubject, q: Quota) {
    var wide := AdmittedInAll(m) >= policy.installationLimit;
    var principal := AdmittedFor(m, s.principal) >= policy.principalLimit;
    var inRun := AdmittedIn(m, run) >= policy.runLimit;
    var project := AdmittedOf(m, s.project) >= policy.projectLimit;
    var primitive := AdmittedAs(m, s.primitive) >= policy.primitiveLimit;
    && (q.InstallationQuota? <==> wide)
    && (q.PrincipalQuota? <==> !wide && principal)
    && (q.RunQuota? <==> !wide && !principal && inRun)
    && (q.ProjectQuota? <==> !wide && !principal && !inRun && project)
    && (q.PrimitiveQuota? <==> !wide && !principal && !inRun && !project && primitive)
    && (q.NoQuota? <==> !wide && !principal && !inRun && !project && !primitive)
  }

  lemma LimitingQuotaNames(policy: Policy, m: Entries, run: string, s: AdmissionSubject)
    ensures Names(policy, m, run, s, LimitingQuota(policy, m, run, s))
  {
    hide Occupants, AdmittedInAll, AdmittedFor, AdmittedIn, AdmittedOf, AdmittedAs;
    CountsAre(m, run, s);
  }
}
