# Verified model of the control plane

This project models the decision-making core of the control plane and the run
service in Dafny and proves what they promise over every input, run and
interleaving.  `dafny verify dfyconfig.toml` checks all of it.

| modules | models |
|---|---|
| `Journal`, `AdmissionTypes`, `AdmissionReplay` | journal events, admission records, the checks on a persisted transition and the replay of a journal into a projection |
| `AdmissionBuild`, `AdmissionSystem` | what each service call builds from a projection, the store's compare-and-swap, and the step system in which any number of services and other components interleave |
| `AdmissionFacts`, `AdmissionEntries`, `AdmissionMoves`, `AdmissionPairs`, `AdmissionHandoffs` | what holds of every journal that replays, whoever wrote it: the last word on each entry, the moves between entries, how transitions lie in the journal |
| `AdmissionQuotas`, `AdmissionAnswers`, `AdmissionCommits` | the quotas in plain counts, what each call is answered, told from the journal, and what the store's commit answers |
| `AdmissionSafety`, `AdmissionRuns`, `AdmissionHistory`, `AdmissionGuards` | what holds over every schedule: quotas, lease exclusion, exactly-once commit, and exactly when the journal stays readable |
| `AdmissionCache`, `AdmissionLoops`, `AdmissionService`, `Numeric`, `Sums` | the cached, paged rebuild, the scans over maps, and the service object with its bounded retry loops, proved against the step system |
| `RunTypes`, `RunStages`, `RunState`, `RunHistory`, `RunEdges`, `RunStageHistory`, `RunFailures`, `RunEndings`, `RunEdits` | the durable run record, the save guard, and what holds along every history of saves |
| `GraphPaths`, `TaskGraph`, `TaskPlan`, `TaskReady`, `TaskAccepted`, `Ordering` | task graphs: cycle search, integration order, path ownership, ready tasks |
| `Rebuilders`, `RebuilderViews` | the run and installation views of the journal |
| `Fairness`, `FairnessRuns`, `FairnessBound`, `FairnessSaturation`, `FairnessQueue` | the fairness scheduler |
| `KeyedLock` | the reference-counted keyed lock |

## How the system is represented

- A digest stands for the value it digests and a stable identifier for the
  fields it hashes, so equal digests mean equal values.  Index keys that the
  code builds by joining texts are pairs or records; where the join itself can
  merge two keys (the scheduler's duplicate check) it is kept as text.
- Times are integers with 0 for the unset time.  Positions and counters are
  natural numbers; where 64-bit saturation or wrap-around matters (quota
  counters, virtual time, record versions) it is written out.
- Concurrency is a total step function.  A schedule is any sequence of steps;
  the theorems quantify over all of them.  The service object receives what it
  cannot control as inputs: what the others do between its reads, how its clock
  moves, whether a commit's response arrives, arrives as an error, or is lost
  after the commit took effect.
- Map iteration order is a free choice in every loop.

## Findings

- The journal can become unreadable to the admission service in three ways.
  `Enqueue` builds an outcome from a queued or deferred entry, which replay
  refuses.  A lease may be released by a service whose clock stands before the
  lease was issued, which replay refuses too.  And replay fetches and reads the
  payload of every outcome, so another component's outcome whose payload was
  never stored, or is not a readable object, stops it.  Three lemmas give the
  concrete schedules; `RebuildsIffGuarded` shows that the journal rebuilds if
  and only if none of them happened, for other components that reserve each
  action once and write neither admission records nor admission action names.
- An accepted integration order already excludes cycles, so the cycle search
  never turns down a graph the order check would accept.
- A terminal run's failure is that of its stage's latest attempt, except after
  a new finalize attempt with another result on a run that failed in
  finalization.  `FinalizeAgainHidesFailure` gives the history and `ShownIff`
  the exact condition.
- The scheduler bounds every run's wait until virtual time saturates.  Beyond
  that the bound rests on the queue alone: it holds when sequences and clocks
  follow queue order (`ServedInQueueOrder`) and fails over arbitrary ready
  lists (`BoundedIff`).

## Model

| member | source | states |
|---|---|---|
| `Numeric.SaturatingAdd` | internal/controlplane/admission/numeric.go:5-10 | the exact sum while it fits 64 bits, the maximum from there on |
| `Numeric.SaturatingSub` | internal/controlplane/admission/numeric.go:12-17 | the exact difference, never below zero |
| `Numeric.CeilQuantum` | internal/controlplane/admission/numeric.go:19-24 | the least number of units whose product with the weight reaches 1024; refused exactly for weight 0 |
| `Numeric.SaturatingCap` | internal/controlplane/admission/numeric.go:26-31 | the smaller of value and cap |
| `AdmissionFacts.ReplayConcat` | internal/controlplane/admission/projection.go:149-262 | replaying a journal in any two pieces is replaying it whole, failures included, so page boundaries do not matter |
| `AdmissionFacts.StepCases` | internal/controlplane/admission/projection.go:173-254 | an accepted event either only moves the heads, or is the outcome of the adjacent reservation its request names, passes every outcome check, collides with no recorded key, and is applied and indexed exactly once |
| `AdmissionFacts.HeadsMatchStore` | internal/controlplane/admission/projection.go:174-178 | in every replayed projection the cursor is the journal length and each run head is that run's event count |
| `AdmissionFacts.ReplayIndexed` | internal/controlplane/admission/projection.go:922-1034 | every replayed table is keyed by the values it stores, leases expire after they are issued, and every handoff receipt belongs to a recorded transition |
| `AdmissionFacts.LatestIsHighest` | internal/controlplane/admission/recovery.go:240-254 | the latest recovery is the highest generation of its action, and absent exactly when there is none |
| `AdmissionFacts.ReplayFenced` | internal/controlplane/admission/projection.go:1008-1029 | in every replayable journal, whoever wrote it, recovery generations have no gaps and every generation below another is canceled or not performed |
| `AdmissionFacts.SettledForever` | internal/controlplane/admission/projection.go:1056-1065 | a settled generation is the same record in every replayable extension of the journal |
| `AdmissionFacts.OlderGenerationFrozen` | internal/controlplane/admission/projection.go:1008-1029 | once a newer generation exists the older one is closed without effect and never changes again |
| `AdmissionFacts.AppliedOnce` | internal/controlplane/admission/projection.go:1008-1065 | over the whole life of a journal at most one generation of an action is ever applied |
| `AdmissionFacts.ReplayKeepsRecord` | internal/controlplane/admission/projection.go:239-250 | every transition a replayable journal holds is found under both its keys, unchanged |
| `AdmissionFacts.OnceEach` | internal/controlplane/admission/projection.go:239-250 | no two transitions of a replayable journal share an action generation or an idempotency key |
| `AdmissionFacts.IndexFromJournal` | internal/controlplane/admission/projection.go:239-250 | the transition indexes hold nothing the journal does not |
| `AdmissionEntries.ReplayReadsAdmissions` | internal/controlplane/admission/projection.go:927-956 | in every replayable journal each admission entry and tombstone is told by the last transition under its key: the record it carries, or the record before it as Released with the tombstone's receipt and position |
| `AdmissionEntries.ReplayReadsLeases` | internal/controlplane/admission/projection.go:957-990 | each lease entry and tombstone is told by the last transition under its key: the lease it carries, or the lease before it in the state the end names |
| `AdmissionEntries.ReplayReadsRecoveries` | internal/controlplane/admission/projection.go:1008-1034 | each recovery entry is the record the last transition under its key carries |
| `AdmissionMoves.AdmissionsMove` | internal/controlplane/admission/projection.go:927-956 | every admission transition starts an entry as reserved or makes a listed move from the one before it, under the operation named for its state, and a release is an admission release of a reserved or admitted entry and a queue release of a queued or deferred one |
| `AdmissionMoves.ReleasedForever` | internal/controlplane/admission/projection.go:939-956 | a released entry is Released, with the release's receipt, position and tombstone, in every replayable extension |
| `AdmissionMoves.AdmittedIff` | internal/controlplane/admission/projection.go:927-956 | a key counts against the quotas exactly when its last transition admitted it |
| `AdmissionMoves.ReleaseFrees` | internal/controlplane/admission/service.go:317-371 | a release takes exactly its own key out of every quota dimension |
| `AdmissionMoves.LeasesMove` | internal/controlplane/admission/projection.go:957-990 | every lease transition takes, extends or ends a lease, an extension strictly later in generation and expiry, an end of exactly the lease as last extended, an expiry not before its time |
| `AdmissionMoves.EndedForever` | internal/controlplane/admission/projection.go:970-990 | a released lease is LeaseReleased and an expired one LeaseExpired, with that end's receipt and tombstone, in every replayable extension |
| `AdmissionMoves.ConflictIff` | internal/controlplane/admission/lease.go:169-180 | an acquire meets a conflict exactly when the last transition of some other lease took or extended it, on the same resource, one of the two exclusively; an ended lease holds against nothing |
| `AdmissionMoves.RecoveriesMove` | internal/controlplane/admission/projection.go:1008-1065 | every recovery transition starts a generation once, after a closed predecessor of the same digest, or settles a started generation that is still the latest, and only a scanner applies an effect |
| `AdmissionMoves.RecoveriesShowFacts` | internal/controlplane/admission/recovery.go:101-223 | in every replayable journal each recovery shows the state its provider fact names: effect observed is Applied, not performed NotPerformed, canceled Canceled, fenced Fenced, and a started one has no fact |
| `AdmissionPairs.TransitionsAreBound` | internal/controlplane/admission/projection.go:528-571 | every transition of a replayable journal stands directly behind the reservation of the action its request derives, with the derived identifier, key, kind and numbering |
| `AdmissionPairs.ReservedAgainMeansSettled` | internal/controlplane/admission/projection.go:184-192 | in a replayable journal an action is reserved again only after its transition |
| `AdmissionCommits.CommitAnswers` | internal/controlplane/journal/store.go:173-286 | a pair already in the journal is found; otherwise it is appended as asked exactly when its action, key and identifiers are unknown and both heads stand as expected |
| `AdmissionCommits.CommittedIsFound` | internal/controlplane/journal/store.go:173-286 | whatever is appended later, a committed request is found again and never appended twice |
| `AdmissionCommits.EveryTransitionWasAsked` | internal/controlplane/admission/recovery.go:101-223 | over any schedule every transition was asked for under this installation's policy, every scan by its configured scanner authority, every fence with a proof and a canceled, not performed or fenced status |
| `AdmissionPairs.JournalStaysOrdered` | internal/controlplane/journal/store.go:173-286 | over any schedule, readable or not, positions and run sequences count up without gaps and no event identifier repeats |
| `AdmissionQuotas.LimitingQuotaNames` | internal/controlplane/admission/service.go:411-447 | each answer is given if and only if its count of admitted entries reaches its own policy limit and no earlier one does, in the order installation, principal, run, project, primitive |
| `AdmissionAnswers.ReserveAnswers` | internal/controlplane/admission/service.go:223-235 | a reservation is a conflict exactly when the entry was ever written |
| `AdmissionAnswers.AdmissionAnswers` | internal/controlplane/admission/service.go:288-309 | enqueue, admit and defer: which of not found, conflict, decision changed and success each last transition and each limiting quota leads to |
| `AdmissionAnswers.ReleaseAnswers` | internal/controlplane/admission/service.go:352-371 | a release: which of not found, conflict, decision changed and success each last transition leads to |
| `AdmissionAnswers.AcquireAnswers` | internal/controlplane/admission/lease.go:21-38 | an acquire is terminal when too late, a conflict when the lease was ever written, busy exactly when some lease holds against it, and otherwise issued now |
| `AdmissionAnswers.RenewAnswers` | internal/controlplane/admission/lease.go:46-83 | a renewal succeeds exactly for the lease as held, before its expiry, to a later generation and a later end, and which error each other case gives |
| `AdmissionAnswers.EndLeaseAnswers` | internal/controlplane/admission/lease.go:93-137 | an end succeeds exactly for the lease as last extended, an expiry only at its time, and leaves LeaseExpired for an expiry and LeaseReleased for a release |
| `AdmissionAnswers.HandoffAnswers` | internal/controlplane/admission/handoff.go:17-71 | an issue succeeds once; a grant or acknowledgement exactly for the next stage against the receipt of the stage before; and which error each other case gives |
| `AdmissionAnswers.StartAnswers` | internal/controlplane/admission/recovery.go:21-61 | a generation is started exactly when it is new and its predecessor, if any, is canceled or not performed with the same digest |
| `AdmissionAnswers.FenceAnswers` | internal/controlplane/admission/recovery.go:101-154 | a fence settles a started generation no later one has overtaken, into the state its proof names, and which error each other case gives |
| `AdmissionAnswers.ScannerAnswers` | internal/controlplane/admission/recovery.go:156-223 | a scan settles a started generation no later one has overtaken, into the state its fact names, and which error each other case gives |
| `AdmissionAnswers.SettlingLeaves` | internal/controlplane/admission/recovery.go:101-223 | undisturbed, a fence or scanner call leaves the generation, in the journal replayed after it, in the state its own status names |
| `AdmissionCache.CacheIsTransparent` | internal/controlplane/admission/projection.go:132-147 | whenever the whole journal replays, resuming from the projection of any prefix gives the same projection |
| `AdmissionCache.CacheIsExact` | internal/controlplane/admission/projection.go:132-273 | where no action is reserved twice, resuming from a cache and replaying everything agree, refusals included |
| `AdmissionCache.HeadsAddUp` | internal/controlplane/admission/projection.go:355-364 | run heads always sum to the journal position |
| `AdmissionCache.CountsMatch` | internal/controlplane/admission/projection.go:355-364 | the cache's running count check, in any map order, is true exactly when the heads sum to the cursor |
| `AdmissionLoops.FindLimitingQuota` | internal/controlplane/admission/service.go:411-447 | five saturating counters filled in any map order name the first full quota, in plain counts against the five policy fields, or none |
| `AdmissionLoops.FindConflictingLease` | internal/controlplane/admission/lease.go:169-180 | true exactly when another active lease on the resource excludes the requested one |
| `AdmissionLoops.FindLatestRecovery` | internal/controlplane/admission/recovery.go:240-254 | the running maximum over any map order is the latest recovery |
| `AdmissionSafety.ReserveLands` | internal/controlplane/admission/service.go:223-235 | what Reserve builds is accepted by replay and keeps quotas and lease exclusion |
| `AdmissionSafety.AdmissionLands` | internal/controlplane/admission/service.go:288-309 | what enqueue, admit or defer builds is accepted exactly when an enqueue starts from a reserved entry, and an admission never overfills a dimension |
| `AdmissionSafety.ReleaseLands` | internal/controlplane/admission/service.go:352-371 | what Release builds is accepted and keeps quotas and lease exclusion |
| `AdmissionSafety.AcquireLands` | internal/controlplane/admission/lease.go:21-38 | what AcquireLease builds is accepted and no two active leases exclude one another afterwards |
| `AdmissionSafety.RenewLands` | internal/controlplane/admission/lease.go:46-83 | what RenewLease builds is accepted and keeps lease exclusion |
| `AdmissionSafety.EndLeaseLands` | internal/controlplane/admission/lease.go:93-137 | a release or expiry is accepted exactly when a release is not stamped before the lease was issued |
| `AdmissionSafety.HandoffLands` | internal/controlplane/admission/handoff.go:17-71 | what a handoff call builds is accepted, given that its action generation is new |
| `AdmissionSafety.StartLands` | internal/controlplane/admission/recovery.go:21-61 | what StartObservation builds is accepted |
| `AdmissionSafety.FenceLands` | internal/controlplane/admission/recovery.go:101-154 | what CancelOrFence builds is accepted |
| `AdmissionSafety.ScannerLands` | internal/controlplane/admission/recovery.go:156-223 | what ScannerApply builds is accepted |
| `AdmissionSafety.AcceptedIff` | internal/controlplane/admission/service.go:123-139 | replay accepts a builder's outcome on the projection it was built from exactly when the call met its guard, and the next ledger is safe |
| `AdmissionRuns.PairReplays` | internal/controlplane/admission/service.go:144-164 | replaying a freshly committed pair is applying its transition to the projection it was built from |
| `AdmissionRuns.ForeignReplays` | internal/controlplane/admission/projection.go:184-206 | an append of another component leaves every admission record alone, and replay goes on exactly when it is no outcome or its payload can be fetched and read |
| `AdmissionRuns.NextKeepsInv` | internal/controlplane/admission/service.go:66-196 | every step of every party keeps the journal safe and append-only, and it stays readable exactly when no commit missed its guard and no outcome of another component has an unreadable payload |
| `AdmissionRuns.RebuildsIffGuarded` | internal/controlplane/admission/service.go:123-164 | over any interleaving the journal rebuilds if and only if every commit met its guard and the payload of every other component's outcome can be read |
| `AdmissionRuns.FiveQuotasHold` | internal/controlplane/admission/service.go:247-315 | in every reachable projection the admitted entries, in all and of any principal, run, project and primitive, are at most the policy's limit for each |
| `AdmissionRuns.LeasesExclude` | internal/controlplane/admission/lease.go:13-137 | in every reachable projection two active leases on one resource are both shared |
| `AdmissionHistory.CommittedOnce` | internal/controlplane/admission/service.go:98-164 | over any schedule, readable or not, no two commits share an action generation or an idempotency key |
| `AdmissionHistory.DisciplinedRunsRebuild` | internal/controlplane/admission/service.go:123-164 | if callers enqueue only what is reserved, no clock reading goes backwards and other components store a readable payload for every outcome, the journal always rebuilds, whatever the interleaving |
| `AdmissionHandoffs.HandoffsAreChained` | internal/controlplane/admission/handoff.go:17-71 | every grant and acknowledgement in a replayable journal leads back, receipt by receipt, to one issue of the same handoff |
| `AdmissionHandoffs.HandoffsNeverFork` | internal/controlplane/admission/projection.go:991-1007 | two events of one handoff are at different stages in order, so no stage repeats and no receipt is followed twice |
| `AdmissionGuards.BuiltIsValid` | internal/controlplane/admission/service.go:123-139 | whatever a builder produces from a replayed projection passes the outcome checks made before the commit |
| `AdmissionGuards.UnusedCallLands` | internal/controlplane/admission/service.go:66-173 | undisturbed, a call with new identifiers whose builder succeeds is committed, and the journal then replays exactly when the transition applies |
| `AdmissionGuards.EnqueueTwiceIsUnreadable` | internal/controlplane/admission/service.go:293-308 | reserve, enqueue, enqueue again: all three are committed and the journal no longer rebuilds |
| `AdmissionGuards.EarlyReleaseIsUnreadable` | internal/controlplane/admission/lease.go:93-137 | a lease acquired at 10 and released by a clock at 5: both are committed and the journal no longer rebuilds |
| `AdmissionGuards.UnstoredPayloadIsUnreadable` | internal/controlplane/admission/projection.go:194-201 | another component reserves an action and appends its result without storing the payload: both are appended and the journal no longer rebuilds |
| `AdmissionService.Store.Feed` | internal/controlplane/journal/store.go:523-548 | a page is the next stretch of the journal, empty exactly at its end |
| `AdmissionService.ReplayPage` | internal/controlplane/admission/projection.go:173-255 | the loop over one page computes the replay of that page |
| `AdmissionService.Service.RebuildFrom` | internal/controlplane/admission/projection.go:149-273 | reading pages while others append gives the replay of the journal as the last, empty read found it |
| `AdmissionService.Service.RebuildProjection` | internal/controlplane/admission/projection.go:132-147 | with or without a cache, with or without the fallback, rebuild returns what a full replay of the current journal returns |
| `AdmissionService.Service.InstallCache` | internal/controlplane/admission/projection.go:289-314 | of two projections the one further ahead stays, and the cache is always the projection of a prefix |
| `AdmissionService.HonestCounts` | internal/controlplane/admission/projection.go:355-364 | the count check never turns down a cache that was honestly installed |
| `AdmissionService.DecisionReadsJournal` | internal/controlplane/admission/service.go:98-122 | a decision reports a recorded transition exactly when the journal holds one under the call's key, and only then refuses or replays instead of building |
| `AdmissionService.Service.LookBack` | internal/controlplane/admission/service.go:175-190 | after a reported failure the transition is found if it is in the journal, with the exact record or a conflict |
| `AdmissionService.Service.Land` | internal/controlplane/admission/service.go:164-194 | whatever becomes of the commit and its response, a reported record is in the journal under the caller's request |
| `AdmissionService.Service.TryCommit` | internal/controlplane/admission/service.go:67-194 | one pass appends only if the key was free, and then this very request; a taken key is answered with its record or a conflict whenever the pass is not canceled and the journal rebuilds; undisturbed, it gives the answer its decision calls for |
| `AdmissionService.Service.CommitTransition` | internal/controlplane/admission/service.go:53-197 | under any schedule, fault and retry: at most one pair is appended; a transition already there is answered with its record, or with a conflict if the request differs, and nothing is appended, whenever the call is not canceled and the journal rebuilds; a reported record is in the journal |
| `AdmissionService.CommitTwice` | internal/controlplane/admission/service.go:98-122 | two identical calls together append at most one pair; if the journal rebuilds and the second is not canceled, it returns the record the first reported, and the record the first wrote even if the first reported an error |
| `AdmissionService.Service.Admit` | internal/controlplane/admission/service.go:247-273 | all rounds together append at most one pair, for a limiting quota some prefix of the journal had, and an undisturbed first round answers what the quotas it saw call for |
| `AdmissionService.DecisionHolds` | internal/controlplane/admission/service.go:256-263 | on the projection it was chosen by, the choice to admit or defer is never refused as out of date |
| `AdmissionService.ReleaseHolds` | internal/controlplane/admission/service.go:326-330 | on the projection it was chosen by, the release operation is never refused as out of date |
| `AdmissionService.Service.Release` | internal/controlplane/admission/service.go:317-341 | all rounds together append at most one pair, for an operation chosen by a state the entry had in some prefix of the journal, and an undisturbed first round answers what the state it saw calls for |
| `RunStages.FindLatestStage` | internal/run/state.go:566-576 | the scan returns the entry with the most attempts of a name |
| `RunStages.CheckStages` | internal/run/state.go:47-56 | the map-based scan accepts exactly the lists of valid stages whose attempts strictly increase per name |
| `RunStages.CheckMonotonicStages` | internal/run/state.go:404-437 | the three loops accept exactly the lists that insert nothing below a highest attempt, lose nothing, and change a finished entry only by retry exhaustion on the latest attempt |
| `RunStages.UpsertStage` | internal/run/state.go:335-366 | both loops together replace or append exactly as specified, or refuse |
| `RunState.EverySaveSaves` | internal/run/state.go:151-206 | an accepted save is determined by the stored record it leaves |
| `RunHistory.SaveCases` | internal/run/state.go:151-206 | every accepted save is a compensation or an allowed update, of a valid record into a valid record with the next version |
| `RunEdges.SavesTakeEdges` | internal/run/state.go:647-671 | a save that changes the status takes one of seven listed steps, ends an open run by failure or cancellation, or corrects a failed execution to canceled |
| `RunEdges.TransitionOkIff` | internal/run/state.go:129-149 | a transition succeeds exactly from a valid open record, in time, along a listed edge, to a valid record |
| `RunEdges.NothingIsSkipped` | internal/run/state.go:647-671 | in every history a resolving record has a pending one before it, an executing one a resolving one, an awaiting one an executing one, a publishing or declined one an awaiting one |
| `RunEdges.SuccessComesFrom` | internal/run/state.go:647-671 | every success has a publishing record before it, or in artifact mode an executing one left with finalization done |
| `RunEdges.RecordsAreBound` | internal/run/state.go:57-126 | every record of every history has evidence bound to its own run and artifact, the evidence its status stands for, its worker profile from execution on, and stages in time and attempt order |
| `RunEdges.ProfileArrives` | internal/run/state.go:369-378 | a worker profile arrives only while its run is resolving, within one running resolve attempt |
| `RunEndings.EndedSave` | internal/run/state.go:578-621 | a save of an ended run keeps status, evidence, failure and every stage but finalization's; a success keeps everything, and time moves only when something was written |
| `RunEndings.SuccessIsFinal` | internal/run/state.go:578-621 | over any history a successful run keeps every field and stage entry |
| `RunEndings.CorrectionIff` | internal/run/state.go:212-279 | a failed run is saved as canceled if and only if its failed execution is correctable and the record differs by exactly one stage naming the corrected attempt |
| `RunHistory.StatusRises` | internal/run/state.go:647-671 | a save that changes the status raises its rank, and leaves a terminal status only from failed to canceled by compensation |
| `RunHistory.FewStatusChanges` | internal/run/state.go:647-671 | a run changes status at most six times over any history of saves |
| `RunHistory.StatusNeverFalls` | internal/run/state.go:647-671 | over any history the status rank never falls |
| `RunHistory.TerminalStays` | internal/run/state.go:161-194 | a terminal status stays for ever, except that failed may become canceled and then stays |
| `RunHistory.EvidenceIsWrittenOnce` | internal/run/state.go:379-397 | base commit, profile with bindings, memory, artifact, approval and publication never change once recorded, through every path |
| `RunHistory.VersionsCount` | internal/run/state.go:203-205 | versions count the saves and the counter never wraps within a history |
| `RunHistory.SuccessWasApproved` | internal/run/state.go:83-104 | a succeeded pull-request run was publishing before, with the same artifact and an approval bound to that artifact's digest |
| `RunHistory.DeclinedNeverPublishes` | internal/run/state.go:83-104 | after a declined approval a pull-request run never publishes or succeeds |
| `RunStageHistory.LatestIsHighest` | internal/run/state.go:566-576 | in a valid list the latest entry is the one with the highest attempt |
| `RunStageHistory.SaveIsStageStep` | internal/run/state.go:404-437 | whichever path a save takes, each stage entry stays, progresses from the same start, or runs out of retries, and new entries go on top |
| `RunStageHistory.StagesAreKept` | internal/run/state.go:404-437 | over any history no stage attempt is removed and each evolves as one entry may |
| `RunStageHistory.FinishedChangesOnce` | internal/run/state.go:426-429 | a finished entry changes at most once, and then only its failure does: no longer retryable, with the cause that retries are exhausted |
| `RunStageHistory.ChangedWhileLatest` | internal/run/state.go:426-429 | the save that changed it found it as the latest attempt of its stage |
| `RunStageHistory.NewAttemptsGoAbove` | internal/run/state.go:414-420 | an attempt that appears later is above every attempt its stage had before |
| `RunStageHistory.HighestNeverFalls` | internal/run/state.go:404-437 | the highest attempt of a stage never falls |
| `RunStageHistory.LeaseNamesRunning` | internal/run/state.go:281-307 | a held write lease names the latest execute attempt, which is running, until a deadline past the last update, in a run with no artifact and no terminal status |
| `RunStageHistory.LeaseAttemptsNeverFall` | internal/run/state.go:300-305 | lease attempts never decrease over a run, and leases of one attempt share its start |
| `RunStageHistory.HeldLeaseNeverShrinks` | internal/run/state.go:319-326 | while a lease is held its identity stays and its deadline never shrinks |
| `RunStageHistory.CheckpointIsLeased` | internal/run/state.go:327-331 | an artifact recorded while a lease is held is exactly the leased reference, and no lease follows it |
| `RunFailures.FailureChangesWithEvidence` | internal/run/state.go:459-511 | while a run goes on its failure changes only with new stage evidence, and is cleared only by a newer attempt without one |
| `RunFailures.EndingIff` | internal/run/state.go:542-564 | given stage lists a save allows, a run may be ended if and only if its failure is that of its stage's latest, failed attempt, and that attempt is news or the failure was the run's already |
| `RunFailures.EndingIsFresh` | internal/run/state.go:542-564 | a run is ended by a new failure only with an attempt the record before did not hold in that form |
| `RunFailures.EndingShows` | internal/run/state.go:542-564 | the save that fails or cancels a run finds its failure on the latest, failed attempt of its stage |
| `RunFailures.SaveShownIff` | internal/run/state.go:578-621 | a save of an ended run keeps its failure shown exactly when the failure is not finalization's, no finalize attempt is added above the highest, or the highest one added failed the same way |
| `RunFailures.ShownIff` | internal/run/state.go:542-621 | over any history, from the record that ended the run on, the failure is shown under exactly that condition |
| `RunFailures.TerminalFailureIsShown` | internal/run/state.go:542-564 | for every stage but finalization an ended run's failure is always that of its stage's latest failed attempt |
| `RunFailures.FinalizeAgainHidesFailure` | internal/run/state.go:578-621 | a history of three records: a run ends by a failed finalization, is finalized again with success, and keeps a failure its stage no longer shows |
| `RunEdits.UpsertKeepsValid` | internal/run/state.go:335-366 | writing a stage result keeps the list valid |
| `RunEdits.UpsertOkIff` | internal/run/state.go:335-366 | a stage result is written exactly when it is complete, no attempt of its stage is above it, and it does not reopen a finished one |
| `RunEdits.UpsertWrites` | internal/run/state.go:335-366 | exactly the entry under the result's name and attempt is written |
| `RunEdits.UpsertIsMonotonicIff` | internal/run/state.go:335-366 | a save keeps an upserted list exactly when the entry is new, was running from the same start, or ran out of retries |
| `RunEdits.TransitionIsSavedIff` | internal/run/state.go:129-149 | a transition's result is accepted by the save, for failing and canceling exactly when the failed stage is on record |
| `RunEdits.ExhaustionIsSaved` | internal/run/state.go:459-564 | a run whose latest attempt failed retryably can always be ended by saving that attempt and the run as out of retries |
| `RunEdits.CompensationIsTheOnlyCorrection` | internal/run/state.go:264-279 | from a failed run the save accepts as canceled exactly what the compensation constructs |
| `RunEdits.CompensationKeepsRecord` | internal/run/state.go:212-262 | a compensated record keeps all evidence and every earlier stage as an exact prefix, is accepted, and cannot be compensated again |
| `GraphPaths.SplitJoin` | internal/controlplane/types.go:1124-1130 | splitting undoes joining |
| `GraphPaths.CleanIff` | internal/controlplane/types.go:1124-1130 | a text is clean exactly if it is the dot, or parts joined by single slashes, none empty or a dot, without backslashes or double dots |
| `GraphPaths.CleaningIsClean` | internal/controlplane/types.go:1124-1130 | what cleaning returns, unless it refuses, is left alone by cleaning |
| `GraphPaths.CleanOverlapIffShared` | internal/controlplane/types.go:1102-1122 | clean patterns overlap exactly when some concrete path belongs to both |
| `GraphPaths.OverlapIffShared` | internal/controlplane/types.go:1102-1130 | any two pattern texts overlap exactly when both can be cleaned and some concrete path belongs to both |
| `TaskGraph.CycleSearch.Visit` | internal/controlplane/types.go:1065-1082 | one visit either exposes a cycle or lists the visited name after everything it depends on, with the open path restored |
| `TaskGraph.GraphHasCycle` | internal/controlplane/types.go:1062-1089 | terminates and is true exactly when the graph has a cycle, for any map iteration order |
| `TaskGraph.LevelsMeanAcyclic` | internal/controlplane/types.go:995-1012 | a number that falls along every dependency excludes cycles |
| `TaskPlan.ReadOrder` | internal/controlplane/types.go:995-1005 | accepts exactly the orders without unknown or repeated tasks, and records each place |
| `TaskPlan.CheckIntegrationOrder` | internal/controlplane/types.go:995-1012 | the loops accept exactly the orders that put every task after what it depends on |
| `TaskPlan.OrderedMeansAcyclic` | internal/controlplane/types.go:1006-1012 | a graph whose integration order is accepted has no cycle, whatever the cycle search says |
| `TaskPlan.OrderIsTopological` | internal/controlplane/types.go:995-1012 | a complete accepted order lists every task once, each after everything it depends on |
| `TaskPlan.OwnershipOverlaps` | internal/controlplane/types.go:1091-1100 | the double loop is true exactly when some pair of patterns overlaps |
| `TaskPlan.OverlapIffCommonPath` | internal/controlplane/types.go:1091-1100 | clean pattern lists overlap exactly when they own a concrete path in common |
| `TaskPlan.ShareProject` | internal/controlplane/types.go:1132-1141 | true exactly when two tasks have a repository and base in common |
| `TaskPlan.CheckActiveOwnership` | internal/controlplane/types.go:1022-1037 | the pair loop accepts exactly when no two active tasks of one project overlap |
| `TaskPlan.PathsHaveOneOwner` | internal/controlplane/types.go:1022-1037 | in an accepted graph no concrete path is mutable by two tasks that are ready, dispatched, active or in need of input and share a repository and base commit, nor parent-owned or forbidden where it is mutable |
| `TaskReady.CheckOwnership` | internal/controlplane/types.go:938-955 | accepts exactly clean, duplicate-free lists whose mutable paths stay clear of the others |
| `TaskReady.ReadTasks` | internal/controlplane/types.go:683-700 | the first loop accepts exactly uniquely named tasks with valid ownership and builds their map |
| `TaskReady.CheckDeps` | internal/controlplane/types.go:701-706 | accepts exactly when every predecessor is another task of the graph |
| `TaskReady.ValidateGraph` | internal/controlplane/types.go:675-722 | all checks in order accept exactly the valid graphs |
| `TaskAccepted.AcceptedIff` | internal/controlplane/types.go:675-722 | a graph is accepted if and only if its tasks are named apart, its order lists each once behind its dependencies, and no concrete path is owned twice, within a task or by two contending tasks; the cycle search adds nothing |
| `TaskReady.ReadyTasks` | internal/controlplane/types.go:762-788 | answers exactly for valid graphs, with the filtered tasks sorted by name |
| `TaskReady.ReadyIsExact` | internal/controlplane/types.go:762-788 | the answer holds exactly the waiting tasks all of whose predecessors are completed, by ascending name |
| `TaskReady.NoDeadlock` | internal/controlplane/types.go:762-788 | in a valid graph of waiting and completed tasks, not all completed, some task may start |
| `Ordering.SortedIsUnique` | internal/controlplane/types.go:786-787 | a collection has one sorted arrangement under a strict order, so the library's algorithm does not matter |
| `Ordering.StringLessIff` | internal/controlplane/types.go:786-787 | one text is less than another exactly when, after a common prefix, it ends or has the smaller character |
| `Rebuilders.CheckAction` | internal/controlplane/projection/project.go:87-111 | the check against the maps agrees with the events read so far and keeps the maps in step |
| `Rebuilders.RebuildRun` | internal/controlplane/projection/project.go:24-51 | the loop accepts exactly the valid run streams and returns them with their count |
| `Rebuilders.RebuildInstallation` | internal/controlplane/projection/project.go:53-85 | the loop accepts exactly the valid installation streams and returns them with their count |
| `RebuilderViews.RunAcceptedIff` | internal/controlplane/projection/project.go:24-51 | a run stream is accepted if and only if it is numbered from one, of one run, in rising position, without repeated identifiers, and each action is reserved or migrated by its first event and no other, for any outcome rule |
| `RebuilderViews.InstallationMeansRuns` | internal/controlplane/projection/project.go:24-85 | an accepted installation stream, filtered to any run, is accepted by the run rebuilder with run sequence equal to the event count, for any outcome rule |
| `RebuilderViews.InstallationIffRuns` | internal/controlplane/projection/project.go:24-85 | the installation rebuilder accepts exactly when positions count up, no identifier repeats, no action crosses runs, and every run is accepted, for any outcome rule |
| `RebuilderViews.ValidateOutcome` | internal/controlplane/journal/types.go:264-295 | the loop over prior events decides exactly the outcome state machine |
| `RebuilderViews.OutcomeRuleIff` | internal/controlplane/journal/types.go:264-295 | an outcome may follow if and only if the action's outcomes with it form one of eight listed sequences |
| `RebuilderViews.OutcomesFollow` | internal/controlplane/journal/types.go:264-295 | in an accepted run two outcomes of one action stand only as ambiguous before a result, a not-performed or a superseded one, or as not performed before superseded |
| `Fairness.AgeCredit` | internal/controlplane/scheduler/fairness.go:123-129 | the credit is the number of whole intervals waited, or the maximum once that many have passed, and none before the item is queued |
| `Fairness.EarnedOnce` | internal/controlplane/scheduler/fairness.go:123-129 | only one credit meets that law |
| `Fairness.RankReadyItems` | internal/controlplane/scheduler/fairness.go:11-51 | one pass with a duplicate map, then a sort, is the specified ranking or refusal |
| `Fairness.BeforeIsStrict` | internal/controlplane/scheduler/fairness.go:37-49 | the comparison is a strict total order on what is ranked |
| `Fairness.RankIgnoresOrder` | internal/controlplane/scheduler/fairness.go:11-51 | the ranking does not depend on the order the items arrive in |
| `Fairness.OlderRanksFirst` | internal/controlplane/scheduler/fairness.go:123-129 | of two items alike in weight and start, the one waiting longer and queued first ranks first |
| `Fairness.IdentityIsExact` | internal/controlplane/scheduler/fairness.go:21-25 | for run names without a zero character the duplicate key stands for exactly one run and item |
| `Fairness.SelectReadyItem` | internal/controlplane/scheduler/fairness.go:53-79 | the scan past a capped run computes the specified choice |
| `Fairness.SelectAnswersIff` | internal/controlplane/scheduler/fairness.go:59-68 | a selection is made exactly for a non-empty list of complete items told apart by run and name, a state with a streak exactly when it has a last run, and the one policy of a minute, 300 and 2 |
| `Fairness.SelectIgnoresOrder` | internal/controlplane/scheduler/fairness.go:53-79 | the selection does not depend on the order the items arrive in |
| `Fairness.ChoiceIsBest` | internal/controlplane/scheduler/fairness.go:69-78 | the choice is eligible under the cap and no eligible item ranks before it |
| `Fairness.ChoiceLaw` | internal/controlplane/scheduler/fairness.go:11-79 | among all items, or those of other runs once the last run was served twice, the chosen one precedes every other by virtual finish less one per whole minute waited, at most 300, then by sequence and by names |
| `FairnessRuns.StateIsStreak` | internal/controlplane/scheduler/fairness.go:131-137 | along any chain from the empty state, the state is the last run and the length of its unbroken streak |
| `FairnessRuns.StreakWithinLimit` | internal/controlplane/scheduler/fairness.go:69-77 | a streak exceeds the limit only at steps where every ready item belongs to that run |
| `FairnessRuns.WindowIsShared` | internal/controlplane/scheduler/fairness.go:69-77 | in a window longer than the limit, at whose end another run was ready, more than one run was served |
| `FairnessBound.ServedAdvances` | internal/controlplane/scheduler/journal.go:433-446 | whoever is served before a waiting item moves strictly towards a fixed virtual time |
| `FairnessBound.NoStarvation` | internal/controlplane/scheduler/journal.go:433-446 | whatever is ready in each round, a run with ready work is passed over at most once more than the number of runs times that virtual time, while virtual time does not saturate |
| `FairnessSaturation.Starves` | internal/controlplane/scheduler/fairness.go:30-35 | where the virtual time can saturate and two other runs have reached its maximum, some schedule passes the run over for any number of rounds |
| `FairnessSaturation.BoundedIff` | internal/controlplane/scheduler/fairness.go:30-35 | over arbitrary ready lists the wait is bounded if and only if the virtual finish plus the age credit stays below the 64-bit maximum or fewer than two other runs compete |
| `FairnessQueue.ServedInQueueOrder` | internal/controlplane/scheduler/journal.go:406-446 | where sequences grow, later items are queued no earlier by the clock and served items leave, a run with ready work is passed over at most once more than the items ahead of it plus the runs times its virtual finish, saturated or not |
| `KeyedLock.RunKeepsInv` | internal/submission/service.go:1116-1136 | over any interleaving, counts are exact and mapped entries are in use |
| `KeyedLock.MutualExclusion` | internal/submission/service.go:1116-1136 | at most one thread holds a key, though entries are deleted and made again |
| `KeyedLock.EntriesMatchUse` | internal/submission/service.go:1116-1136 | a key has an entry exactly while some thread uses it, and its count is the number of those threads |
| `KeyedLock.IdleLeavesNothing` | internal/submission/service.go:1131-1133 | when every thread is idle the table is empty |
| `KeyedLock.BlockedIffHeld` | internal/submission/service.go:1126 | a waiting thread is blocked exactly while another thread holds its key |
| `KeyedLock.LockTable.BeginLock` | internal/submission/service.go:1117-1124 | one section finds or makes the key's entry and counts the thread in |
| `KeyedLock.LockTable.TakeMutex` | internal/submission/service.go:1126 | takes the entry's mutex exactly when no thread holds the entry |
| `KeyedLock.LockTable.LeaveMutex` | internal/submission/service.go:1128 | frees the entry's mutex |
| `KeyedLock.LockTable.EndLock` | internal/submission/service.go:1129-1134 | counts the thread out and drops the entry with its last user |

## Left out

- SHA-256, canonical JSON and the decoding of envelopes: a payload is the record it encodes, and one that was not stored or cannot be read is a single value that replay refuses.
- Other components that append a second reservation of an action past the store's own `Reserve` and `Commit`, or that forge admission records or admission action names.
- Length limits, blank-text, character-set and digest-format checks on identifiers and texts.
- Error texts; in the admission service the errors themselves are kept, in the graph and rebuilder models a refusal is one value.
- Cache integrity digests and resealing: memory does not decay in the model, so the paths that find a damaged record are absent.
- The uint64 overflow of journal positions and run sequences.
- The filesystem journal and run stores: the in-memory journal store's commit is modelled, other stores are not.
- Context cancellation inside a rebuild or a commit: it is an early return before a pass.
- One service object runs one call at a time; concurrent calls are the other slots of the step system, and the cache mutex is not modelled.
- Admission reads that only look up a projection (admission, lease, observation and disclosure queries).
- Run record texts, canonical worker profiles and the stores behind `Save`.
- Graph fields that are only checked for presence, placement rules, communication edges, project rebinding and isolation, combined gates, and the comparison with a previous revision.
- The scheduler's journal replay, recovery scanner and leases: the chain of selections follows the step that records an admission, and which items are ready at each step is an input.
- The Go memory model: the four sections of the keyed lock are atomic because the source runs them under a mutex or as one mutex operation.
- Everything around these cores: gateways, commands, workflow engine, artifact store, sandbox, site.
- FairnessBound.NoStarvation: assumes that the waiting item's virtual finish plus the age credit stays below the 64-bit maximum; FairnessSaturation.BoundedIff shows that over arbitrary ready lists this cannot be dropped, and FairnessQueue.ServedInQueueOrder does without it in queue order.
- FairnessBound.ServedAdvances: the same assumption, for the same reason.
- FairnessQueue.ServedInQueueOrder: bounds the wait of a run, not of one item; lighter later items of the same run may be served before a heavy one.
- AdmissionService.Service.CommitTransition: the bounded loop may give up with a conflict after 256 passes that each lost a race; no bound on lost races is claimed.
- TaskReady.ReadTasks: omits the goal, project, placement, frozen input and acceptance checks of the loop, which only test fields for presence or form.
- TaskReady.ValidateGraph: omits the checks listed above for graph fields, so it accepts more graphs than the source, and what is proved of its graphs holds of the source's.
- TaskAccepted.AcceptedIff: characterises the graphs TaskReady.ValidateGraph accepts, with the same checks left out.
- TaskReady.ReadyTasks: answers for the graphs TaskReady.ValidateGraph accepts.
