/**
 Stage lists: one entry per stage name and attempt, scanned and compared by loops.
 */
module RunStages {
  import opened Wrappers
  import opened RunTypes

  predicate SameKey(a: Stage, b: Stage) {
    a.name == b.name && a.attempts == b.attempts
  }

  /** Attempts of one name strictly increase along the list. */
  predicate Increasing(stages: seq<Stage>) {
    forall i, j | 0 <= i < j < |stages| && stages[i].name == stages[j].name :: stages[i].attempts < stages[j].attempts
  }

  predicate ValidStages(stages: seq<Stage>) {
    (forall s | s in stages :: s.Valid()) && Increasing(stages)
  }

  /** The entry with the most attempts, the first of them where several tie. */
  function LatestStage(stages: seq<Stage>, name: string): Option<Stage> {
    if stages == [] then None
    else
      var n := |stages| - 1;
      var prev := LatestStage(stages[..n], name);
      if stages[n].name == name && (prev.None? || stages[n].attempts > prev.value.attempts) then Some(stages[n]) else prev
  }

  /** The highest attempt of a name, 0 when it never ran. */
  function Highest(stages: seq<Stage>, name: string): (h: int)
    ensures h >= 0
    ensures forall s | s in stages && s.name == name :: s.attempts <= h
    ensures h > 0 ==> exists s :: s in stages && s.name == name && s.attempts == h
  {
    if stages == [] then 0
    else
      var n := |stages| - 1;
      var prev := Highest(stages[..n], name);
      assert forall s | s in stages :: s in stages[..n] || s == stages[n];
      assert stages[n] in stages;
      if stages[n].name == name && stages[n].attempts > prev then stages[n].attempts else prev
  }

  /** The last entry under a name and attempt. */
  function Lookup(stages: seq<Stage>, name: string, attempts: int): (r: Option<Stage>)
    ensures r.Some? ==> r.value in stages && r.value.name == name && r.value.attempts == attempts
    ensures r.None? ==> forall s | s in stages :: s.name != name || s.attempts != attempts
  {
    if stages == [] then None
    else
      var n := |stages| - 1;
      if stages[n].name == name && stages[n].attempts == attempts then Some(stages[n])
      else Lookup(stages[..n], name, attempts)
  }

  // Comparing an old list with a new one

  predicate RetryExhaustionFailure(a: Failure, b: Failure) {
    a.retryable && b == a.(retryable := false, causeCode := "retries_exhausted")
  }

  predicate RetryExhaustion(a: Stage, b: Stage) {
    && a.failure.Some? && b.failure.Some? && RetryExhaustionFailure(a.failure.value, b.failure.value)
    && a.(failure := None) == b.(failure := None)
  }

  /** The new list does not slip an entry in below the highest attempt of its name. */
  predicate NotInserted(current: seq<Stage>, s: Stage) {
    Lookup(current, s.name, s.attempts).None? && Highest(current, s.name) != 0 ==>
      s.attempts > Highest(current, s.name)
  }

  predicate KeptBy(current: seq<Stage>, existing: Stage, next: seq<Stage>) {
    var candidate := Lookup(next, existing.name, existing.attempts);
    && candidate.Some?
    && (existing.Finished() ==>
          || existing == candidate.value
          || (existing.attempts == Highest(current, existing.name) && RetryExhaustion(existing, candidate.value)))
    && (!existing.Finished() ==> candidate.value.startedAt == existing.startedAt)
  }

  predicate MonotonicStages(current: seq<Stage>, next: seq<Stage>) {
    (forall s | s in next :: NotInserted(current, s)) && (forall s | s in current :: KeptBy(current, s, next))
  }

  // The loops

  method FindLatestStage(stages: seq<Stage>, name: string) returns (latest: Option<Stage>)
    ensures latest == LatestStage(stages, name)
  {
    latest := None;
    for i := 0 to |stages|
      invariant latest == LatestStage(stages[..i], name)
    {
      assert stages[..i + 1][..i] == stages[..i];
      if stages[i].name == name && (latest.None? || stages[i].attempts > latest.value.attempts) {
        latest := Some(stages[i]);
      }
    }
    assert stages[..|stages|] == stages;
  }

  /** Validate's loop: each stage by itself, and the last attempt seen of each name in a map. */
  method CheckStages(stages: seq<Stage>) returns (ok: bool)
    ensures ok <==> ValidStages(stages)
  {
    var seen: map<string, int> := map[];
    for i := 0 to |stages|
      invariant forall k | 0 <= k < i :: stages[k].Valid() && stages[k].name in seen && stages[k].attempts <= seen[stages[k].name]
      invariant Increasing(stages[..i])
      invariant forall name | name in seen :: exists k | 0 <= k < i :: stages[k].name == name && stages[k].attempts == seen[name]
    {
      if !stages[i].Valid() {
        assert stages[i] in stages;
        return false;
      }
      if stages[i].name in seen && stages[i].attempts <= seen[stages[i].name] {
        var k :| 0 <= k < i && stages[k].name == stages[i].name && stages[k].attempts == seen[stages[i].name];
        return false;
      }
      seen := seen[stages[i].name := stages[i].attempts];
    }
    assert stages[..|stages|] == stages;
    return true;
  }

  /** A map from keys to stages that holds, under each key, the last entry of the list so far. */
  ghost predicate IndexOf(m: map<(string, int), Stage>, stages: seq<Stage>) {
    forall name, attempts ::
      var found := Lookup(stages, name, attempts);
      if (name, attempts) in m then found == Some(m[(name, attempts)]) else found.None?
  }

  ghost predicate HighestOf(m: map<string, int>, stages: seq<Stage>) {
    forall name :: Highest(stages, name) == (if name in m then m[name] else 0)
  }

  lemma IndexOne(m: map<(string, int), Stage>, stages: seq<Stage>, s: Stage)
    requires IndexOf(m, stages)
    ensures IndexOf(m[(s.name, s.attempts) := s], stages + [s])
  {
    assert (stages + [s])[..|stages|] == stages;
  }

  lemma HighestOne(m: map<string, int>, stages: seq<Stage>, s: Stage)
    requires HighestOf(m, stages)
    ensures var h := if s.name in m then m[s.name] else 0;
            HighestOf(if s.attempts > h then m[s.name := s.attempts] else m, stages + [s])
  {
    assert (stages + [s])[..|stages|] == stages;
    assert Highest(stages, s.name) == (if s.name in m then m[s.name] else 0);
  }

  function HighestIn(m: map<string, int>, name: string): int {
    if name in m then m[name] else 0
  }

  /** The second loop's test, read off the two maps. */
  predicate Inserted(byKey: map<(string, int), Stage>, latest: map<string, int>, s: Stage) {
    (s.name, s.attempts) !in byKey && HighestIn(latest, s.name) != 0 && s.attempts <= HighestIn(latest, s.name)
  }

  /** The third loop's tests, read off the maps. */
  predicate Kept(nextByKey: map<(string, int), Stage>, latest: map<string, int>, s: Stage) {
    && (s.name, s.attempts) in nextByKey
    && var candidate := nextByKey[(s.name, s.attempts)];
    && !(s.Finished() && s != candidate &&
         !(s.attempts == HighestIn(latest, s.name) && RetryExhaustion(s, candidate)))
    && !(!s.Finished() &&
         (candidate.name != s.name || candidate.attempts != s.attempts || candidate.startedAt != s.startedAt))
  }

  lemma InsertedReads(byKey: map<(string, int), Stage>, latest: map<string, int>, current: seq<Stage>, s: Stage)
    requires IndexOf(byKey, current) && HighestOf(latest, current)
    ensures Inserted(byKey, latest, s) <==> !NotInserted(current, s)
  {
    hide Lookup, Highest;
  }

  lemma KeptReads(nextByKey: map<(string, int), Stage>, latest: map<string, int>, current: seq<Stage>, s: Stage, next: seq<Stage>)
    requires IndexOf(nextByKey, next) && HighestOf(latest, current)
    ensures Kept(nextByKey, latest, s) <==> KeptBy(current, s, next)
  {
    hide Lookup, Highest, RetryExhaustion;
  }

  /** validateMonotonicStages. */
  method CheckMonotonicStages(current: seq<Stage>, next: seq<Stage>) returns (ok: bool)
    ensures ok <==> MonotonicStages(current, next)
  {
    hide IndexOf, HighestOf, NotInserted, KeptBy, Inserted, Kept;
    var nextByKey: map<(string, int), Stage> := map[];
    var currentByKey: map<(string, int), Stage> := map[];
    var latestAttempt: map<string, int> := map[];
    EmptyIndexes();
    for i := 0 to |current|
      invariant IndexOf(currentByKey, current[..i]) && HighestOf(latestAttempt, current[..i])
    {
      var s := current[i];
      IndexOne(currentByKey, current[..i], s);
      HighestOne(latestAttempt, current[..i], s);
      assert current[..i + 1] == current[..i] + [s];
      currentByKey := currentByKey[(s.name, s.attempts) := s];
      if s.attempts > HighestIn(latestAttempt, s.name) {
        latestAttempt := latestAttempt[s.name := s.attempts];
      }
    }
    assert current[..|current|] == current;
    for i := 0 to |next|
      invariant IndexOf(nextByKey, next[..i])
      invariant forall k | 0 <= k < i :: NotInserted(current, next[k])
    {
      var s := next[i];
      IndexOne(nextByKey, next[..i], s);
      assert next[..i + 1] == next[..i] + [s];
      nextByKey := nextByKey[(s.name, s.attempts) := s];
      InsertedReads(currentByKey, latestAttempt, current, s);
      if Inserted(currentByKey, latestAttempt, s) {
        assert s in next;
        return false;
      }
    }
    assert next[..|next|] == next;
    for i := 0 to |current|
      invariant forall k | 0 <= k < i :: KeptBy(current, current[k], next)
    {
      KeptReads(nextByKey, latestAttempt, current, current[i], next);
      if !Kept(nextByKey, latestAttempt, current[i]) {
        assert current[i] in current;
        return false;
      }
    }
    return true;
  }

  lemma EmptyIndexes()
    ensures IndexOf(map[], []) && HighestOf(map[], [])
  {
  }

  // Writing one stage result

  function Upsert(stages: seq<Stage>, result: Stage): Option<seq<Stage>> {
    if !result.Valid() || result.attempts < Highest(stages, result.name) then None
    else
      var i := FirstAt(stages, result);
      if i == |stages| then Some(stages + [result])
      else if stages[i].Finished() && !result.Finished() then None
      else Some(stages[i := result])
  }

  /** The index of the first entry under the stage's key, or the length. */
  function FirstAt(stages: seq<Stage>, s: Stage): (i: nat)
    ensures i <= |stages|
    ensures i < |stages| ==> SameKey(stages[i], s)
    ensures forall k | 0 <= k < i :: !SameKey(stages[k], s)
  {
    if stages == [] then 0
    else if SameKey(stages[0], s) then 0
    else 1 + FirstAt(stages[1..], s)
  }

  lemma FirstAtUnique(stages: seq<Stage>, s: Stage, i: nat)
    requires i <= |stages| && (i < |stages| ==> SameKey(stages[i], s))
    requires forall k | 0 <= k < i :: !SameKey(stages[k], s)
    ensures FirstAt(stages, s) == i
  {
  }

  /** UpsertStage's two loops: the highest attempt first, then the entry to replace. */
  method UpsertStage(stages: seq<Stage>, result: Stage) returns (out: Option<seq<Stage>>)
    ensures out == Upsert(stages, result)
  {
    if !result.Valid() {
      return None;
    }
    var highest := 0;
    for i := 0 to |stages|
      invariant highest == Highest(stages[..i], result.name)
    {
      assert stages[..i + 1][..i] == stages[..i];
      if stages[i].name == result.name && stages[i].attempts > highest {
        highest := stages[i].attempts;
      }
    }
    assert stages[..|stages|] == stages;
    if result.attempts < highest {
      return None;
    }
    for i := 0 to |stages|
      invariant forall k | 0 <= k < i :: !SameKey(stages[k], result)
    {
      if SameKey(stages[i], result) {
        FirstAtUnique(stages, result, i);
        if stages[i].Finished() && !result.Finished() {
          return None;
        }
        return Some(stages[i := result]);
      }
    }
    FirstAtUnique(stages, result, |stages|);
    out := Some(stages + [result]);
  }
}
