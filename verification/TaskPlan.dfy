/**
 Accepting a task graph: integration order, ownership, and which tasks may start.
 */
module TaskPlan {
  import opened Wrappers
  import opened GraphPaths
  import opened TaskGraph

  // Lists of tasks as maps

  predicate UniqueIds(tasks: seq<Task>) {
    forall i, j | 0 <= i < j < |tasks| :: tasks[i].id != tasks[j].id
  }

  function ById(tasks: seq<Task>): map<string, Task> {
    if tasks == [] then map[]
    else
      var n := |tasks| - 1;
      ById(tasks[..n])[tasks[n].id := tasks[n]]
  }

  /** The map's entries are tasks of the list under their own names, and every name has one. */
  lemma {:induction false} ByIdHolds(tasks: seq<Task>)
    ensures forall id | id in ById(tasks) :: ById(tasks)[id] in tasks && ById(tasks)[id].id == id
    ensures forall t | t in tasks :: t.id in ById(tasks)
  {
    if tasks != [] {
      var n := |tasks| - 1;
      var m := ById(tasks[..n]);
      ByIdHolds(tasks[..n]);
      forall id | id in ById(tasks) ensures ById(tasks)[id] in tasks && ById(tasks)[id].id == id {
        if id != tasks[n].id {
          assert m[id] in tasks[..n];
        }
      }
      forall t | t in tasks ensures t.id in ById(tasks) {
        assert t in tasks[..n] || t == tasks[n];
      }
    }
  }

  lemma ByIdFinds(tasks: seq<Task>, t: Task)
    requires UniqueIds(tasks) && t in tasks
    ensures t.id in ById(tasks) && ById(tasks)[t.id] == t
  {
    hide ById;
    ByIdHolds(tasks);
    var u := ById(tasks)[t.id];
    var i :| 0 <= i < |tasks| && tasks[i] == t;
    var j :| 0 <= j < |tasks| && tasks[j] == u;
  }

  // Integration order

  predicate Distinct(s: seq<string>) {
    forall i, j | 0 <= i < j < |s| :: s[i] != s[j]
  }

  /** A name's place in the order, 0 for a name that is not in it. */
  function Slot(order: seq<string>, id: string): nat {
    var i := Place(order, id);
    if i == |order| then 0 else i
  }

  predicate InOrder(order: seq<string>, t: Task) {
    forall d | d in t.dependsOn :: Slot(order, d) < Slot(order, t.id)
  }

  predicate OrderAccepted(tasks: seq<Task>, order: seq<string>) {
    && (forall id | id in order :: id in ById(tasks)) && Distinct(order)
    && forall t | t in tasks :: InOrder(order, t)
  }

  /** A graph whose integration order is accepted has no cycle: the order check alone already implies it. */
  lemma OrderedMeansAcyclic(tasks: seq<Task>, order: seq<string>)
    requires OrderAccepted(tasks, order)
    ensures !Cyclic(ById(tasks))
  {
    hide ById;
    ByIdHolds(tasks);
    var level := id => Slot(order, id);
    forall a, b | Edge(ById(tasks), a, b) ensures level(b) < level(a) {
      assert InOrder(order, ById(tasks)[a]);
    }
    LevelsMeanAcyclic(ById(tasks), level);
  }

  lemma {:induction false} DistinctSize(s: seq<string>)
    requires Distinct(s)
    ensures |Elements(s)| == |s|
  {
    if s == [] {
      assert Elements(s) == {};
    } else {
      var n := |s| - 1;
      DistinctSize(s[..n]);
      assert Elements(s) == Elements(s[..n]) + {s[n]};
    }
  }

  lemma SubsetOfSize(a: set<string>, b: set<string>)
    requires a <= b && |a| >= |b|
    ensures a == b
  {
    assert b == a + (b - a);
  }

  lemma {:induction false} IdsSize(tasks: seq<Task>)
    requires UniqueIds(tasks)
    ensures |ById(tasks).Keys| == |tasks|
  {
    if tasks != [] {
      var n := |tasks| - 1;
      IdsSize(tasks[..n]);
      var m := ById(tasks[..n]);
      ByIdHolds(tasks[..n]);
      assert ById(tasks).Keys == m.Keys + {tasks[n].id};
    }
  }

  /** A complete accepted order lists every task once, each after everything it depends on. */
  lemma OrderIsTopological(tasks: seq<Task>, order: seq<string>)
    requires UniqueIds(tasks) && OrderAccepted(tasks, order) && |order| == |tasks|
    ensures Elements(order) == ById(tasks).Keys && Distinct(order)
    ensures forall t, d | t in tasks && d in t.dependsOn && d in ById(tasks) ::
              Place(order, d) < Place(order, t.id) < |order|
  {
    hide ById;
    ByIdHolds(tasks);
    DistinctSize(order);
    IdsSize(tasks);
    SubsetOfSize(Elements(order), ById(tasks).Keys);
    forall t, d | t in tasks && d in t.dependsOn && d in ById(tasks)
      ensures Place(order, d) < Place(order, t.id) < |order|
    {
      assert InOrder(order, t);
      assert t.id in Elements(order) && d in Elements(order);
    }
  }

  /** The places read so far. */
  ghost predicate Places(seen: map<string, nat>, order: seq<string>) {
    && (forall k | 0 <= k < |order| :: order[k] in seen && seen[order[k]] == k)
    && (forall id | id in seen :: seen[id] < |order| && order[seen[id]] == id)
  }

  /** validateIntegrationOrder, first loop. */
  method ReadOrder(byId: map<string, Task>, order: seq<string>) returns (places: Option<map<string, nat>>)
    ensures places.Some? <==> (forall id | id in order :: id in byId) && Distinct(order)
    ensures places.Some? ==> Places(places.value, order)
  {
    var seen: map<string, nat> := map[];
    for i := 0 to |order|
      invariant Places(seen, order[..i]) && forall k | 0 <= k < i :: order[k] in byId
    {
      if order[i] !in byId {
        assert order[i] in order;
        return None;
      }
      if order[i] in seen {
        assert order[..i][seen[order[i]]] == order[i];
        return None;
      }
      seen := seen[order[i] := i];
    }
    assert order[..|order|] == order;
    return Some(seen);
  }

  /** validateIntegrationOrder. */
  method CheckIntegrationOrder(tasks: seq<Task>, byId: map<string, Task>, order: seq<string>) returns (ok: bool)
    requires byId == ById(tasks)
    ensures ok <==> OrderAccepted(tasks, order)
  {
    hide ById, Places, Slot, Distinct;
    var places := ReadOrder(byId, order);
    if places.None? {
      return false;
    }
    var seen := places.value;
    for i := 0 to |tasks|
      invariant forall k | 0 <= k < i :: InOrder(order, tasks[k])
    {
      var t := tasks[i];
      for j := 0 to |t.dependsOn|
        invariant forall k | 0 <= k < j :: Slot(order, t.dependsOn[k]) < Slot(order, t.id)
      {
        var d := t.dependsOn[j];
        var before, after := if d in seen then seen[d] else 0, if t.id in seen then seen[t.id] else 0;
        SlotIsSeen(order, seen, d);
        SlotIsSeen(order, seen, t.id);
        if before >= after {
          assert d in t.dependsOn && t in tasks;
          return false;
        }
      }
    }
    return true;
  }

  lemma SlotIsSeen(order: seq<string>, seen: map<string, nat>, id: string)
    requires Places(seen, order)
    ensures Slot(order, id) == (if id in seen then seen[id] else 0)
  {
  }

  // Ownership

  predicate Overlap(a: seq<string>, b: seq<string>) {
    exists l, r | l in a && r in b :: PatternsOverlap(l, r)
  }

  /** The path is named by one of the patterns. */
  predicate Owns(patterns: seq<string>, path: string) {
    exists p | p in patterns :: Denotes(p, path)
  }

  predicate CleanList(patterns: seq<string>) {
    (forall p | p in patterns :: Clean(p)) && Distinct(patterns)
  }

  predicate ValidOwnership(o: Ownership) {
    && CleanList(o.mutable_) && CleanList(o.parentOwned) && CleanList(o.forbidden)
    && !Overlap(o.mutable_, o.parentOwned) && !Overlap(o.mutable_, o.forbidden)
  }

  method OwnershipOverlaps(first: seq<string>, second: seq<string>) returns (found: bool)
    ensures found <==> Overlap(first, second)
  {
    hide PatternsOverlap;
    for i := 0 to |first|
      invariant forall k, r | 0 <= k < i && r in second :: !PatternsOverlap(first[k], r)
    {
      for j := 0 to |second|
        invariant forall k | 0 <= k < j :: !PatternsOverlap(first[i], second[k])
      {
        if PatternsOverlap(first[i], second[j]) {
          assert first[i] in first && second[j] in second;
          return true;
        }
      }
    }
    return false;
  }

  /** On clean lists, overlapping means owning a concrete path in common. */
  lemma OverlapIffCommonPath(a: seq<string>, b: seq<string>)
    requires CleanList(a) && CleanList(b)
    ensures Overlap(a, b) <==> exists path :: Concrete(path) && Owns(a, path) && Owns(b, path)
  {
    hide PatternsOverlap, Clean, Denotes, Concrete;
    if Overlap(a, b) {
      var l, r :| l in a && r in b && PatternsOverlap(l, r);
      CleanOverlapIffShared(l, r);
      var x :| Concrete(x) && Denotes(l, x) && Denotes(r, x);
      assert Owns(a, x) && Owns(b, x);
    }
    if path :| Concrete(path) && Owns(a, path) && Owns(b, path) {
      var l :| l in a && Denotes(l, path);
      var r :| r in b && Denotes(r, path);
      CleanOverlapIffShared(l, r);
    }
  }

  predicate SameProject(a: Task, b: Task) {
    exists p, q | p in a.projects && q in b.projects :: p.repository == q.repository && p.baseSHA == q.baseSHA
  }

  predicate Collide(a: Task, b: Task) {
    && OwnershipActive(a.state) && OwnershipActive(b.state) && SameProject(a, b)
    && Overlap(a.ownership.mutable_, b.ownership.mutable_)
  }

  predicate ActiveOwnershipAccepted(tasks: seq<Task>) {
    forall i, j | 0 <= i < j < |tasks| :: !Collide(tasks[i], tasks[j])
  }

  method ShareProject(a: Task, b: Task) returns (same: bool)
    ensures same <==> SameProject(a, b)
  {
    for i := 0 to |a.projects|
      invariant forall k, q | 0 <= k < i && q in b.projects ::
                  !(a.projects[k].repository == q.repository && a.projects[k].baseSHA == q.baseSHA)
    {
      for j := 0 to |b.projects|
        invariant forall k | 0 <= k < j ::
                    !(a.projects[i].repository == b.projects[k].repository && a.projects[i].baseSHA == b.projects[k].baseSHA)
      {
        if a.projects[i].repository == b.projects[j].repository && a.projects[i].baseSHA == b.projects[j].baseSHA {
          assert a.projects[i] in a.projects && b.projects[j] in b.projects;
          return true;
        }
      }
    }
    return false;
  }

  /** validateActiveOwnership: every pair once. */
  method CheckActiveOwnership(tasks: seq<Task>) returns (ok: bool)
    ensures ok <==> ActiveOwnershipAccepted(tasks)
  {
    hide SameProject, Overlap;
    for i := 0 to |tasks|
      invariant forall a, b | 0 <= a < i && a < b < |tasks| :: !Collide(tasks[a], tasks[b])
    {
      if OwnershipActive(tasks[i].state) {
        for j := i + 1 to |tasks|
          invariant forall b | i < b < j :: !Collide(tasks[i], tasks[b])
        {
          if OwnershipActive(tasks[j].state) {
            var same := ShareProject(tasks[i], tasks[j]);
            var overlap := OwnershipOverlaps(tasks[i].ownership.mutable_, tasks[j].ownership.mutable_);
            if same && overlap {
              return false;
            }
          }
        }
      }
    }
    return true;
  }

  /** The states in which a task's ownership counts. */
  const ACTIVE: set<TaskState> := {Ready, Dispatched, Active, NeedsInput}

  /** No concrete path is mutable by two active tasks of one project, nor also parent-owned or forbidden in its task. */
  lemma PathsHaveOneOwner(tasks: seq<Task>, i: nat, j: nat, path: string)
    requires ActiveOwnershipAccepted(tasks) && forall t | t in tasks :: ValidOwnership(t.ownership)
    requires i < |tasks| && j < |tasks| && Concrete(path) && Owns(tasks[i].ownership.mutable_, path)
    ensures (i != j && tasks[i].state in ACTIVE && tasks[j].state in ACTIVE
             && exists p, q | p in tasks[i].projects && q in tasks[j].projects :: p.repository == q.repository && p.baseSHA == q.baseSHA)
            ==> !Owns(tasks[j].ownership.mutable_, path)
    ensures !Owns(tasks[i].ownership.parentOwned, path) && !Owns(tasks[i].ownership.forbidden, path)
  {
    hide Overlap, Owns, Concrete, CleanList;
    var a, b := tasks[i].ownership, tasks[j].ownership;
    assert ValidOwnership(a) && ValidOwnership(b);
    OverlapIffCommonPath(a.mutable_, b.mutable_);
    OverlapIffCommonPath(b.mutable_, a.mutable_);
    OverlapIffCommonPath(a.mutable_, a.parentOwned);
    OverlapIffCommonPath(a.mutable_, a.forbidden);
    if SameProject(tasks[i], tasks[j]) {
      SameProjectSymmetric(tasks[i], tasks[j]);
    }
  }

  lemma SameProjectSymmetric(a: Task, b: Task)
    requires SameProject(a, b)
    ensures SameProject(b, a)
  {
    var p, q :| p in a.projects && q in b.projects && p.repository == q.repository && p.baseSHA == q.baseSHA;
    assert q in b.projects && p in a.projects;
  }
}
