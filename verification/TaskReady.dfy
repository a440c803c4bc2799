/**
 Accepted graphs, and which tasks may start in them.
 */
module TaskReady {
  import opened Wrappers
  import opened Ordering
  import opened GraphPaths
  import opened TaskGraph
  import opened TaskPlan

  // Accepting a graph

  predicate DepsKnown(tasks: seq<Task>, t: Task) {
    forall d | d in t.dependsOn :: d != t.id && d in ById(tasks)
  }

  ghost predicate ValidGraph(g: Graph) {
    && g.tasks != [] && |g.order| == |g.tasks|
    && (forall t | t in g.tasks :: t.id != "" && ValidOwnership(t.ownership)) && UniqueIds(g.tasks)
    && (forall t | t in g.tasks :: DepsKnown(g.tasks, t))
    && !Cyclic(ById(g.tasks)) && OrderAccepted(g.tasks, g.order) && ActiveOwnershipAccepted(g.tasks)
  }

  method CheckPatterns(patterns: seq<string>) returns (ok: bool)
    ensures ok <==> CleanList(patterns)
  {
    hide Clean;
    var seen: set<string> := {};
    for i := 0 to |patterns|
      invariant forall k | 0 <= k < i :: Clean(patterns[k]) && patterns[k] in seen
      invariant Distinct(patterns[..i]) && forall p | p in seen :: p in patterns[..i]
    {
      var p := patterns[i];
      if !Clean(p) {
        assert p in patterns;
        return false;
      }
      if p in seen {
        var k :| 0 <= k < i && patterns[..i][k] == p;
        assert patterns[k] == patterns[i];
        return false;
      }
      seen := seen + {p};
    }
    assert patterns[..|patterns|] == patterns;
    return true;
  }

  method CheckOwnership(o: Ownership) returns (ok: bool)
    ensures ok <==> ValidOwnership(o)
  {
    hide CleanList, Overlap;
    var a := CheckPatterns(o.mutable_);
    var b := CheckPatterns(o.parentOwned);
    var c := CheckPatterns(o.forbidden);
    if !(a && b && c) {
      return false;
    }
    var p := OwnershipOverlaps(o.mutable_, o.parentOwned);
    var f := OwnershipOverlaps(o.mutable_, o.forbidden);
    return !p && !f;
  }

  lemma NoTasks()
    ensures ById([]) == map[] && UniqueIds([])
  {
  }

  /** A task whose name the map already holds, and only such a task, breaks uniqueness. */
  lemma OneMore(tasks: seq<Task>, i: nat)
    requires i < |tasks| && UniqueIds(tasks[..i])
    ensures ById(tasks[..i + 1]) == ById(tasks[..i])[tasks[i].id := tasks[i]]
    ensures tasks[i].id in ById(tasks[..i]) ==> !UniqueIds(tasks)
    ensures tasks[i].id !in ById(tasks[..i]) ==> UniqueIds(tasks[..i + 1])
  {
    hide ById, UniqueIds;
    ByIdGrows(tasks, i);
    ByIdHolds(tasks[..i]);
    if tasks[i].id in ById(tasks[..i]) {
      var k :| 0 <= k < i && tasks[..i][k] == ById(tasks[..i])[tasks[i].id];
      RepeatedId(tasks, k, i);
    } else {
      forall k | 0 <= k < i ensures tasks[k].id != tasks[i].id {
        assert tasks[k] in tasks[..i];
      }
      NewId(tasks, i);
    }
  }

  lemma ByIdGrows(tasks: seq<Task>, i: nat)
    requires i < |tasks|
    ensures ById(tasks[..i + 1]) == ById(tasks[..i])[tasks[i].id := tasks[i]]
  {
    assert tasks[..i + 1][..i] == tasks[..i];
  }

  lemma RepeatedId(tasks: seq<Task>, k: nat, i: nat)
    requires k < i < |tasks| && tasks[k].id == tasks[i].id
    ensures !UniqueIds(tasks)
  {
  }

  lemma NewId(tasks: seq<Task>, i: nat)
    requires i < |tasks| && UniqueIds(tasks[..i]) && forall k | 0 <= k < i :: tasks[k].id != tasks[i].id
    ensures UniqueIds(tasks[..i + 1])
  {
    assert forall k | 0 <= k < i :: tasks[..i][k] == tasks[k];
  }

  /** ValidateGraph's first loop: every task by itself, names unique, gathered in a map. */
  method ReadTasks(tasks: seq<Task>) returns (byId: Option<map<string, Task>>)
    ensures byId.Some? <==> (forall t | t in tasks :: t.id != "" && ValidOwnership(t.ownership)) && UniqueIds(tasks)
    ensures byId.Some? ==> byId.value == ById(tasks)
  {
    hide ValidOwnership, ById, UniqueIds;
    NoTasks();
    var m: map<string, Task> := map[];
    for i := 0 to |tasks|
      invariant m == ById(tasks[..i]) && UniqueIds(tasks[..i])
      invariant forall k | 0 <= k < i :: tasks[k].id != "" && ValidOwnership(tasks[k].ownership)
    {
      var t := tasks[i];
      OneMore(tasks, i);
      var owned := CheckOwnership(t.ownership);
      if t.id == "" || !owned {
        assert t in tasks;
        return None;
      }
      if t.id in m {
        return None;
      }
      m := m[t.id := t];
    }
    assert tasks[..|tasks|] == tasks;
    return Some(m);
  }

  method CheckDeps(tasks: seq<Task>, byId: map<string, Task>) returns (ok: bool)
    requires byId == ById(tasks)
    ensures ok <==> forall t | t in tasks :: DepsKnown(tasks, t)
  {
    hide ById;
    for i := 0 to |tasks|
      invariant forall k | 0 <= k < i :: DepsKnown(tasks, tasks[k])
    {
      var t := tasks[i];
      for j := 0 to |t.dependsOn|
        invariant forall k | 0 <= k < j :: t.dependsOn[k] != t.id && t.dependsOn[k] in byId
      {
        if t.dependsOn[j] == t.id || t.dependsOn[j] !in byId {
          assert t in tasks && t.dependsOn[j] in t.dependsOn;
          return false;
        }
      }
    }
    return true;
  }

  method ValidateGraph(g: Graph) returns (ok: bool)
    ensures ok <==> ValidGraph(g)
  {
    hide ById, ValidOwnership, UniqueIds, DepsKnown, Cyclic, OrderAccepted, ActiveOwnershipAccepted;
    if g.tasks == [] || |g.order| != |g.tasks| {
      return false;
    }
    var byId := ReadTasks(g.tasks);
    if byId.None? {
      return false;
    }
    var known := CheckDeps(g.tasks, byId.value);
    if !known {
      return false;
    }
    var cyclic := GraphHasCycle(byId.value);
    if cyclic {
      return false;
    }
    var ordered := CheckIntegrationOrder(g.tasks, byId.value, g.order);
    if !ordered {
      return false;
    }
    ok := CheckActiveOwnership(g.tasks);
  }

  // Ready tasks

  predicate Satisfied(byId: map<string, Task>, t: Task) {
    forall d | d in t.dependsOn :: d in byId && byId[d].state.Completed?
  }

  predicate MayStart(byId: map<string, Task>, t: Task) {
    (t.state.Pending? || t.state.Ready?) && Satisfied(byId, t)
  }

  function ReadyOf(byId: map<string, Task>, tasks: seq<Task>): seq<Task> {
    if tasks == [] then []
    else
      var n := |tasks| - 1;
      ReadyOf(byId, tasks[..n]) + (if MayStart(byId, tasks[n]) then [tasks[n]] else [])
  }

  predicate IdLess(a: Task, b: Task) { StringLess(a.id, b.id) }

  function Ready(g: Graph): seq<Task> {
    Sort(IdLess, ReadyOf(ById(g.tasks), g.tasks))
  }

  method ReadyTasks(g: Graph) returns (ready: Option<seq<Task>>)
    ensures ready.Some? <==> ValidGraph(g)
    ensures ready.Some? ==> ready.value == Ready(g)
  {
    hide ValidGraph, Sort, MayStart;
    var valid := ValidateGraph(g);
    if !valid {
      return None;
    }
    var byId: map<string, Task> := map[];
    for i := 0 to |g.tasks|
      invariant byId == ById(g.tasks[..i])
    {
      assert g.tasks[..i + 1][..i] == g.tasks[..i];
      byId := byId[g.tasks[i].id := g.tasks[i]];
    }
    assert g.tasks[..|g.tasks|] == g.tasks;
    var found := [];
    for i := 0 to |g.tasks|
      invariant found == ReadyOf(byId, g.tasks[..i])
    {
      assert g.tasks[..i + 1][..i] == g.tasks[..i];
      var start := CheckStart(byId, g.tasks[i]);
      if start {
        found := found + [g.tasks[i]];
      }
    }
    return Some(Sort(IdLess, found));
  }

  method CheckStart(byId: map<string, Task>, t: Task) returns (start: bool)
    ensures start <==> MayStart(byId, t)
  {
    if !t.state.Pending? && !t.state.Ready? {
      return false;
    }
    for j := 0 to |t.dependsOn|
      invariant forall k | 0 <= k < j :: t.dependsOn[k] in byId && byId[t.dependsOn[k]].state.Completed?
    {
      if t.dependsOn[j] !in byId || !byId[t.dependsOn[j]].state.Completed? {
        return false;
      }
    }
    return true;
  }

  lemma {:induction false} ReadyMembers(byId: map<string, Task>, tasks: seq<Task>)
    ensures forall t :: t in ReadyOf(byId, tasks) <==> t in tasks && MayStart(byId, t)
  {
    hide MayStart;
    if tasks != [] {
      var n := |tasks| - 1;
      ReadyMembers(byId, tasks[..n]);
      assert forall t :: t in tasks <==> t in tasks[..n] || t == tasks[n];
    }
  }

  lemma IdsOrdered(tasks: seq<Task>, part: seq<Task>)
    requires UniqueIds(tasks) && forall t | t in part :: t in tasks
    ensures StrictOn(IdLess, part)
  {
    StringOrder();
    forall x, y | x in part && y in part && x != y ensures IdLess(x, y) || IdLess(y, x) {
      var i :| 0 <= i < |tasks| && tasks[i] == x;
      var j :| 0 <= j < |tasks| && tasks[j] == y;
    }
  }

  /** Completed as the graph's own task list says. */
  predicate IsCompleted(g: Graph, id: string) {
    exists u | u in g.tasks :: u.id == id && u.state.Completed?
  }

  /** Exactly the waiting tasks all of whose predecessors are completed, by ascending name. */
  lemma ReadyIsExact(g: Graph)
    requires ValidGraph(g)
    ensures forall t :: t in Ready(g) <==>
              t in g.tasks && (t.state.Pending? || t.state.Ready?) && forall d | d in t.dependsOn :: IsCompleted(g, d)
    ensures forall i, j | 0 <= i < j < |Ready(g)| :: !StringLess(Ready(g)[j].id, Ready(g)[i].id)
  {
    hide Cyclic, OrderAccepted, ActiveOwnershipAccepted, ById, Sort, ValidOwnership, StrictOn;
    var byId := ById(g.tasks);
    ReadyMembers(byId, g.tasks);
    ByIdHolds(g.tasks);
    IdsOrdered(g.tasks, ReadyOf(byId, g.tasks));
    SortSorts(IdLess, ReadyOf(byId, g.tasks));
    forall t | t in g.tasks
      ensures Satisfied(byId, t) <==> forall d | d in t.dependsOn :: IsCompleted(g, d)
    {
      assert DepsKnown(g.tasks, t);
      forall d | d in t.dependsOn ensures byId[d].state.Completed? <==> IsCompleted(g, d) {
        if u :| u in g.tasks && u.id == d && u.state.Completed? {
          ByIdFinds(g.tasks, u);
        }
      }
    }
  }

  lemma {:induction false} FirstOpen(g: Graph, n: nat) returns (k: nat)
    requires n < |g.order| && g.order[n] in ById(g.tasks) && !ById(g.tasks)[g.order[n]].state.Completed?
    requires forall id | id in g.order :: id in ById(g.tasks)
    ensures k <= n && !ById(g.tasks)[g.order[k]].state.Completed?
    ensures forall i | 0 <= i < k :: ById(g.tasks)[g.order[i]].state.Completed?
  {
    if i :| 0 <= i < n && !ById(g.tasks)[g.order[i]].state.Completed? {
      k := FirstOpen(g, i);
    } else {
      k := n;
    }
  }

  /** While only waiting and completed tasks are left and not all are completed, something may start. */
  lemma NoDeadlock(g: Graph)
    requires ValidGraph(g)
    requires forall t | t in g.tasks :: t.state.Pending? || t.state.Ready? || t.state.Completed?
    requires exists t | t in g.tasks :: !t.state.Completed?
    ensures Ready(g) != []
  {
    hide Cyclic, ActiveOwnershipAccepted, ById, Sort, ValidOwnership, ReadyOf;
    var byId := ById(g.tasks);
    ByIdHolds(g.tasks);
    OrderIsTopological(g.tasks, g.order);
    var open :| open in g.tasks && !open.state.Completed?;
    ByIdFinds(g.tasks, open);
    assert open.id in Elements(g.order);
    var k := FirstOpen(g, Place(g.order, open.id));
    var t := byId[g.order[k]];
    assert DepsKnown(g.tasks, t);
    forall d | d in t.dependsOn ensures IsCompleted(g, d) {
      assert Place(g.order, d) < Place(g.order, t.id) <= k;
      assert byId[d].state.Completed?;
    }
    ReadyIsExact(g);
    assert t in Ready(g);
  }
}
