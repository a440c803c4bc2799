/**
 Task graphs and the depth-first search for dependency cycles.
 */
module TaskGraph {

  datatype TaskState = Pending | Ready | Dispatched | Active | NeedsInput | Completed | Failed | Canceled

  predicate BoundaryActive(s: TaskState) { s.Dispatched? || s.Active? || s.NeedsInput? }

  predicate OwnershipActive(s: TaskState) { s.Ready? || BoundaryActive(s) }

  datatype Project = Project(id: string, repository: string, baseSHA: string)

  datatype Ownership = Ownership(mutable_: seq<string>, parentOwned: seq<string>, forbidden: seq<string>)

  datatype Task = Task(
    id: string,
    state: TaskState,
    dependsOn: seq<string>,
    projects: seq<Project>,
    ownership: Ownership)

  datatype Graph = Graph(tasks: seq<Task>, order: seq<string>)

  // Dependencies

  function Deps(tasks: map<string, Task>, id: string): seq<string> {
    if id in tasks then tasks[id].dependsOn else []
  }

  predicate Edge(tasks: map<string, Task>, a: string, b: string) {
    b in Deps(tasks, a)
  }

  predicate Path(tasks: map<string, Task>, p: seq<string>) {
    forall i | 0 <= i < |p| - 1 :: Edge(tasks, p[i], p[i + 1])
  }

  ghost predicate Cycle(tasks: map<string, Task>, p: seq<string>) {
    |p| >= 2 && p[0] == p[|p| - 1] && Path(tasks, p)
  }

  ghost predicate Cyclic(tasks: map<string, Task>) {
    exists p :: Cycle(tasks, p)
  }

  /** A number that falls along every edge leaves no room for a cycle. */
  lemma {:induction false} FallsAlongPath(tasks: map<string, Task>, level: string -> nat, p: seq<string>)
    requires forall a, b | Edge(tasks, a, b) :: level(b) < level(a)
    requires Path(tasks, p) && |p| >= 2
    ensures level(p[|p| - 1]) < level(p[0])
  {
    var n := |p| - 1;
    assert Edge(tasks, p[n - 1], p[n]);
    if n > 1 {
      FallsAlongPath(tasks, level, p[..n]);
    }
  }

  lemma LevelsMeanAcyclic(tasks: map<string, Task>, level: string -> nat)
    requires forall a, b | Edge(tasks, a, b) :: level(b) < level(a)
    ensures !Cyclic(tasks)
  {
    if p :| Cycle(tasks, p) {
      FallsAlongPath(tasks, level, p);
    }
  }

  // Depth-first search

  /** Every name the search can meet. */
  function Universe(tasks: map<string, Task>): set<string> {
    tasks.Keys + (set id, d | id in tasks && d in tasks[id].dependsOn :: d)
  }

  /** Everything depends only on what comes before it. */
  predicate DepsFirst(tasks: map<string, Task>, finished: seq<string>) {
    forall i, d | 0 <= i < |finished| && d in Deps(tasks, finished[i]) :: d in finished[..i]
  }

  function Elements(s: seq<string>): set<string> { set x | x in s }

  function Place(s: seq<string>, id: string): (i: nat)
    ensures i <= |s| && (i < |s| <==> id in s) && (i < |s| ==> s[i] == id)
    ensures forall k | 0 <= k < i :: s[k] != id
  {
    if s == [] then 0
    else if s[0] == id then 0
    else 1 + Place(s[1..], id)
  }

  lemma FinishedMeansAcyclic(tasks: map<string, Task>, finished: seq<string>)
    requires DepsFirst(tasks, finished) && forall id | id in tasks :: id in finished
    ensures !Cyclic(tasks)
  {
    var level := id => Place(finished, id);
    forall a, b | Edge(tasks, a, b) ensures level(b) < level(a) {
      var i := Place(finished, a);
      assert b in finished[..i];
      var k :| 0 <= k < i && finished[k] == b;
    }
    LevelsMeanAcyclic(tasks, level);
  }

  /** The open tasks form a dependency path; the finished ones are listed dependencies first. */
  ghost predicate SearchInv(tasks: map<string, Task>, visiting: set<string>, visited: set<string>,
                            stack: seq<string>, finished: seq<string>)
  {
    && visiting == Elements(stack) && Path(tasks, stack)
    && visited == Elements(finished) && DepsFirst(tasks, finished) && visiting !! visited
  }

  lemma Opens(tasks: map<string, Task>, visiting: set<string>, visited: set<string>,
              stack: seq<string>, finished: seq<string>, id: string)
    requires SearchInv(tasks, visiting, visited, stack, finished) && id !in visited
    requires stack != [] ==> Edge(tasks, stack[|stack| - 1], id)
    ensures SearchInv(tasks, visiting + {id}, visited, stack + [id], finished)
  {
    assert Elements(stack + [id]) == Elements(stack) + {id};
  }

  lemma Closes(tasks: map<string, Task>, visiting: set<string>, visited: set<string>,
               stack: seq<string>, finished: seq<string>, id: string)
    requires SearchInv(tasks, visiting + {id}, visited, stack + [id], finished)
    requires visiting == Elements(stack) && id !in visiting
    requires forall d | d in Deps(tasks, id) :: d in visited
    ensures SearchInv(tasks, visiting, visited + {id}, stack, finished + [id])
  {
    var longer := finished + [id];
    assert Path(tasks, stack) by {
      assert forall i | 0 <= i < |stack| :: stack[i] == (stack + [id])[i];
    }
    assert Elements(longer) == Elements(finished) + {id};
    forall i, d | 0 <= i < |longer| && d in Deps(tasks, longer[i]) ensures d in longer[..i] {
      assert longer[..i] == finished[..i];
      assert i == |finished| ==> finished[..i] == finished;
    }
  }

  lemma StackHasCycle(tasks: map<string, Task>, visiting: set<string>, visited: set<string>,
                      stack: seq<string>, finished: seq<string>, id: string)
    requires SearchInv(tasks, visiting, visited, stack, finished) && id in visiting
    requires stack != [] ==> Edge(tasks, stack[|stack| - 1], id)
    ensures Cyclic(tasks)
  {
    var k :| 0 <= k < |stack| && stack[k] == id;
    var p := stack[k..] + [id];
    forall i | 0 <= i < |p| - 1 ensures Edge(tasks, p[i], p[i + 1]) {
      if i < |p| - 2 {
        assert p[i] == stack[k + i] && p[i + 1] == stack[k + i + 1];
      }
    }
    assert Cycle(tasks, p);
  }

  class CycleSearch {
    const tasks: map<string, Task>
    var visiting: set<string>
    var visited: set<string>
    ghost var stack: seq<string>
    ghost var finished: seq<string>

    constructor (tasks: map<string, Task>)
      ensures this.tasks == tasks && Valid() && stack == []
    {
      this.tasks := tasks;
      visiting, visited, stack, finished := {}, {}, [], [];
    }

    ghost predicate Valid()
      reads this
    {
      SearchInv(tasks, visiting, visited, stack, finished)
    }

    method Visit(id: string) returns (found: bool)
      requires Valid() && id in Universe(tasks)
      requires stack != [] ==> Edge(tasks, stack[|stack| - 1], id)
      modifies this
      decreases |Universe(tasks) - visiting|
      ensures found ==> Cyclic(tasks)
      ensures !found ==> Valid() && stack == old(stack) && visiting == old(visiting)
      ensures !found ==> id in visited && old(visited) <= visited
    {
      hide SearchInv, Universe, Cyclic, Deps, Edge;
      if id in visiting {
        StackHasCycle(tasks, visiting, visited, stack, finished, id);
        return true;
      }
      if id in visited {
        return false;
      }
      StackElements(tasks, visiting, visited, stack, finished);
      Shrinks(Universe(tasks), visiting, id);
      Opens(tasks, visiting, visited, stack, finished, id);
      visiting, stack := visiting + {id}, stack + [id];
      var deps := Deps(tasks, id);
      for i := 0 to |deps|
        invariant Valid() && stack == old(stack) + [id] && visiting == old(visiting) + {id}
        invariant old(visited) <= visited && forall k | 0 <= k < i :: deps[k] in visited
      {
        DepsInUniverse(tasks, id, deps[i]);
        found := Visit(deps[i]);
        if found {
          return;
        }
      }
      Closes(tasks, old(visiting), visited, old(stack), finished, id);
      assert visiting - {id} == old(visiting);
      visiting, stack := visiting - {id}, old(stack);
      visited, finished := visited + {id}, finished + [id];
      return false;
    }
  }

  lemma StackElements(tasks: map<string, Task>, visiting: set<string>, visited: set<string>,
                      stack: seq<string>, finished: seq<string>)
    requires SearchInv(tasks, visiting, visited, stack, finished)
    ensures visiting == Elements(stack)
  {
  }

  lemma Shrinks(all: set<string>, open: set<string>, id: string)
    requires id in all && id !in open
    ensures |all - (open + {id})| < |all - open|
  {
    assert all - open == (all - (open + {id})) + {id};
  }

  lemma DepsInUniverse(tasks: map<string, Task>, id: string, d: string)
    requires d in Deps(tasks, id)
    ensures d in Universe(tasks) && Edge(tasks, id, d)
  {
  }

  /** graphHasCycle: true exactly when the graph has a cycle, whatever order tasks come in. */
  method GraphHasCycle(tasks: map<string, Task>) returns (found: bool)
    ensures found <==> Cyclic(tasks)
  {
    var search := new CycleSearch(tasks);
    var rest := tasks.Keys;
    while rest != {}
      invariant search.Valid() && search.tasks == tasks && search.stack == [] && fresh(search)
      invariant rest <= tasks.Keys && forall id | id in tasks && id !in rest :: id in search.visited
      decreases |rest|
    {
      var id :| id in rest;
      rest := rest - {id};
      found := search.Visit(id);
      if found {
        return;
      }
    }
    FinishedMeansAcyclic(tasks, search.finished);
    found := false;
  }
}
