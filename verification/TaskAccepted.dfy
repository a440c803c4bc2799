/**
 Accepted graphs without the checks that accept them: what the list of tasks, its order
 and its ownership must look like, told by indexes and paths.
 */
module TaskAccepted {
  import opened GraphPaths
  import opened TaskGraph
  import opened TaskPlan
  import opened TaskReady

  /** The order names every task once, and every dependency before whatever depends on it. */
  ghost predicate Sequenced(tasks: seq<Task>, order: seq<string>) {
    && |order| == |tasks|
    && (forall a, b | 0 <= a < b < |order| :: order[a] != order[b])
    && (forall i | 0 <= i < |tasks| :: tasks[i].id in order)
    && (forall i, d | 0 <= i < |tasks| && d in tasks[i].dependsOn :: Earlier(order, d, tasks[i].id))
  }

  ghost predicate Earlier(order: seq<string>, d: string, id: string) {
    exists a, b :: 0 <= a < b < |order| && order[a] == d && order[b] == id
  }

  /** No concrete path is mutable in one list and named in the other. */
  ghost predicate Apart(a: seq<string>, b: seq<string>) {
    forall path | Concrete(path) :: !(Owns(a, path) && Owns(b, path))
  }

  ghost predicate OwnedApart(o: Ownership) {
    && CleanList(o.mutable_) && CleanList(o.parentOwned) && CleanList(o.forbidden)
    && Apart(o.mutable_, o.parentOwned) && Apart(o.mutable_, o.forbidden)
  }

  /** Both tasks hold what they own, and they share a repository at one base commit. */
  ghost predicate Contend(a: Task, b: Task) {
    && a.state in ACTIVE && b.state in ACTIVE
    && exists p, q | p in a.projects && q in b.projects :: p.repository == q.repository && p.baseSHA == q.baseSHA
  }

  ghost predicate Planned(g: Graph) {
    && g.tasks != [] && Sequenced(g.tasks, g.order)
    && (forall i | 0 <= i < |g.tasks| :: g.tasks[i].id != "" && OwnedApart(g.tasks[i].ownership))
    && (forall i, j | 0 <= i < j < |g.tasks| :: g.tasks[i].id != g.tasks[j].id)
    && (forall i, j | 0 <= i < j < |g.tasks| && Contend(g.tasks[i], g.tasks[j]) ::
          Apart(g.tasks[i].ownership.mutable_, g.tasks[j].ownership.mutable_))
  }

  lemma ApartIff(a: seq<string>, b: seq<string>)
    requires CleanList(a) && CleanList(b)
    ensures Apart(a, b) <==> !Overlap(a, b)
  {
    hide CleanList, Owns, Overlap, Concrete;
    OverlapIffCommonPath(a, b);
  }

  lemma OwnedApartIff(o: Ownership)
    ensures OwnedApart(o) <==> ValidOwnership(o)
  {
    hide CleanList, Apart, Overlap;
    if CleanList(o.mutable_) && CleanList(o.parentOwned) && CleanList(o.forbidden) {
      ApartIff(o.mutable_, o.parentOwned);
      ApartIff(o.mutable_, o.forbidden);
    }
  }

  lemma CollideIff(a: Task, b: Task)
    requires ValidOwnership(a.ownership) && ValidOwnership(b.ownership)
    ensures Collide(a, b) <==> Contend(a, b) && !Apart(a.ownership.mutable_, b.ownership.mutable_)
  {
    hide CleanList, Apart, Overlap;
    ApartIff(a.ownership.mutable_, b.ownership.mutable_);
  }

  lemma EarlierIff(order: seq<string>, d: string, id: string)
    requires Distinct(order) && d in order && id in order
    ensures Earlier(order, d, id) <==> Slot(order, d) < Slot(order, id)
  {
    if Slot(order, d) < Slot(order, id) {
      assert order[Place(order, d)] == d && order[Place(order, id)] == id;
    }
  }

  lemma SequencedIsAccepted(tasks: seq<Task>, order: seq<string>)
    requires UniqueIds(tasks) && Sequenced(tasks, order)
    ensures OrderAccepted(tasks, order) && forall t | t in tasks :: DepsKnown(tasks, t)
  {
    hide ById, Slot, Earlier, UniqueIds;
    ByIdHolds(tasks);
    IdsSize(tasks);
    DistinctSize(order);
    var keys := ById(tasks).Keys;
    assert keys <= Elements(order);
    SubsetOfSize(keys, Elements(order));
    assert forall id | id in order :: id in Elements(order);
    forall t, d | t in tasks && d in t.dependsOn ensures Slot(order, d) < Slot(order, t.id) && d != t.id && d in ById(tasks) {
      var i :| 0 <= i < |tasks| && tasks[i] == t;
      assert Earlier(order, d, t.id);
      EarlierMembers(order, d, t.id);
      EarlierIff(order, d, t.id);
      assert d in Elements(order);
    }
  }

  lemma EarlierMembers(order: seq<string>, d: string, id: string)
    requires Earlier(order, d, id)
    ensures d in order && id in order
  {
  }

  lemma AcceptedIsSequenced(tasks: seq<Task>, order: seq<string>)
    requires UniqueIds(tasks) && |order| == |tasks| && OrderAccepted(tasks, order)
    requires forall t | t in tasks :: DepsKnown(tasks, t)
    ensures Sequenced(tasks, order)
  {
    hide ById, Slot, Earlier, UniqueIds;
    ByIdHolds(tasks);
    OrderIsTopological(tasks, order);
    assert forall id | id in ById(tasks) :: id in Elements(order);
    forall i, d | 0 <= i < |tasks| && d in tasks[i].dependsOn ensures Earlier(order, d, tasks[i].id) {
      var t := tasks[i];
      assert t in tasks && DepsKnown(tasks, t) && InOrder(order, t);
      EarlierIff(order, d, t.id);
    }
  }

  lemma {:induction false} OwnersIff(g: Graph)
    requires forall t | t in g.tasks :: ValidOwnership(t.ownership)
    ensures ActiveOwnershipAccepted(g.tasks) <==>
            forall i, j | 0 <= i < j < |g.tasks| && Contend(g.tasks[i], g.tasks[j]) ::
              Apart(g.tasks[i].ownership.mutable_, g.tasks[j].ownership.mutable_)
  {
    hide ValidOwnership, Collide, Contend, Apart;
    forall i, j | 0 <= i < j < |g.tasks|
      ensures Collide(g.tasks[i], g.tasks[j]) <==>
              Contend(g.tasks[i], g.tasks[j]) && !Apart(g.tasks[i].ownership.mutable_, g.tasks[j].ownership.mutable_)
    {
      CollideIff(g.tasks[i], g.tasks[j]);
    }
  }

  /** A graph is accepted exactly when it is planned: the cycle search rejects nothing the order does not. */
  lemma AcceptedIff(g: Graph)
    ensures ValidGraph(g) <==> Planned(g)
  {
    hide OwnedApart, ValidOwnership, Sequenced, OrderAccepted, DepsKnown, Cyclic, ActiveOwnershipAccepted, Contend, Apart, ById;
    forall t: Task ensures OwnedApart(t.ownership) <==> ValidOwnership(t.ownership) {
      OwnedApartIff(t.ownership);
    }
    if ValidGraph(g) {
      AcceptedIsSequenced(g.tasks, g.order);
      OwnersIff(g);
    }
    if Planned(g) {
      assert forall t | t in g.tasks :: t.id != "" && ValidOwnership(t.ownership);
      SequencedIsAccepted(g.tasks, g.order);
      assert |g.order| == |g.tasks| by {
        SameLength(g.tasks, g.order);
      }
      OrderedMeansAcyclic(g.tasks, g.order);
      OwnersIff(g);
    }
  }

  lemma SameLength(tasks: seq<Task>, order: seq<string>)
    requires Sequenced(tasks, order)
    ensures |order| == |tasks|
  {
  }
}
