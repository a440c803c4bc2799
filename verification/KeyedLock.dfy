/**
 The reference-counted keyed lock.  Every access to the table and to the counts
 happens in one of four sections: registering and unregistering run under the
 table's mutex, taking and leaving an entry's own mutex are atomic by themselves.
 Threads interleave between sections in any order.
 */
module KeyedLock {

  datatype Entry = Entry(refs: int, locked: bool)

  datatype Thread =
    | Idle
    | Waiting(key: string, entry: nat)
    | Holding(key: string, entry: nat)
    | Released(key: string, entry: nat)

  /** Entries are numbered as they are allocated and never reused; the table maps keys to live ones. */
  datatype State = State(locks: map<string, nat>, entries: seq<Entry>, threads: map<nat, Thread>)

  const Empty: State := State(map[], [], map[])

  function ThreadOf(s: State, t: nat): Thread {
    if t in s.threads then s.threads[t] else Idle
  }

  datatype Section =
    | Register(thread: nat, key: string)
    | Acquire(thread: nat)
    | Unlock(thread: nat)
    | Unregister(thread: nat)

  function EntryFor(s: State, key: string): nat {
    if key in s.locks then s.locks[key] else |s.entries|
  }

  function DoRegister(s: State, t: nat, key: string): State {
    if !ThreadOf(s, t).Idle? then s
    else
      var e := EntryFor(s, key);
      var entries := if key in s.locks then s.entries else s.entries + [Entry(0, false)];
      if e >= |entries| then s
      else State(s.locks[key := e], entries[e := entries[e].(refs := entries[e].refs + 1)], s.threads[t := Waiting(key, e)])
  }

  /** Enabled only while the entry's mutex is free; otherwise the thread stays blocked. */
  function DoAcquire(s: State, t: nat): State {
    match ThreadOf(s, t)
    case Waiting(key, e) =>
      if e < |s.entries| && !s.entries[e].locked then
        s.(entries := s.entries[e := s.entries[e].(locked := true)], threads := s.threads[t := Holding(key, e)])
      else s
    case _ => s
  }

  function DoUnlock(s: State, t: nat): State {
    match ThreadOf(s, t)
    case Holding(key, e) =>
      if e < |s.entries| then
        s.(entries := s.entries[e := s.entries[e].(locked := false)], threads := s.threads[t := Released(key, e)])
      else s
    case _ => s
  }

  function DoUnregister(s: State, t: nat): State {
    match ThreadOf(s, t)
    case Released(key, e) =>
      if e < |s.entries| then
        var refs := s.entries[e].refs - 1;
        State(if refs == 0 then s.locks - {key} else s.locks, s.entries[e := s.entries[e].(refs := refs)], s.threads[t := Idle])
      else s
    case _ => s
  }

  function Next(s: State, section: Section): State {
    match section
    case Register(t, key) => DoRegister(s, t, key)
    case Acquire(t) => DoAcquire(s, t)
    case Unlock(t) => DoUnlock(s, t)
    case Unregister(t) => DoUnregister(s, t)
  }

  function Run(sections: seq<Section>): State {
    if sections == [] then Empty else Next(Run(sections[..|sections| - 1]), sections[|sections| - 1])
  }

  // The invariant

  function Users(threads: map<nat, Thread>, e: nat): set<nat> {
    set t | t in threads && !threads[t].Idle? && threads[t].entry == e
  }

  function Holders(threads: map<nat, Thread>, e: nat): set<nat> {
    set t | t in threads && threads[t].Holding? && threads[t].entry == e
  }

  ghost predicate TableInv(s: State) {
    && (forall key | key in s.locks :: s.locks[key] < |s.entries| && s.entries[s.locks[key]].refs > 0)
    && (forall j, k | j in s.locks && k in s.locks && j != k :: s.locks[j] != s.locks[k])
    && (forall t | t in s.threads && !s.threads[t].Idle? ::
          s.threads[t].key in s.locks && s.locks[s.threads[t].key] == s.threads[t].entry)
  }

  /** Counts are exact. */
  ghost predicate CountInv(s: State) {
    forall e | 0 <= e < |s.entries| ::
      && s.entries[e].refs == |Users(s.threads, e)|
      && |Holders(s.threads, e)| == (if s.entries[e].locked then 1 else 0)
  }

  ghost predicate Inv(s: State) { TableInv(s) && CountInv(s) }

  function One(b: bool): nat { if b then 1 else 0 }

  predicate At(t: Thread, e: nat) { !t.Idle? && t.entry == e }

  predicate HoldsAt(t: Thread, e: nat) { t.Holding? && t.entry == e }

  /** What one thread's move does to the number of users of an entry. */
  lemma UsersAfter(s: State, t: nat, after: Thread, e: nat)
    ensures |Users(s.threads[t := after], e)| == |Users(s.threads, e)| - One(At(ThreadOf(s, t), e)) + One(At(after, e))
  {
    var a, b := Users(s.threads, e), Users(s.threads[t := after], e);
    assert a - {t} == b - {t};
    Split(a, t);
    Split(b, t);
  }

  lemma HoldersAfter(s: State, t: nat, after: Thread, e: nat)
    ensures |Holders(s.threads[t := after], e)| ==
            |Holders(s.threads, e)| - One(HoldsAt(ThreadOf(s, t), e)) + One(HoldsAt(after, e))
  {
    var a, b := Holders(s.threads, e), Holders(s.threads[t := after], e);
    assert a - {t} == b - {t};
    Split(a, t);
    Split(b, t);
  }

  lemma Split(s: set<nat>, t: nat)
    ensures |s| == |s - {t}| + One(t in s)
  {
    if t in s {
      assert s == (s - {t}) + {t};
    } else {
      assert s == s - {t};
    }
  }

  lemma {:induction false} NoUsersBeyond(s: State, e: nat)
    requires TableInv(s) && e >= |s.entries|
    ensures |Users(s.threads, e)| == 0 && |Holders(s.threads, e)| == 0
  {
    assert Users(s.threads, e) == {};
    assert Holders(s.threads, e) == {};
  }

  /** A change that keeps each entry's counts in step with one thread's move keeps them exact. */
  lemma MoveKeepsCounts(s: State, next: State, t: nat, after: Thread)
    requires CountInv(s) && next.threads == s.threads[t := after] && |s.entries| <= |next.entries|
    requires forall e | |s.entries| <= e < |next.entries| :: |Users(s.threads, e)| == 0 && |Holders(s.threads, e)| == 0
    requires forall e | 0 <= e < |next.entries| ::
               var was := if e < |s.entries| then s.entries[e] else Entry(0, false);
               && next.entries[e].refs == was.refs - One(At(ThreadOf(s, t), e)) + One(At(after, e))
               && One(next.entries[e].locked) == One(was.locked) - One(HoldsAt(ThreadOf(s, t), e)) + One(HoldsAt(after, e))
    ensures CountInv(next)
  {
    hide Users, Holders, At, HoldsAt;
    forall e | 0 <= e < |next.entries|
      ensures next.entries[e].refs == |Users(next.threads, e)|
              && |Holders(next.threads, e)| == (if next.entries[e].locked then 1 else 0)
    {
      UsersAfter(s, t, after, e);
      HoldersAfter(s, t, after, e);
    }
  }

  lemma RegisterKeeps(s: State, t: nat, key: string)
    requires Inv(s)
    ensures Inv(DoRegister(s, t, key))
  {
    hide Users, Holders, CountInv;
    if ThreadOf(s, t).Idle? {
      var next, e := DoRegister(s, t, key), EntryFor(s, key);
      TableReadable(s, key);
      hide TableInv;
      NoUsersBeyond(s, |s.entries|);
      MoveKeepsCounts(s, next, t, Waiting(key, e));
      RegisterKeepsTable(s, t, key);
    }
  }

  lemma RegisterKeepsTable(s: State, t: nat, key: string)
    requires Inv(s) && ThreadOf(s, t).Idle?
    ensures TableInv(DoRegister(s, t, key))
  {
    hide Users, Holders, CountInv;
    CountsReadable(s);
  }

  lemma TableReadable(s: State, key: string)
    requires TableInv(s)
    ensures key in s.locks ==> s.locks[key] < |s.entries|
  {
  }

  lemma CountsReadable(s: State)
    requires CountInv(s)
    ensures forall e | 0 <= e < |s.entries| :: s.entries[e].refs >= 0
  {
  }

  /** A thread that holds an entry finds it locked. */
  lemma HeldIsLocked(s: State, t: nat)
    requires Inv(s) && ThreadOf(s, t).Holding?
    ensures ThreadOf(s, t).entry < |s.entries| && s.entries[ThreadOf(s, t).entry].locked
  {
    assert t in Holders(s.threads, ThreadOf(s, t).entry);
  }

  lemma AcquireKeeps(s: State, t: nat)
    requires Inv(s)
    ensures Inv(DoAcquire(s, t))
  {
    hide Users, Holders, CountInv;
    var before, next := ThreadOf(s, t), DoAcquire(s, t);
    if before.Waiting? && before.entry < |s.entries| && !s.entries[before.entry].locked {
      MoveKeepsCounts(s, next, t, Holding(before.key, before.entry));
    }
  }

  lemma UnlockKeeps(s: State, t: nat)
    requires Inv(s)
    ensures Inv(DoUnlock(s, t))
  {
    hide Users, Holders, CountInv;
    var before, next := ThreadOf(s, t), DoUnlock(s, t);
    if before.Holding? {
      HeldIsLocked(s, t);
      MoveKeepsCounts(s, next, t, Released(before.key, before.entry));
    }
  }

  /** The last user of an entry is its only one. */
  lemma LastUser(s: State, t: nat, u: nat)
    requires Inv(s) && !ThreadOf(s, t).Idle? && ThreadOf(s, t).entry < |s.entries|
    requires s.entries[ThreadOf(s, t).entry].refs == 1 && At(ThreadOf(s, u), ThreadOf(s, t).entry)
    ensures t == u
  {
    var users := Users(s.threads, ThreadOf(s, t).entry);
    assert t in users && u in users && |users| == 1;
    if t != u {
      Split(users, t);
      Split(users - {t}, u);
    }
  }

  lemma UnregisterKeeps(s: State, t: nat)
    requires Inv(s)
    ensures Inv(DoUnregister(s, t))
  {
    hide Users, Holders, CountInv;
    var before, next := ThreadOf(s, t), DoUnregister(s, t);
    if before.Released? {
      MoveKeepsCounts(s, next, t, Idle);
      UnregisterKeepsTable(s, t);
    }
  }

  lemma UnregisterKeepsTable(s: State, t: nat)
    requires Inv(s) && ThreadOf(s, t).Released?
    ensures TableInv(DoUnregister(s, t))
  {
    hide Users, Holders, CountInv;
    var before, next := ThreadOf(s, t), DoUnregister(s, t);
    forall u | u in next.threads && !next.threads[u].Idle?
      ensures next.threads[u].key in next.locks && next.locks[next.threads[u].key] == next.threads[u].entry
    {
      if s.entries[before.entry].refs == 1 && next.threads[u].key == before.key {
        LastUser(s, t, u);
      }
    }
  }

  lemma {:induction false} RunKeepsInv(sections: seq<Section>)
    ensures Inv(Run(sections))
  {
    hide Inv;
    if sections == [] {
      EmptyInv();
    } else {
      var s := Run(sections[..|sections| - 1]);
      RunKeepsInv(sections[..|sections| - 1]);
      match sections[|sections| - 1]
      case Register(t, key) => RegisterKeeps(s, t, key);
      case Acquire(t) => AcquireKeeps(s, t);
      case Unlock(t) => UnlockKeeps(s, t);
      case Unregister(t) => UnregisterKeeps(s, t);
    }
  }

  lemma EmptyInv()
    ensures Inv(Empty)
  {
  }

  // What the lock promises, for any number of threads and keys and any interleaving

  predicate Uses(t: Thread, key: string) { !t.Idle? && t.key == key }

  /** At most one thread holds a key, though entries come and go. */
  lemma MutualExclusion(sections: seq<Section>, t: nat, u: nat, key: string)
    requires ThreadOf(Run(sections), t).Holding? && ThreadOf(Run(sections), t).key == key
    requires ThreadOf(Run(sections), u).Holding? && ThreadOf(Run(sections), u).key == key
    ensures t == u
  {
    hide Run;
    RunKeepsInv(sections);
    var s := Run(sections);
    var e := s.locks[key];
    var holders := Holders(s.threads, e);
    assert t in holders && u in holders && |holders| <= 1;
    if t != u {
      Split(holders, t);
      Split(holders - {t}, u);
    }
  }

  /** A key has an entry exactly while some thread uses it, and the entry's count is the number of such threads. */
  lemma EntriesMatchUse(sections: seq<Section>, key: string)
    ensures var s := Run(sections);
            var using := set t | t in s.threads && Uses(s.threads[t], key);
            && (key in s.locks <==> using != {})
            && (key in s.locks ==> s.locks[key] < |s.entries| && s.entries[s.locks[key]].refs == |using|)
  {
    hide Run;
    RunKeepsInv(sections);
    var s := Run(sections);
    var using := set t | t in s.threads && Uses(s.threads[t], key);
    if key in s.locks {
      assert using == Users(s.threads, s.locks[key]);
      assert |using| > 0;
    } else {
      assert using == {};
    }
  }

  /** When every thread is idle the table is empty again. */
  lemma IdleLeavesNothing(sections: seq<Section>)
    requires forall t :: ThreadOf(Run(sections), t).Idle?
    ensures Run(sections).locks == map[]
  {
    hide Run;
    RunKeepsInv(sections);
    var s := Run(sections);
    forall t | t in s.threads ensures s.threads[t].Idle? {
      assert ThreadOf(s, t).Idle?;
    }
    assert forall e :: Users(s.threads, e) == {};
    assert s.locks.Keys == {};
  }

  /** A waiting thread is blocked exactly while another thread holds its key. */
  lemma BlockedIffHeld(sections: seq<Section>, t: nat)
    requires ThreadOf(Run(sections), t).Waiting?
    ensures var s := Run(sections);
            Next(s, Acquire(t)) != s <==> forall u :: !(ThreadOf(s, u).Holding? && ThreadOf(s, u).key == ThreadOf(s, t).key)
  {
    hide Run;
    RunKeepsInv(sections);
    var s := Run(sections);
    var key, e := ThreadOf(s, t).key, ThreadOf(s, t).entry;
    if s.entries[e].locked {
      assert |Holders(s.threads, e)| == 1;
      var u :| u in Holders(s.threads, e);
      assert ThreadOf(s, u).Holding? && ThreadOf(s, u).key == key;
    } else {
      assert Holders(s.threads, e) == {};
      assert forall u | ThreadOf(s, u).Holding? :: u in Holders(s.threads, ThreadOf(s, u).entry);
      assert ThreadOf(Next(s, Acquire(t)), t).Holding?;
    }
  }

  // The object

  /** The table with its entries; each method is one section, run in place. */
  class LockTable {
    var locks: map<string, nat>
    var entries: seq<Entry>
    ghost var threads: map<nat, Thread>

    constructor ()
      ensures Valid() && Now() == Empty
    {
      locks, entries, threads := map[], [], map[];
      new;
      EmptyInv();
    }

    ghost function Now(): State
      reads this
    {
      State(locks, entries, threads)
    }

    ghost predicate Valid()
      reads this
    {
      Inv(Now())
    }

    /** The first half of lock: find or make the key's entry and count this thread in. */
    method BeginLock(t: nat, key: string) returns (entry: nat)
      requires Valid() && ThreadOf(Now(), t).Idle?
      modifies this
      ensures Valid() && Now() == Next(old(Now()), Register(t, key))
      ensures ThreadOf(Now(), t) == Waiting(key, entry)
    {
      hide Inv;
      RegisterKeeps(Now(), t, key);
      TableInRange(Now(), key);
      if key in locks {
        entry := locks[key];
      } else {
        entry := |entries|;
        entries := entries + [Entry(0, false)];
        locks := locks[key := entry];
      }
      entries := entries[entry := entries[entry].(refs := entries[entry].refs + 1)];
      threads := threads[t := Waiting(key, entry)];
      assert locks == old(locks)[key := entry];
    }

    /** Taking the entry's mutex, when it is free. */
    method TakeMutex(t: nat, entry: nat) returns (taken: bool)
      requires Valid() && ThreadOf(Now(), t).Waiting? && ThreadOf(Now(), t).entry == entry
      modifies this
      ensures Valid() && Now() == Next(old(Now()), Acquire(t))
      ensures taken <==> forall u :: !(ThreadOf(old(Now()), u).Holding? && ThreadOf(old(Now()), u).entry == entry)
      ensures taken ==> ThreadOf(Now(), t) == Holding(ThreadOf(old(Now()), t).key, entry)
    {
      hide Inv;
      AcquireKeeps(Now(), t);
      UsedInRange(Now(), t);
      LockedIffHeld(Now(), entry);
      taken := !entries[entry].locked;
      if taken {
        entries := entries[entry := entries[entry].(locked := true)];
        threads := threads[t := Holding(ThreadOf(Now(), t).key, entry)];
      }
    }

    /** The returned unlock function, first half. */
    method LeaveMutex(t: nat, entry: nat)
      requires Valid() && ThreadOf(Now(), t).Holding? && ThreadOf(Now(), t).entry == entry
      modifies this
      ensures Valid() && Now() == Next(old(Now()), Unlock(t))
    {
      hide Inv;
      UnlockKeeps(Now(), t);
      UsedInRange(Now(), t);
      entries := entries[entry := entries[entry].(locked := false)];
      threads := threads[t := Released(ThreadOf(Now(), t).key, entry)];
    }

    /** The returned unlock function, second half: count out, and drop the entry when nobody is left. */
    method EndLock(t: nat, key: string, entry: nat)
      requires Valid() && ThreadOf(Now(), t) == Released(key, entry)
      modifies this
      ensures Valid() && Now() == Next(old(Now()), Unregister(t))
    {
      hide Inv;
      UnregisterKeeps(Now(), t);
      UsedInRange(Now(), t);
      entries := entries[entry := entries[entry].(refs := entries[entry].refs - 1)];
      if entries[entry].refs == 0 {
        locks := locks - {key};
      }
      threads := threads[t := Idle];
    }
  }

  lemma TableInRange(s: State, key: string)
    requires Inv(s)
    ensures key in s.locks ==> s.locks[key] < |s.entries|
  {
  }

  lemma UsedInRange(s: State, t: nat)
    requires Inv(s) && !ThreadOf(s, t).Idle?
    ensures ThreadOf(s, t).entry < |s.entries|
  {
  }

  lemma LockedIffHeld(s: State, e: nat)
    requires Inv(s) && e < |s.entries|
    ensures s.entries[e].locked <==> exists u :: ThreadOf(s, u).Holding? && ThreadOf(s, u).entry == e
  {
    if s.entries[e].locked {
      assert |Holders(s.threads, e)| == 1;
      var u :| u in Holders(s.threads, e);
      assert ThreadOf(s, u).Holding?;
    } else {
      assert Holders(s.threads, e) == {};
      assert forall u | ThreadOf(s, u).Holding? :: u in Holders(s.threads, ThreadOf(s, u).entry);
    }
  }
}
