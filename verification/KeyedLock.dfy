/**
 The reference-counted per-key lock. Every statement of `Lock` and of the unlock closure
 that touches shared memory is one step; any number of threads interleave their steps.
 A lock object is a value of type `R`; the class below instantiates `R` with heap objects.
 */
module KeyedLockProtocol {
  import opened Basics

  type Thread = nat

  /** One `lockRef`: its reference counter and the state of its own mutex. */
  datatype Cell = Cell(refs: int, locked: bool)

  /** Where a thread stands inside `Lock` or inside the unlock closure. */
  datatype Phase<R> =
    | Entering(key: string)           // called, waits for the manager mutex
    | Looking(key: string)            // owns the manager mutex
    | Found(key: string, ref: R)      // owns it, has its lock object
    | Counted(key: string, ref: R)    // owns it, has been counted
    | Waiting(key: string, ref: R)    // waits for the lock object's mutex
    | Critical(key: string, ref: R)   // inside the caller's critical section
    | Leaving(key: string, ref: R)    // gave the lock object back, waits for the manager mutex
    | Uncounting(key: string, ref: R) // owns the manager mutex again
    | Uncounted(key: string, ref: R)  // owns it, is no longer counted
    | Swept(key: string, ref: R)      // owns it, has removed an unused entry
  {
    predicate OwnsManager() {
      Looking? || Found? || Counted? || Uncounting? || Uncounted? || Swept?
    }

    predicate IsCounted() {
      Counted? || Waiting? || Critical? || Leaving? || Uncounting?
    }

    predicate IsLinked() {
      Found? || IsCounted() || Uncounted?
    }

    /** Steps this thread still has to take before it has left. */
    function Remaining(): nat {
      match this
      case Entering(_) => 10
      case Looking(_) => 9
      case Found(_, _) => 8
      case Counted(_, _) => 7
      case Waiting(_, _) => 6
      case Critical(_, _) => 5
      case Leaving(_, _) => 4
      case Uncounting(_, _) => 3
      case Uncounted(_, _) => 2
      case Swept(_, _) => 1
    }
  }

  /** A thread that is not in `threads` is outside the lock. */
  datatype State<R(==)> = State(
    manager: Option<Thread>,
    items: map<string, R>,
    cells: map<R, Cell>,
    threads: map<Thread, Phase<R>>)

  datatype Step<R> =
    | Call(t: Thread, key: string)
    | LockManager(t: Thread)
    | Find(t: Thread, spare: R)
    | Count(t: Thread)
    | UnlockManager(t: Thread)
    | Take(t: Thread)
    | Release(t: Thread)
    | RelockManager(t: Thread)
    | Uncount(t: Thread)
    | Sweep(t: Thread)
    | Finish(t: Thread)

  predicate Enabled<R(==)>(s: State<R>, a: Step<R>) {
    if a.Call? then a.t !in s.threads
    else
      && a.t in s.threads
      && var p := s.threads[a.t];
      match a
      case LockManager(_) => p.Entering? && s.manager.None?
      case Find(_, spare) => p.Looking? && (p.key in s.items || spare !in s.cells)
      case Count(_) => p.Found? && p.ref in s.cells
      case UnlockManager(_) => p.Counted?
      case Take(_) => p.Waiting? && p.ref in s.cells && !s.cells[p.ref].locked
      case Release(_) => p.Critical? && p.ref in s.cells
      case RelockManager(_) => p.Leaving? && s.manager.None?
      case Uncount(_) => p.Uncounting? && p.ref in s.cells
      case Sweep(_) => p.Uncounted? && p.ref in s.cells
      case Finish(_) => p.Swept?
  }

  function Apply<R(==)>(s: State<R>, a: Step<R>): State<R>
    requires Enabled(s, a)
  {
    if a.Call? then s.(threads := s.threads[a.t := Entering(a.key)])
    else
      var p := s.threads[a.t];
      match a
      case LockManager(t) =>
        s.(manager := Some(t), threads := s.threads[t := Looking(p.key)])
      case Find(t, spare) =>
        if p.key in s.items then s.(threads := s.threads[t := Found(p.key, s.items[p.key])])
        else s.(items := s.items[p.key := spare],
                cells := s.cells[spare := Cell(0, false)],
                threads := s.threads[t := Found(p.key, spare)])
      case Count(t) =>
        s.(cells := s.cells[p.ref := s.cells[p.ref].(refs := s.cells[p.ref].refs + 1)],
           threads := s.threads[t := Counted(p.key, p.ref)])
      case UnlockManager(t) =>
        s.(manager := None, threads := s.threads[t := Waiting(p.key, p.ref)])
      case Take(t) =>
        s.(cells := s.cells[p.ref := s.cells[p.ref].(locked := true)],
           threads := s.threads[t := Critical(p.key, p.ref)])
      case Release(t) =>
        s.(cells := s.cells[p.ref := s.cells[p.ref].(locked := false)],
           threads := s.threads[t := Leaving(p.key, p.ref)])
      case RelockManager(t) =>
        s.(manager := Some(t), threads := s.threads[t := Uncounting(p.key, p.ref)])
      case Uncount(t) =>
        s.(cells := s.cells[p.ref := s.cells[p.ref].(refs := s.cells[p.ref].refs - 1)],
           threads := s.threads[t := Uncounted(p.key, p.ref)])
      case Sweep(t) =>
        s.(items := if s.cells[p.ref].refs == 0 then s.items - {p.key} else s.items,
           threads := s.threads[t := Swept(p.key, p.ref)])
      case Finish(t) =>
        s.(manager := None, threads := s.threads - {t})
  }

  ghost predicate Moves<R>(s: State<R>, a: Step<R>, s': State<R>) {
    Enabled(s, a) && s' == Apply(s, a)
  }

  /** The threads counted by lock object `r`. */
  ghost function Users<R>(s: State<R>, r: R): set<Thread> {
    set t | t in s.threads && s.threads[t].IsCounted() && s.threads[t].ref == r
  }

  // ----- the inductive invariant -----

  /** The manager mutex is owned by exactly the thread that is inside one of its two sections. */
  ghost predicate ManagerInv<R>(s: State<R>) {
    && (s.manager.Some? ==> s.manager.value in s.threads && s.threads[s.manager.value].OwnsManager())
    && (forall t :: t in s.threads && s.threads[t].OwnsManager() ==> s.manager == Some(t))
  }

  ghost predicate LinkedAt<R>(s: State<R>, t: Thread) {
    t in s.threads && s.threads[t].IsLinked() ==>
      && s.threads[t].key in s.items
      && s.items[s.threads[t].key] == s.threads[t].ref
  }

  ghost predicate LinkInv<R>(s: State<R>) {
    forall t :: LinkedAt(s, t)
  }

  /** Different keys never share a lock object. */
  ghost predicate ItemsInv<R>(s: State<R>) {
    && (forall k :: k in s.items ==> s.items[k] in s.cells)
    && (forall k, l :: k in s.items && l in s.items && s.items[k] == s.items[l] ==> k == l)
  }

  ghost predicate CountInv<R>(s: State<R>) {
    forall r :: r in s.cells ==> s.cells[r].refs == |Users(s, r)|
  }

  ghost predicate InCritical<R>(s: State<R>, t: Thread, r: R) {
    t in s.threads && s.threads[t].Critical? && s.threads[t].ref == r
  }

  ghost predicate ExclusiveInv<R>(s: State<R>) {
    forall r, t, u :: r in s.cells && InCritical(s, t, r) && InCritical(s, u, r) ==> t == u
  }

  /** A lock object's own mutex is locked exactly while some thread is in its critical section. */
  ghost predicate MutexInv<R>(s: State<R>) {
    && (forall r, t :: r in s.cells && InCritical(s, t, r) ==> s.cells[r].locked)
    && (forall r :: r in s.cells && s.cells[r].locked ==> exists t :: InCritical(s, t, r))
  }

  ghost predicate OwnedEntry<R>(s: State<R>, k: string) {
    && s.manager.Some?
    && s.manager.value in s.threads
    && var p := s.threads[s.manager.value];
    (p.Found? || p.Uncounted?) && p.key == k
  }

  /** An entry nobody is counted on is being created or removed by the manager's current owner. */
  ghost predicate EntryInv<R>(s: State<R>) {
    forall k :: k in s.items && s.items[k] in s.cells && s.cells[s.items[k]].refs == 0 ==> OwnedEntry(s, k)
  }

  ghost predicate Inv<R>(s: State<R>) {
    && ManagerInv(s) && LinkInv(s) && ItemsInv(s) && CountInv(s)
    && ExclusiveInv(s) && MutexInv(s) && EntryInv(s)
  }

  function Start<R(==)>(): State<R> {
    State(None, map[], map[], map[])
  }

  lemma UsersAfter<R>(s: State<R>, a: Step<R>, r: R)
    requires Enabled(s, a)
    ensures var s' := Apply(s, a);
      Users(s', r) ==
        if a.Count? && s.threads[a.t].ref == r then Users(s, r) + {a.t}
        else if a.Uncount? && s.threads[a.t].ref == r then Users(s, r) - {a.t}
        else Users(s, r)
  {
  }

  lemma NoUsers<R>(s: State<R>, r: R, t: Thread)
    requires CountInv(s) && r in s.cells && s.cells[r].refs == 0
    ensures t in s.threads && s.threads[t].IsCounted() ==> s.threads[t].ref != r
  {
    assert t !in Users(s, r);
  }

  lemma CountStep<R>(s: State<R>, a: Step<R>)
    requires Inv(s) && Enabled(s, a)
    ensures CountInv(Apply(s, a))
  {
    var s' := Apply(s, a);
    forall r | r in s'.cells
      ensures s'.cells[r].refs == |Users(s', r)|
    {
      UsersAfter(s, a, r);
      if a.Find? && r !in s.cells {
        forall t ensures t !in Users(s, r) {
          assert LinkedAt(s, t);
        }
        assert Users(s, r) == {};
      }
    }
  }

  lemma ManagerStep<R>(s: State<R>, a: Step<R>)
    requires Inv(s) && Enabled(s, a)
    ensures ManagerInv(Apply(s, a))
  {
  }

  lemma LinkedStep<R>(s: State<R>, a: Step<R>, t: Thread)
    requires Inv(s) && Enabled(s, a)
    ensures LinkedAt(Apply(s, a), t)
  {
    assert LinkedAt(s, t);
    if !a.Call? {
      assert LinkedAt(s, a.t);
      if a.Sweep? && s.cells[s.threads[a.t].ref].refs == 0 {
        NoUsers(s, s.threads[a.t].ref, t);
      }
    }
  }

  lemma ItemsStep<R>(s: State<R>, a: Step<R>)
    requires Inv(s) && Enabled(s, a)
    ensures ItemsInv(Apply(s, a))
  {
  }

  lemma CriticalAfter<R>(s: State<R>, a: Step<R>, t: Thread, r: R)
    requires Inv(s) && Enabled(s, a)
    ensures InCritical(Apply(s, a), t, r) <==>
      if a.Take? && a.t == t then s.threads[t].ref == r
      else InCritical(s, t, r) && !(a.Release? && a.t == t)
  {
  }

  lemma ExclusiveStep<R>(s: State<R>, a: Step<R>)
    requires Inv(s) && Enabled(s, a)
    ensures ExclusiveInv(Apply(s, a))
  {
    forall r, t, u | r in Apply(s, a).cells && InCritical(Apply(s, a), t, r) && InCritical(Apply(s, a), u, r)
      ensures t == u
    {
      CriticalAfter(s, a, t, r);
      CriticalAfter(s, a, u, r);
      assert LinkedAt(s, t) && LinkedAt(s, u);
    }
  }

  lemma MutexStep<R>(s: State<R>, a: Step<R>)
    requires Inv(s) && Enabled(s, a)
    ensures MutexInv(Apply(s, a))
  {
    var s' := Apply(s, a);
    forall r, t | r in s'.cells && InCritical(s', t, r)
      ensures s'.cells[r].locked
    {
      CriticalAfter(s, a, t, r);
      assert LinkedAt(s, t);
      if a.Release? && s.threads[a.t].ref == r {
        assert InCritical(s, a.t, r);
      }
    }
    forall r | r in s'.cells && s'.cells[r].locked
      ensures exists t :: InCritical(s', t, r)
    {
      if a.Take? && s.threads[a.t].ref == r {
        assert InCritical(s', a.t, r);
      } else {
        var t :| InCritical(s, t, r);
        CriticalAfter(s, a, t, r);
      }
    }
  }

  lemma EntryStep<R>(s: State<R>, a: Step<R>)
    requires Inv(s) && Enabled(s, a)
    ensures EntryInv(Apply(s, a))
  {
    var s' := Apply(s, a);
    forall k | k in s'.items && s'.items[k] in s'.cells && s'.cells[s'.items[k]].refs == 0
      ensures OwnedEntry(s', k)
    {
      if !a.Call? {
        assert LinkedAt(s, a.t);
        CountStep(s, a);
        NoUsers(s', s'.items[k], a.t);
      }
    }
  }

  /** Every step of every thread keeps the invariant. */
  lemma InvStep<R>(s: State<R>, a: Step<R>)
    requires Inv(s) && Enabled(s, a)
    ensures Inv(Apply(s, a))
  {
    ManagerStep(s, a);
    forall t ensures LinkedAt(Apply(s, a), t) {
      LinkedStep(s, a, t);
    }
    ItemsStep(s, a);
    CountStep(s, a);
    ExclusiveStep(s, a);
    MutexStep(s, a);
    EntryStep(s, a);
  }

  // ----- whole runs -----

  ghost predicate CanRun<R>(s: State<R>, steps: seq<Step<R>>)
    decreases |steps|
  {
    steps == [] || (Enabled(s, steps[0]) && CanRun(Apply(s, steps[0]), steps[1..]))
  }

  ghost function After<R>(s: State<R>, steps: seq<Step<R>>): State<R>
    requires CanRun(s, steps)
    decreases |steps|
  {
    if steps == [] then s else After(Apply(s, steps[0]), steps[1..])
  }

  /** The threads of key `k` that the source counts as holders, waiters or leavers. */
  ghost function UsersOfKey<R>(s: State<R>, k: string): set<Thread> {
    set t | t in s.threads && s.threads[t].IsCounted() && s.threads[t].key == k
  }

  /** What a caller of the lock relies on, stated per key. */
  ghost predicate Safe<R>(s: State<R>) {
    && (forall t, u :: t in s.threads && u in s.threads && s.threads[t].Critical? && s.threads[u].Critical? ==>
          (s.threads[t].key == s.threads[u].key ==> t == u))
    && (forall t :: t in s.threads && s.threads[t].IsCounted() ==>
          && s.threads[t].key in s.items
          && s.items[s.threads[t].key] == s.threads[t].ref)
    && (forall k :: k in s.items ==>
          && s.items[k] in s.cells
          && s.cells[s.items[k]].refs == |UsersOfKey(s, k)|)
    && (forall t :: (t in s.threads && s.threads[t].Waiting? && s.threads[t].ref in s.cells
                     && s.cells[s.threads[t].ref].locked) ==>
            exists u :: u in s.threads && s.threads[u].Critical? && s.threads[u].key == s.threads[t].key)
    && (s.threads == map[] ==> s.items == map[])
  }

  lemma LinkedSameKey<R>(s: State<R>, t: Thread, u: Thread)
    requires LinkInv(s) && ItemsInv(s) && t in s.threads && u in s.threads
    requires s.threads[t].IsLinked() && s.threads[u].IsLinked()
    ensures s.threads[t].ref in s.cells
    ensures s.threads[t].key == s.threads[u].key <==> s.threads[t].ref == s.threads[u].ref
  {
    assert LinkedAt(s, t) && LinkedAt(s, u);
  }

  lemma KeyCount<R>(s: State<R>, k: string)
    requires Inv(s) && k in s.items
    ensures s.items[k] in s.cells && s.cells[s.items[k]].refs == |UsersOfKey(s, k)|
  {
    forall t ensures t in UsersOfKey(s, k) <==> t in Users(s, s.items[k]) {
      assert LinkedAt(s, t);
    }
    assert UsersOfKey(s, k) == Users(s, s.items[k]);
  }

  lemma EmptyWhenAllLeft<R>(s: State<R>)
    requires Inv(s) && s.threads == map[]
    ensures s.items == map[]
  {
    if k :| k in s.items {
      KeyCount(s, k);
      assert false;
    }
  }

  lemma InvIsSafe<R>(s: State<R>)
    requires Inv(s)
    ensures Safe(s)
  {
    forall t, u | t in s.threads && u in s.threads && s.threads[t].Critical? && s.threads[u].Critical?
        && s.threads[t].key == s.threads[u].key
      ensures t == u
    {
      LinkedSameKey(s, t, u);
      assert InCritical(s, t, s.threads[t].ref) && InCritical(s, u, s.threads[t].ref);
    }
    forall t | t in s.threads && s.threads[t].IsCounted()
      ensures s.threads[t].key in s.items && s.items[s.threads[t].key] == s.threads[t].ref
    {
      assert LinkedAt(s, t);
    }
    forall k | k in s.items ensures s.items[k] in s.cells && s.cells[s.items[k]].refs == |UsersOfKey(s, k)| {
      KeyCount(s, k);
    }
    forall t | t in s.threads && s.threads[t].Waiting? && s.threads[t].ref in s.cells
        && s.cells[s.threads[t].ref].locked
      ensures exists u :: u in s.threads && s.threads[u].Critical? && s.threads[u].key == s.threads[t].key
    {
      var u :| InCritical(s, u, s.threads[t].ref);
      LinkedSameKey(s, t, u);
    }
    if s.threads == map[] { EmptyWhenAllLeft(s); }
  }

  lemma {:induction false} InvAfter<R>(s: State<R>, steps: seq<Step<R>>)
    requires Inv(s) && CanRun(s, steps)
    ensures Inv(After(s, steps))
    decreases |steps|
  {
    if steps == [] {
    } else {
      InvStep(s, steps[0]);
      InvAfter(Apply(s, steps[0]), steps[1..]);
    }
  }

  /** Safety over every run of any number of threads on any keys. */
  lemma EveryRunIsSafe<R>(steps: seq<Step<R>>)
    requires CanRun(Start(), steps)
    ensures Safe(After(Start(), steps))
  {
    InvAfter(Start(), steps);
    InvIsSafe(After(Start(), steps));
  }

  // ----- progress -----

  /** Steps that the threads inside still have to take, all together. */
  ghost function Work<R>(threads: map<Thread, Phase<R>>): nat {
    if threads == map[] then 0
    else var t :| t in threads; threads[t].Remaining() + Work(threads - {t})
  }

  lemma {:induction false} WorkSplit<R>(threads: map<Thread, Phase<R>>, t: Thread)
    requires t in threads
    ensures Work(threads) == threads[t].Remaining() + Work(threads - {t})
    decreases |threads|
  {
    var u :| u in threads && Work(threads) == threads[u].Remaining() + Work(threads - {u});
    if u != t {
      WorkSplit(threads - {u}, t);
      WorkSplit(threads - {t}, u);
      assert threads - {u} - {t} == threads - {t} - {u};
    }
  }

  lemma WorkStep<R>(s: State<R>, a: Step<R>)
    requires Enabled(s, a)
    ensures Work(Apply(s, a).threads) == if a.Call? then Work(s.threads) + 10 else Work(s.threads) - 1
  {
    var s' := Apply(s, a);
    assert s'.threads - {a.t} == s.threads - {a.t};
    if a.Call? {
      assert s.threads - {a.t} == s.threads;
    } else {
      WorkSplit(s.threads, a.t);
    }
    if !a.Finish? { WorkSplit(s'.threads, a.t); }
  }

  function Calls<R>(steps: seq<Step<R>>): nat {
    if steps == [] then 0 else (if steps[0].Call? then 1 else 0) + Calls(steps[1..])
  }

  lemma {:induction false} WorkAfter<R>(s: State<R>, steps: seq<Step<R>>)
    requires CanRun(s, steps)
    ensures Work(After(s, steps).threads) + (|steps| - Calls(steps)) == Work(s.threads) + 10 * Calls(steps)
    decreases |steps|
  {
    if steps == [] {
    } else {
      WorkStep(s, steps[0]);
      WorkAfter(Apply(s, steps[0]), steps[1..]);
    }
  }

  /** No deadlock: while a thread is inside, some thread inside can take its next step. */
  lemma SomeoneCanMove<R>(s: State<R>, spare: R) returns (a: Step<R>)
    requires Inv(s) && s.threads != map[] && spare !in s.cells
    ensures !a.Call? && Enabled(s, a)
  {
    if s.manager.Some? {
      var t := s.manager.value;
      assert LinkedAt(s, t);
      a := match s.threads[t]
        case Looking(_) => Find(t, spare)
        case Found(_, _) => Count(t)
        case Counted(_, _) => UnlockManager(t)
        case Uncounting(_, _) => Uncount(t)
        case Uncounted(_, _) => Sweep(t)
        case _ => Finish(t);
    } else {
      var t :| t in s.threads;
      assert LinkedAt(s, t);
      match s.threads[t]
      case Waiting(_, r) =>
        if s.cells[r].locked {
          var u :| InCritical(s, u, r);
          a := Release(u);
        } else {
          a := Take(t);
        }
      case Critical(_, _) => a := Release(t);
      case Leaving(_, _) => a := RelockManager(t);
      case _ => a := LockManager(t);
    }
  }

  /**
   Every call costs exactly ten further steps. A run in which those steps have been taken has
   no thread left inside, and then the manager's map is empty; and conversely.
   */
  lemma RunDrains<R>(steps: seq<Step<R>>)
    requires CanRun(Start(), steps)
    ensures |steps| <= 11 * Calls(steps)
    ensures |steps| == 11 * Calls(steps) <==> After(Start(), steps).threads == map[]
    ensures |steps| == 11 * Calls(steps) ==> After(Start(), steps).items == map[]
  {
    var s := After(Start(), steps);
    WorkAfter(Start(), steps);
    InvAfter(Start(), steps);
    if s.threads == map[] {
      EmptyWhenAllLeft(s);
    } else {
      var t :| t in s.threads;
      WorkSplit(s.threads, t);
    }
  }
}

/** The lock manager as the source has it: objects updated in place, one method per shared-memory statement. */
module KeyedLocker {
  import opened Basics
  import opened KeyedLockProtocol

  class LockRef {
    var refs: int
    var locked: bool

    constructor ()
      ensures refs == 0 && !locked
    {
      refs, locked := 0, false;
    }
  }

  class KeyedLocker {
    // Owner of the manager mutex.
    var manager: Option<Thread>
    var items: map<string, LockRef>
    // The lock objects ever created, and the local variables of the threads.
    ghost var cells: set<LockRef>
    ghost var threads: map<Thread, Phase<LockRef>>

    /** The state of the protocol that the objects represent. */
    ghost function Snapshot(): State<LockRef>
      reads this, cells
    {
      State(manager, items, map r | r in cells :: Cell(r.refs, r.locked), threads)
    }

    ghost predicate Valid()
      reads this, cells
    {
      Inv(Snapshot())
    }

    constructor ()
      ensures Valid() && Snapshot() == Start()
    {
      manager, items := None, map[];
      cells, threads := {}, map[];
    }

    /** The invariant follows a step of the protocol. */
    lemma Follow(s: State<LockRef>, a: Step<LockRef>)
      requires Inv(s) && Moves(s, a, Snapshot())
      ensures Valid()
    {
      InvStep(s, a);
    }

    method Call(t: Thread, key: string)
      requires Valid() && t !in threads
      modifies this
      ensures Valid() && cells == old(cells) && Moves(old(Snapshot()), Step.Call(t, key), Snapshot())
    {
      ghost var s := Snapshot();
      threads := threads[t := Entering(key)];
      Follow(s, Step.Call(t, key));
    }

    method LockManager(t: Thread, ghost key: string)
      requires Valid() && t in threads && threads[t] == Entering(key) && manager.None?
      modifies this
      ensures Valid() && cells == old(cells) && Moves(old(Snapshot()), Step.LockManager(t), Snapshot())
    {
      ghost var s := Snapshot();
      manager := Some(t);
      threads := threads[t := Looking(key)];
      Follow(s, Step.LockManager(t));
    }

    /** Finds the lock object of a key, creating it when the key has none. */
    method Find(t: Thread, key: string) returns (ref: LockRef)
      requires Valid() && t in threads && threads[t] == Looking(key)
      modifies this
      ensures Valid() && Moves(old(Snapshot()), Step.Find(t, ref), Snapshot())
      ensures threads[t] == Found(key, ref)
      ensures if key in old(items) then ref == old(items)[key] && cells == old(cells)
              else fresh(ref) && cells == old(cells) + {ref}
    {
      ghost var s := Snapshot();
      if key in items {
        ref := items[key];
      } else {
        ref := new LockRef();
        items := items[key := ref];
        cells := cells + {ref};
      }
      threads := threads[t := Found(key, ref)];
      Follow(s, Step.Find(t, ref));
    }

    method Count(t: Thread, ghost key: string, ref: LockRef)
      requires Valid() && t in threads && threads[t] == Found(key, ref)
      modifies this, ref
      ensures Valid() && cells == old(cells) && Moves(old(Snapshot()), Step.Count(t), Snapshot())
    {
      ghost var s := Snapshot();
      assert LinkedAt(s, t);
      ref.refs := ref.refs + 1;
      threads := threads[t := Counted(key, ref)];
      Follow(s, Step.Count(t));
    }

    method UnlockManager(t: Thread, ghost key: string, ref: LockRef)
      requires Valid() && t in threads && threads[t] == Counted(key, ref)
      modifies this
      ensures Valid() && cells == old(cells) && Moves(old(Snapshot()), Step.UnlockManager(t), Snapshot())
    {
      ghost var s := Snapshot();
      assert LinkedAt(s, t);
      manager := None;
      threads := threads[t := Waiting(key, ref)];
      Follow(s, Step.UnlockManager(t));
    }

    method Take(t: Thread, ghost key: string, ref: LockRef)
      requires Valid() && t in threads && threads[t] == Waiting(key, ref) && !ref.locked
      modifies this, ref
      ensures Valid() && cells == old(cells) && Moves(old(Snapshot()), Step.Take(t), Snapshot())
    {
      ghost var s := Snapshot();
      assert LinkedAt(s, t);
      ref.locked := true;
      threads := threads[t := Critical(key, ref)];
      Follow(s, Step.Take(t));
    }

    method Release(t: Thread, ghost key: string, ref: LockRef)
      requires Valid() && t in threads && threads[t] == Critical(key, ref)
      modifies this, ref
      ensures Valid() && cells == old(cells) && Moves(old(Snapshot()), Step.Release(t), Snapshot())
    {
      ghost var s := Snapshot();
      assert LinkedAt(s, t);
      ref.locked := false;
      threads := threads[t := Leaving(key, ref)];
      Follow(s, Step.Release(t));
    }

    method RelockManager(t: Thread, ghost key: string, ref: LockRef)
      requires Valid() && t in threads && threads[t] == Leaving(key, ref) && manager.None?
      modifies this
      ensures Valid() && cells == old(cells) && Moves(old(Snapshot()), Step.RelockManager(t), Snapshot())
    {
      ghost var s := Snapshot();
      assert LinkedAt(s, t);
      manager := Some(t);
      threads := threads[t := Uncounting(key, ref)];
      Follow(s, Step.RelockManager(t));
    }

    method Uncount(t: Thread, ghost key: string, ref: LockRef)
      requires Valid() && t in threads && threads[t] == Uncounting(key, ref)
      modifies this, ref
      ensures Valid() && cells == old(cells) && Moves(old(Snapshot()), Step.Uncount(t), Snapshot())
    {
      ghost var s := Snapshot();
      assert LinkedAt(s, t);
      ref.refs := ref.refs - 1;
      threads := threads[t := Uncounted(key, ref)];
      Follow(s, Step.Uncount(t));
    }

    /** Removes the entry of a key that nobody uses any more. */
    method Sweep(t: Thread, key: string, ref: LockRef)
      requires Valid() && t in threads && threads[t] == Uncounted(key, ref)
      modifies this
      ensures Valid() && cells == old(cells) && Moves(old(Snapshot()), Step.Sweep(t), Snapshot())
    {
      ghost var s := Snapshot();
      assert LinkedAt(s, t);
      if ref.refs == 0 {
        items := items - {key};
      }
      threads := threads[t := Swept(key, ref)];
      Follow(s, Step.Sweep(t));
    }

    method Finish(t: Thread, ghost key: string, ref: LockRef)
      requires Valid() && t in threads && threads[t] == Swept(key, ref)
      modifies this
      ensures Valid() && cells == old(cells) && Moves(old(Snapshot()), Step.Finish(t), Snapshot())
    {
      ghost var s := Snapshot();
      manager := None;
      threads := threads - {t};
      Follow(s, Step.Finish(t));
    }
  }
}
