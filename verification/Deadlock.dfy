/**
 Runs in which every thread takes locks in the order of some rank cannot deadlock on them. The
 file system takes kfs_lock and, inside it, the block device's vio_lock (src/kern/kfs.c:303-397,
 src/kern/vioblk.c:389-421, 625-632).
 */
module Deadlock {
  import opened Chains
  import opened Threads
  import opened Scheduler
  import opened Locks

  type Ranking = Lock -> nat

  /** A thread that starts to acquire a lock holds only locks that come before it. */
  ghost predicate InOrder(z: LockSys, a: LockLabel, rank: Ranking) {
    a.Acquire? && Want(z.want, z.y.s.cur) == Nothing ==> forall j :: j in Held(z.held, z.y.s.cur) ==> rank(j) < rank(a.lock)
  }

  ghost predicate OrderedRun(z: LockSys, run: seq<LockLabel>, rank: Ranking)
    decreases |run|
  {
    run != [] ==> LockEnabled(z, run[0]) && InOrder(z, run[0], rank) && OrderedRun(LockApply(z, run[0]), run[1..], rank)
  }

  ghost predicate Orderly(held: map<Ptr, set<Lock>>, want: map<Ptr, Wanted>, rank: Ranking) {
    forall t, j :: Want(want, t).Wants? && j in Held(held, t) ==> rank(j) < rank(Want(want, t).lock)
  }

  lemma OrderlyStep(z: LockSys, a: LockLabel, rank: Ranking)
    requires LockEnabled(z, a) && InOrder(z, a, rank) && Orderly(z.held, z.want, rank)
    ensures Orderly(LockApply(z, a).held, LockApply(z, a).want, rank)
  {
    hide Apply;
    var z', cur := LockApply(z, a), z.y.s.cur;
    forall t, j | Want(z'.want, t).Wants? && j in Held(z'.held, t) ensures rank(j) < rank(Want(z'.want, t).lock) {
      if t != cur {
        assert Want(z.want, t) == Want(z'.want, t) && Held(z.held, t) == Held(z'.held, t);
      } else {
        assert Held(z.held, t) == Held(z'.held, t);
      }
    }
  }

  lemma {:induction false} OrderlyRun(z: LockSys, run: seq<LockLabel>, rank: Ranking)
    requires LockInv(z) && Orderly(z.held, z.want, rank) && OrderedRun(z, run, rank)
    ensures LockRun(z, run) && LockInv(LockAfter(z, run))
    ensures Orderly(LockAfter(z, run).held, LockAfter(z, run).want, rank)
    decreases |run|
  {
    hide LockInv, LockEnabled, LockApply, InOrder, Orderly;
    if run != [] {
      LockStepKeeps(z, run[0]);
      OrderlyStep(z, run[0], rank);
      OrderlyRun(LockApply(z, run[0]), run[1..], rank);
    }
  }

  /** t waits for a lock that u holds. */
  ghost predicate WaitsFor(z: LockSys, t: Ptr, u: Ptr) {
    exists k :: Blocked(z.y.s.thr, t, k) && k in Held(z.held, u)
  }

  /** Whoever holds the awaited lock waits, if at all, for one of higher rank. */
  lemma WaitsForClimbs(z: LockSys, rank: Ranking, t: Ptr, u: Ptr)
    requires LockInv(z) && Orderly(z.held, z.want, rank) && WaitsFor(z, t, u)
    ensures Want(z.want, t).Wants?
    ensures Want(z.want, u).Wants? ==> rank(Want(z.want, t).lock) < rank(Want(z.want, u).lock)
  {
    hide Inv, OwnerOk, FreeOk, WakingOk;
    var k :| Blocked(z.y.s.thr, t, k) && k in Held(z.held, u);
    assert Want(z.want, t) == Wants(k);
  }

  ghost predicate WaitPath(z: LockSys, path: seq<Ptr>) {
    forall i :: 0 <= i < |path| - 1 ==> WaitsFor(z, path[i], path[i + 1])
  }

  /** No chain of threads waiting for each other's locks closes. */
  lemma NoDeadlock(run: seq<LockLabel>, rank: Ranking, path: seq<Ptr>)
    requires OrderedRun(LockInit(), run, rank) && |path| >= 2
    ensures LockRun(LockInit(), run)
    ensures WaitPath(LockAfter(LockInit(), run), path) ==> path[0] != path[|path| - 1]
  {
    hide LockInv, LockRun, LockAfter, WaitsFor, Orderly, OrderedRun;
    InitLockInv();
    NothingOrderly(rank);
    OrderlyRun(LockInit(), run, rank);
    var z := LockAfter(LockInit(), run);
    if WaitPath(z, path) {
      WaitsForClimbs(z, rank, path[0], path[1]);
      var i := 1;
      while i < |path| - 1
        invariant 1 <= i <= |path| - 1
        invariant Want(z.want, path[i]).Wants? ==> rank(Want(z.want, path[0]).lock) < rank(Want(z.want, path[i]).lock)
      {
        WaitsForClimbs(z, rank, path[i], path[i + 1]);
        i := i + 1;
      }
    }
  }

  lemma NothingOrderly(rank: Ranking)
    ensures Orderly(LockInit().held, LockInit().want, rank)
  {
  }

  // ---------------------------------------------------------------- the file system's two locks

  const KFS_LOCK: Lock := 0
  const VIO_LOCK: Lock := 1

  /** kfs_lock is taken first and vio_lock inside it or alone; neither is taken twice. */
  ghost predicate Nests(z: LockSys, a: LockLabel) {
    a.Acquire? && Want(z.want, z.y.s.cur) == Nothing ==>
      || (a.lock == KFS_LOCK && Held(z.held, z.y.s.cur) == {})
      || (a.lock == VIO_LOCK && Held(z.held, z.y.s.cur) <= {KFS_LOCK})
  }

  ghost predicate NestedRun(z: LockSys, run: seq<LockLabel>)
    decreases |run|
  {
    run != [] ==> LockEnabled(z, run[0]) && Nests(z, run[0]) && NestedRun(LockApply(z, run[0]), run[1..])
  }

  function Address(k: Lock): nat { k }

  lemma {:induction false} NestedIsOrdered(z: LockSys, run: seq<LockLabel>)
    requires NestedRun(z, run)
    ensures OrderedRun(z, run, Address)
    decreases |run|
  {
    hide LockEnabled, LockApply;
    if run != [] {
      NestedIsOrdered(LockApply(z, run[0]), run[1..]);
    }
  }

  /** So the file system over the block device does not deadlock on its locks. */
  lemma FileSystemNoDeadlock(run: seq<LockLabel>, path: seq<Ptr>)
    requires NestedRun(LockInit(), run) && |path| >= 2
    ensures LockRun(LockInit(), run)
    ensures WaitPath(LockAfter(LockInit(), run), path) ==> path[0] != path[|path| - 1]
  {
    hide NestedRun, OrderedRun, LockRun, LockAfter, WaitPath;
    NestedIsOrdered(LockInit(), run);
    NoDeadlock(run, Address, path);
  }

  /** Without an order a run can end in such a chain: a thread that takes a lock twice waits for itself. */
  lemma UnorderedDeadlocks()
    ensures exists run, t :: LockRun(LockInit(), run) && WaitsFor(LockAfter(LockInit(), run), t, t)
  {
    var run := [Acquire(0), Acquire(0)];
    var z1 := LockApply(LockInit(), Acquire(0));
    assert LockEnabled(z1, Acquire(0));
    var z2 := LockApply(z1, Acquire(0));
    assert run[1..] == [Acquire(0)] && run[1..][1..] == [];
    assert LockRun(z2, []) && LockRun(z1, run[1..]) && LockRun(LockInit(), run);
    assert LockAfter(LockInit(), run) == LockAfter(z1, run[1..]) == LockAfter(z2, []) == z2;
    assert Blocked(z2.y.s.thr, MAIN, 0) && 0 in Held(z2.held, MAIN);
    assert WaitsFor(z2, MAIN, MAIN);
  }
}
