/** The locks' code takes the steps of module Locks. */
module KernelLocks {
  import opened Threads
  import opened Scheduler
  import opened Locks
  import opened Kernel

  /** Each lock is an object of its own on the same threads, and its tid member is what the steps say. */
  ghost predicate Matches(locks: map<Lock, SleepLock>, m: ThreadManager, owner: map<Lock, int>)
    reads locks.Values
  {
    && (forall k :: k in locks ==> locks[k].m == m && locks[k].cond == LockCond(k) && locks[k].tid == Owner(owner, k))
    && (forall j, k :: j in locks && k in locks && locks[j] == locks[k] ==> j == k)
  }

  /** The lock a step writes or tries is one of these. */
  predicate Present(locks: map<Lock, SleepLock>, a: LockLabel) {
    a.Acquire? || a.Release? ==> a.lock in locks
  }

  /** lock_release's assertion. */
  lemma HolderNamed(z: LockSys, k: Lock)
    requires LockInv(z) && LockEnabled(z, Release(k))
    ensures z.y.s.cur in z.y.s.thr && Owner(z.owner, k) == z.y.s.thr[z.y.s.cur].id
  {
    hide Inv, FreeOk, WakingOk, WantOk;
    assert Names(z.y.s, z.owner, z.held, z.y.s.cur, k);
  }

  /** One step of a run with locks, taken by the code. */
  method PerformLock(m: ThreadManager, locks: map<Lock, SleepLock>, at: Phase, a: LockLabel, ghost z: LockSys) returns (next: Phase)
    requires m.Valid() && m.Abs() == z.y.s && LockInv(z) && LockEnabled(z, a) && at == z.y.phase
    requires Matches(locks, m, z.owner) && Present(locks, a)
    modifies m, locks.Values
    ensures m.Valid() && m.Abs() == LockApply(z, a).y.s && next == LockApply(z, a).y.phase
    ensures Matches(locks, m, LockApply(z, a).owner)
  {
    hide Inv, OwnerOk, FreeOk, WakingOk, WantOk, ListsOk, Disjoint;
    InvPhase(z.y);
    match a
    case Other(l) => next := Perform(m, at, l, z.y);
    case Acquire(k) =>
      NotQueued(z.y, z.y.s.cur);
      var taken := locks[k].TryAcquire();
      next := if taken then at else Marked(LockCond(k));
    case Release(k) =>
      HolderNamed(z, k);
      locks[k].Unlock();
      next := at;
    case WakeTest(k) => next := Perform(m, at, SignalTest(LockCond(k)), z.y);
    case WakeSplice => next := Perform(m, at, SignalSplice, z.y);
  }
}
