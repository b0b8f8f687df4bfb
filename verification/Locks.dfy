/**
 Sleep locks (src/kern/lock.h) on top of the scheduler runs: any number of locks and threads, taken
 and released in any bracketed fashion. Exclusion and wake-ups hold for every run; deadlock is
 ruled out for runs that take locks in the order of some rank, as kfs_lock and vio_lock are
 (src/kern/kfs.c:303-397, src/kern/vioblk.c:389-421, 625-632).
 */
module Locks {
  import opened Chains
  import opened Threads
  import opened Scheduler

  type Lock = nat

  const FREE := -1  // value of lk->tid when nobody holds the lock

  /** The lock call a thread is in: the loop of lock_acquire, or lock_release past its write of tid. */
  datatype Wanted = Nothing | Wants(lock: Lock) | Waking(lock: Lock)

  /**
   owner is the tid member of each lock. held and want are history: the locks a thread is between
   acquire and release of, and the lock call it is in.
   */
  datatype LockSys = LockSys(y: Sys, owner: map<Lock, int>, held: map<Ptr, set<Lock>>, want: map<Ptr, Wanted>)

  datatype LockLabel =
    | Other(l: Label)
    | Acquire(lock: Lock)   // one turn of lock_acquire
    | Release(lock: Lock)   // lock_release up to its broadcast
    | WakeTest(lock: Lock)  // that broadcast's test, and the rest of it
    | WakeSplice

  function Owner(owner: map<Lock, int>, k: Lock): int { if k in owner then owner[k] else FREE }

  function Held(held: map<Ptr, set<Lock>>, t: Ptr): set<Lock> { if t in held then held[t] else {} }

  function Want(want: map<Ptr, Wanted>, t: Ptr): Wanted { if t in want then want[t] else Nothing }

  /** lock_init: all locks free. */
  function LockInit(): LockSys { LockSys(Init(), map[], map[], map[]) }

  /** Steps the current thread takes on its own account, as opposed to scheduler and handler steps. */
  predicate IsCall(l: Label) {
    l.Spawn? || l.Wait? || l.SignalTest? || l.Yield? || l.Exit? || l.Join? || l.JoinWait? || l.JoinReap?
  }

  /** Steps on a lock's condition belong to the lock functions alone. */
  predicate OnLock(y: Sys, l: Label) {
    || ((l.Wait? || l.Signal? || l.SignalTest?) && l.cond.LockCond?)
    || (l == SignalSplice && y.phase.Signalling? && y.phase.cond.LockCond?)
  }

  predicate LockEnabled(z: LockSys, a: LockLabel) {
    var cur := z.y.s.cur;
    match a
    case Other(l) =>
      && Enabled(z.y, l) && !OnLock(z.y, l)
      && (IsCall(l) ==> Want(z.want, cur) == Nothing)
      && (l == Exit ==> Held(z.held, cur) == {})
    case Acquire(k) => Free(z.y) && cur != IDLE && (Want(z.want, cur) == Nothing || Want(z.want, cur) == Wants(k))
    case Release(k) => Free(z.y) && Want(z.want, cur) == Nothing && k in Held(z.held, cur)
    case WakeTest(k) => Free(z.y) && Want(z.want, cur) == Waking(k)
    case WakeSplice => z.y.phase.Signalling? && z.y.phase.cond.LockCond?
  }

  /** lock_acquire takes a free lock or waits and tries again; lock_release frees it and wakes all waiters. */
  function LockApply(z: LockSys, a: LockLabel): LockSys
    requires LockEnabled(z, a)
  {
    var cur := z.y.s.cur;
    match a
    case Other(l) => z.(y := Apply(z.y, l))
    case Acquire(k) =>
      if Owner(z.owner, k) == FREE then
        z.(owner := z.owner[k := z.y.s.thr[cur].id], held := z.held[cur := Held(z.held, cur) + {k}], want := z.want[cur := Nothing])
      else
        z.(y := Apply(z.y, Wait(LockCond(k))), want := z.want[cur := Wants(k)])
    case Release(k) =>
      z.(owner := z.owner[k := FREE], held := z.held[cur := Held(z.held, cur) - {k}], want := z.want[cur := Waking(k)])
    case WakeTest(k) =>
      var c := LockCond(k);
      z.(y := Apply(z.y, SignalTest(c)), want := if Waiters(z.y.s, c) == [] then z.want[cur := Nothing] else z.want)
    case WakeSplice => z.(y := Apply(z.y, SignalSplice), want := z.want[cur := Nothing])
  }

  // ---------------------------------------------------------------- the code

  /** struct lock, on the thread manager whose threads use it. */
  class SleepLock {
    var tid: int
    const cond: Cond
    const m: ThreadManager

    /** lock_init */
    constructor (c: Cond, threads: ThreadManager)
      ensures tid == FREE && cond == c && m == threads
    {
      tid, cond, m := FREE, c, threads;
    }

    /** One turn of the loop of lock_acquire, up to the point where a waiting thread is marked. */
    method TryAcquire() returns (taken: bool)
      requires m.Valid() && m.cur in m.thr && m.thr[m.cur].state == RUNNING && !Queued(m.queues, m.cur)
      modifies this`tid, m`thr, m`listNext
      ensures m.Valid() && (taken <==> old(tid) == FREE)
      ensures taken ==> tid == old(m.thr[m.cur].id) && m.Abs() == old(m.Abs())
      ensures !taken ==> tid == old(tid) && m.Abs() == MarkWaiting(old(m.Abs()), cond)
    {
      if tid == FREE {
        tid := m.thr[m.cur].id;
        return true;
      }
      m.WaitMark(cond);
      taken := false;
    }

    /** lock_release up to its broadcast; the assertion is the precondition. */
    method Unlock()
      requires m.cur in m.thr && tid == m.thr[m.cur].id
      modifies this`tid
      ensures tid == FREE
    {
      tid := FREE;
    }

    /** lock_release, when no handler runs meanwhile. */
    method Release()
      requires m.Valid() && m.cur in m.thr && tid == m.thr[m.cur].id
      requires forall t :: t in Queue(m.queues, WaitList(cond)) ==> t in m.thr && m.thr[t].state == WAITING && m.thr[t].waitCond == On(cond)
      modifies this`tid, m`thr, m`listNext, m`lists, m`queues
      ensures m.Valid() && tid == FREE && m.Abs() == Broadcast(old(m.Abs()), cond)
    {
      Unlock();
      m.ConditionBroadcast(cond);
    }
  }

  // ---------------------------------------------------------------- the invariant

  ghost predicate Blocked(thr: map<Ptr, Tcb>, t: Ptr, k: Lock) {
    t in thr && thr[t].state == WAITING && thr[t].waitCond == On(LockCond(k))
  }

  /** lk->tid names t exactly if t is between acquire and release of the lock. */
  ghost predicate Names(s: Sched, owner: map<Lock, int>, held: map<Ptr, set<Lock>>, t: Ptr, k: Lock) {
    k in Held(held, t) <==> t in s.thr && Owner(owner, k) == s.thr[t].id
  }

  ghost predicate Owned(s: Sched, owner: map<Lock, int>, held: map<Ptr, set<Lock>>, k: Lock) {
    Owner(owner, k) == FREE || (0 <= Owner(owner, k) < |s.thrtab| && k in Held(held, s.thrtab[Owner(owner, k)]))
  }

  ghost predicate OwnerOk(s: Sched, owner: map<Lock, int>, held: map<Ptr, set<Lock>>) {
    && (forall t, k :: Names(s, owner, held, t, k))
    && (forall k :: Owned(s, owner, held, k))
    && (forall t :: t in s.thr && s.thr[t].state == EXITED ==> Held(held, t) == {})
  }

  ghost predicate NobodyWaits(y: Sys, k: Lock) {
    Queue(y.s.queues, WaitList(LockCond(k))) == [] && y.phase != Marked(LockCond(k))
  }

  /** A free lock has no waiters, but for the moment before its release has woken them. */
  ghost predicate FreeOk(y: Sys, owner: map<Lock, int>, want: map<Ptr, Wanted>) {
    forall k :: Owner(owner, k) == FREE ==> NobodyWaits(y, k) || Want(want, y.s.cur) == Waking(k)
  }

  /** Only the current thread is in the middle of a release. */
  ghost predicate WakingOk(y: Sys, want: map<Ptr, Wanted>) {
    && (forall t, k :: Want(want, t) == Waking(k) ==> t == y.s.cur && (Free(y) || y.phase == Signalling(LockCond(k))))
    && (forall k :: y.phase == Signalling(LockCond(k)) ==> Want(want, y.s.cur) == Waking(k))
  }

  ghost predicate WantOk(thr: map<Ptr, Tcb>, want: map<Ptr, Wanted>) {
    forall t, k :: Blocked(thr, t, k) ==> Want(want, t) == Wants(k)
  }

  ghost predicate LockInv(z: LockSys) {
    Inv(z.y) && OwnerOk(z.y.s, z.owner, z.held) && FreeOk(z.y, z.owner, z.want) && WakingOk(z.y, z.want) && WantOk(z.y.s.thr, z.want)
  }

  // ---------------------------------------------------------------- scheduler steps keep it

  /** Scheduler steps renumber nobody, forget only exited threads, and fill only empty slots. */
  ghost predicate IdsFrame(s: Sched, s': Sched) {
    && (forall t :: t in s.thr && t in s'.thr ==> s'.thr[t].id == s.thr[t].id)
    && (forall t :: t in s'.thr && t !in s.thr ==> s'.thr[t].id < |s.thrtab| && s.thrtab[s'.thr[t].id] == NULL)
    && (forall t :: t in s.thr && t !in s'.thr ==> s.thr[t].state == EXITED)
  }

  lemma OtherIds(y: Sys, l: Label)
    requires Enabled(y, l)
    ensures IdsFrame(y.s, Apply(y, l).s)
  {
    if l.Spawn? || l.Join? || l.JoinReap? {
      TableIds(y, l);
    } else {
      SameIds(y, l);
    }
  }

  lemma TableIds(y: Sys, l: Label)
    requires Enabled(y, l) && (l.Spawn? || l.Join? || l.JoinReap?)
    ensures IdsFrame(y.s, Apply(y, l).s)
  {
  }

  lemma SameIds(y: Sys, l: Label)
    requires Enabled(y, l) && !l.Spawn? && !l.Join? && !l.JoinReap?
    ensures IdsFrame(y.s, Apply(y, l).s)
  {
  }

  lemma OtherExited(y: Sys, l: Label)
    requires Enabled(y, l) && WaitOk(y)
    ensures var thr' := Apply(y, l).s.thr;
      forall t :: t in thr' && thr'[t].state == EXITED ==>
        t in y.s.thr && (y.s.thr[t].state == EXITED || (l == Exit && t == y.s.cur))
  {
    hide WaitOk, TableFull;
  }

  lemma OtherBlocked(y: Sys, l: Label, k: Lock)
    requires Enabled(y, l) && WaitOk(y) && l != Wait(LockCond(k))
    ensures forall t :: Blocked(Apply(y, l).s.thr, t, k) ==> Blocked(y.s.thr, t, k)
  {
  }

  lemma OtherQueues(y: Sys, l: Label, k: Lock)
    requires Enabled(y, l) && l != Wait(LockCond(k)) && NobodyWaits(y, k)
    ensures NobodyWaits(Apply(y, l), k)
  {
  }

  lemma OwnersFrame(s: Sched, s': Sched, owner: map<Lock, int>, held: map<Ptr, set<Lock>>)
    requires OwnerOk(s, owner, held) && IdsFrame(s, s') && NULL !in s.thr && TableOk(s'.thr, s'.thrtab)
    requires forall t :: t in s'.thr && s'.thr[t].state == EXITED ==> Held(held, t) == {}
    ensures OwnerOk(s', owner, held)
  {
    forall t, k ensures Names(s', owner, held, t, k) {
      assert Names(s, owner, held, t, k) && Owned(s, owner, held, k);
      assert Owner(owner, k) != FREE ==> Names(s, owner, held, s.thrtab[Owner(owner, k)], k);
    }
    forall k ensures Owned(s', owner, held, k) {
      assert Owned(s, owner, held, k);
      if Owner(owner, k) != FREE {
        var u := s.thrtab[Owner(owner, k)];
        assert Names(s, owner, held, u, k);
        assert u in s'.thr && s'.thrtab[s'.thr[u].id] == u;
      }
    }
  }

  /** What a scheduler step leaves of the owners. */
  lemma OwnersStep(z: LockSys, l: Label)
    requires Inv(z.y) && OwnerOk(z.y.s, z.owner, z.held) && Enabled(z.y, l) && (l == Exit ==> Held(z.held, z.y.s.cur) == {})
    ensures Inv(Apply(z.y, l)) && OwnerOk(Apply(z.y, l).s, z.owner, z.held)
  {
    hide OwnerOk, Apply, Enabled, TableOk, IdsFrame, WaitOk, TreeOk, ReadyOk, DistinctOk, PhaseOk, IdleOk, JoinsOk;
    StepKeeps(z.y, l);
    OtherIds(z.y, l);
    OtherExited(z.y, l);
    NullNotLive(z.y.s);
    ExitedHoldNothing(z.y.s, z.owner, z.held);
    OwnersFrame(z.y.s, Apply(z.y, l).s, z.owner, z.held);
  }

  lemma NullNotLive(s: Sched)
    requires TableOk(s.thr, s.thrtab)
    ensures NULL !in s.thr
  {
  }

  lemma ExitedHoldNothing(s: Sched, owner: map<Lock, int>, held: map<Ptr, set<Lock>>)
    requires OwnerOk(s, owner, held)
    ensures forall t :: t in s.thr && s.thr[t].state == EXITED ==> Held(held, t) == {}
  {
  }

  /** While a release is unfinished only handlers run, and they leave the thread where it is. */
  lemma MidRelease(z: LockSys, l: Label)
    requires WakingOk(z.y, z.want) && LockEnabled(z, Other(l)) && Want(z.want, z.y.s.cur).Waking?
    ensures l.Signal? && Apply(z.y, l).s.cur == z.y.s.cur && Apply(z.y, l).phase == z.y.phase
    ensures Free(z.y) ==> Free(Apply(z.y, l))
  {
    var k := Want(z.want, z.y.s.cur).lock;
    assert Want(z.want, z.y.s.cur) == Waking(k);
  }

  lemma WakingStep(z: LockSys, l: Label)
    requires WakingOk(z.y, z.want) && LockEnabled(z, Other(l))
    ensures WakingOk(Apply(z.y, l), z.want)
  {
    if Want(z.want, z.y.s.cur).Waking? {
      MidRelease(z, l);
    } else {
      NoSignalling(z, l);
    }
  }

  lemma NoSignalling(z: LockSys, l: Label)
    requires WakingOk(z.y, z.want) && LockEnabled(z, Other(l)) && !Want(z.want, z.y.s.cur).Waking?
    ensures forall k :: Apply(z.y, l).phase != Signalling(LockCond(k))
    ensures forall t, k :: Want(z.want, t) != Waking(k)
  {
  }

  lemma OtherKeeps(z: LockSys, l: Label)
    requires LockInv(z) && LockEnabled(z, Other(l))
    ensures LockInv(LockApply(z, Other(l)))
  {
    hide Inv, OwnerOk, WantOk, WakingOk, Apply, Enabled, NobodyWaits, Blocked;
    OwnersStep(z, l);
    WakingStep(z, l);
    WaitsTell(z.y);
    forall k | Owner(z.owner, k) == FREE ensures NobodyWaits(Apply(z.y, l), k) || Want(z.want, Apply(z.y, l).s.cur) == Waking(k) {
      if Want(z.want, z.y.s.cur) == Waking(k) { MidRelease(z, l); } else { OtherQueues(z.y, l, k); }
    }
    WantsFrame(z, l);
  }

  lemma WaitsTell(y: Sys)
    requires Inv(y)
    ensures WaitOk(y)
  {
  }

  lemma WantsFrame(z: LockSys, l: Label)
    requires WantOk(z.y.s.thr, z.want) && WaitOk(z.y) && Enabled(z.y, l) && !OnLock(z.y, l)
    ensures WantOk(Apply(z.y, l).s.thr, z.want)
  {
    hide WaitOk, Enabled, Apply, Blocked;
    forall t, k | Blocked(Apply(z.y, l).s.thr, t, k) ensures Want(z.want, t) == Wants(k) {
      OtherBlocked(z.y, l, k);
    }
  }

  // ---------------------------------------------------------------- lock steps keep it

  /** The current thread enters or leaves a call that is not the middle of a release. */
  lemma WakingCleared(y: Sys, want: map<Ptr, Wanted>, y': Sys, w: Wanted)
    requires WakingOk(y, want) && y'.s.cur == y.s.cur && !w.Waking? && forall k :: y'.phase != Signalling(LockCond(k))
    ensures WakingOk(y', want[y.s.cur := w])
  {
    var want' := want[y.s.cur := w];
    forall t, k ensures Want(want', t) != Waking(k) {
      assert t != y.s.cur ==> Want(want', t) == Want(want, t);
    }
  }

  lemma WantsSet(thr: map<Ptr, Tcb>, want: map<Ptr, Wanted>, t: Ptr, w: Wanted)
    requires WantOk(thr, want) && t in thr && thr[t].state == RUNNING
    ensures WantOk(thr, want[t := w])
  {
    forall u, k | Blocked(thr, u, k) ensures Want(want[t := w], u) == Wants(k) {
      assert u != t && Want(want, u) == Wants(k);
    }
  }

  lemma TakeKeeps(z: LockSys, k: Lock)
    requires LockInv(z) && LockEnabled(z, Acquire(k)) && Owner(z.owner, k) == FREE
    ensures LockInv(LockApply(z, Acquire(k)))
  {
    hide Inv, OwnerOk, WakingOk, WantOk, NobodyWaits;
    InvPhase(z.y);
    InvTables(z.y);
    OwnersTake(z.y.s, z.owner, z.held, z.y.s.cur, k);
    WakingCleared(z.y, z.want, z.y, Nothing);
    WantsSet(z.y.s.thr, z.want, z.y.s.cur, Nothing);
    var z' := LockApply(z, Acquire(k));
    forall j | Owner(z'.owner, j) == FREE ensures NobodyWaits(z'.y, j) {
      assert Owner(z.owner, j) == FREE;
    }
  }

  lemma InvTables(y: Sys)
    requires Inv(y)
    ensures TableOk(y.s.thr, y.s.thrtab) && WaitOk(y)
  {
  }

  lemma OwnersTake(s: Sched, owner: map<Lock, int>, held: map<Ptr, set<Lock>>, t: Ptr, k: Lock)
    requires OwnerOk(s, owner, held) && TableOk(s.thr, s.thrtab)
    requires t in s.thr && s.thr[t].state != EXITED && Owner(owner, k) == FREE
    ensures OwnerOk(s, owner[k := s.thr[t].id], held[t := Held(held, t) + {k}])
  {
    var owner', held' := owner[k := s.thr[t].id], held[t := Held(held, t) + {k}];
    forall u, j ensures Names(s, owner', held', u, j) {
      assert Names(s, owner, held, u, j);
      assert u in s.thr ==> s.thrtab[s.thr[u].id] == u;
    }
    forall j ensures Owned(s, owner', held', j) {
      assert Owned(s, owner, held, j);
      assert s.thrtab[s.thr[t].id] == t;
    }
    forall u | u in s.thr && s.thr[u].state == EXITED ensures Held(held', u) == {} { assert Held(held, u) == {}; }
  }

  lemma OwnersDrop(s: Sched, owner: map<Lock, int>, held: map<Ptr, set<Lock>>, t: Ptr, k: Lock)
    requires OwnerOk(s, owner, held) && TableOk(s.thr, s.thrtab) && k in Held(held, t)
    ensures OwnerOk(s, owner[k := FREE], held[t := Held(held, t) - {k}])
  {
    var owner', held' := owner[k := FREE], held[t := Held(held, t) - {k}];
    assert Names(s, owner, held, t, k);
    forall u, j ensures Names(s, owner', held', u, j) {
      assert Names(s, owner, held, u, j);
      assert u in s.thr ==> s.thrtab[s.thr[u].id] == u;
    }
    forall j ensures Owned(s, owner', held', j) {
      assert Owned(s, owner, held, j);
      assert Names(s, owner, held, t, j);
    }
    forall u | u in s.thr && s.thr[u].state == EXITED ensures Held(held', u) == {} { assert Held(held, u) == {}; }
  }

  lemma BlockKeeps(z: LockSys, k: Lock)
    requires LockInv(z) && LockEnabled(z, Acquire(k)) && Owner(z.owner, k) != FREE
    ensures LockInv(LockApply(z, Acquire(k)))
  {
    hide Inv, OwnerOk, WakingOk, NobodyWaits;
    OwnersStep(z, Wait(LockCond(k)));
    var z' := LockApply(z, Acquire(k));
    WakingCleared(z.y, z.want, z'.y, Wants(k));
    forall j | Owner(z.owner, j) == FREE ensures NobodyWaits(z'.y, j) {
      OtherQueues(z.y, Wait(LockCond(k)), j);
    }
    BlockWants(z, k);
    hide Blocked;
  }

  lemma BlockWants(z: LockSys, k: Lock)
    requires WantOk(z.y.s.thr, z.want) && LockEnabled(z, Acquire(k)) && Owner(z.owner, k) != FREE
    ensures WantOk(LockApply(z, Acquire(k)).y.s.thr, LockApply(z, Acquire(k)).want)
  {
    var z' := LockApply(z, Acquire(k));
    forall t, j | Blocked(z'.y.s.thr, t, j) ensures Want(z'.want, t) == Wants(j) {
      if t != z.y.s.cur {
        assert Blocked(z.y.s.thr, t, j);
      }
    }
  }

  lemma ReleaseKeeps(z: LockSys, k: Lock)
    requires LockInv(z) && LockEnabled(z, Release(k))
    ensures LockInv(LockApply(z, Release(k)))
  {
    hide Inv, OwnerOk, WantOk, NobodyWaits;
    InvPhase(z.y);
    InvTables(z.y);
    hide TableOk, WaitOk;
    OwnersDrop(z.y.s, z.owner, z.held, z.y.s.cur, k);
    WantsSet(z.y.s.thr, z.want, z.y.s.cur, Waking(k));
    var z' := LockApply(z, Release(k));
    forall j | Owner(z'.owner, j) == FREE ensures NobodyWaits(z'.y, j) || Want(z'.want, z'.y.s.cur) == Waking(j) {
      assert j != k ==> Owner(z.owner, j) == FREE;
    }
    forall t, j | Want(z'.want, t) == Waking(j) ensures t == z'.y.s.cur && (Free(z'.y) || z'.y.phase == Signalling(LockCond(j))) {
      assert t != z.y.s.cur ==> Want(z.want, t) == Waking(j);
    }
  }

  lemma WakeTestKeeps(z: LockSys, k: Lock)
    requires LockInv(z) && LockEnabled(z, WakeTest(k))
    ensures LockInv(LockApply(z, WakeTest(k)))
  {
    hide Inv, OwnerOk, WantOk;
    OwnersStep(z, SignalTest(LockCond(k)));
    InvPhase(z.y);
    WantsSet(z.y.s.thr, z.want, z.y.s.cur, Nothing);
    if Waiters(z.y.s, LockCond(k)) == [] {
      assert NobodyWaits(z.y, k);
      hide NobodyWaits;
      WakingCleared(z.y, z.want, z.y, Nothing);
    } else {
      TestedWaking(z, k);
    }
  }

  lemma TestedWaking(z: LockSys, k: Lock)
    requires WakingOk(z.y, z.want) && FreeOk(z.y, z.owner, z.want) && Free(z.y) && Want(z.want, z.y.s.cur) == Waking(k)
    ensures var y' := z.y.(phase := Signalling(LockCond(k))); WakingOk(y', z.want) && FreeOk(y', z.owner, z.want)
  {
    var y' := z.y.(phase := Signalling(LockCond(k)));
    forall j | Owner(z.owner, j) == FREE ensures NobodyWaits(y', j) || Want(z.want, y'.s.cur) == Waking(j) {
      assert NobodyWaits(z.y, j) ==> NobodyWaits(y', j);
    }
  }

  lemma WakeSpliceKeeps(z: LockSys)
    requires LockInv(z) && LockEnabled(z, WakeSplice)
    ensures LockInv(LockApply(z, WakeSplice))
  {
    hide Inv, OwnerOk, Blocked, WakingOk, FreeOk;
    OwnersStep(z, SignalSplice);
    SpliceFrees(z);
    WakingCleared(z.y, z.want, Apply(z.y, SignalSplice), Nothing);
    InvTables(z.y);
    SpliceWants(z);
  }

  lemma SpliceFrees(z: LockSys)
    requires FreeOk(z.y, z.owner, z.want) && WakingOk(z.y, z.want) && LockEnabled(z, WakeSplice)
    ensures var z' := LockApply(z, WakeSplice); FreeOk(z'.y, z'.owner, z'.want)
  {
  }

  lemma SpliceWants(z: LockSys)
    requires WantOk(z.y.s.thr, z.want) && WaitOk(z.y) && WakingOk(z.y, z.want) && LockEnabled(z, WakeSplice)
    ensures WantOk(LockApply(z, WakeSplice).y.s.thr, LockApply(z, WakeSplice).want)
  {
    hide WaitOk, Apply, Blocked;
    var z' := LockApply(z, WakeSplice);
    assert Want(z.want, z.y.s.cur).Waking?;
    forall t, k | Blocked(z'.y.s.thr, t, k) ensures Want(z'.want, t) == Wants(k) {
      OtherBlocked(z.y, SignalSplice, k);
    }
  }

  // ---------------------------------------------------------------- whole runs

  ghost predicate LockRun(z: LockSys, run: seq<LockLabel>)
    decreases |run|
  {
    run != [] ==> LockEnabled(z, run[0]) && LockRun(LockApply(z, run[0]), run[1..])
  }

  ghost function LockAfter(z: LockSys, run: seq<LockLabel>): LockSys
    requires LockRun(z, run)
    decreases |run|
  {
    if run == [] then z else LockAfter(LockApply(z, run[0]), run[1..])
  }

  lemma LockStepKeeps(z: LockSys, a: LockLabel)
    requires LockInv(z) && LockEnabled(z, a)
    ensures LockInv(LockApply(z, a))
  {
    hide LockInv;
    match a
    case Other(l) => OtherKeeps(z, l);
    case Acquire(k) => if Owner(z.owner, k) == FREE { TakeKeeps(z, k); } else { BlockKeeps(z, k); }
    case Release(k) => ReleaseKeeps(z, k);
    case WakeTest(k) => WakeTestKeeps(z, k);
    case WakeSplice => WakeSpliceKeeps(z);
  }

  lemma {:induction false} LockRunKeeps(z: LockSys, run: seq<LockLabel>)
    requires LockInv(z) && LockRun(z, run)
    ensures LockInv(LockAfter(z, run))
    decreases |run|
  {
    hide LockInv, LockEnabled, LockApply;
    if run != [] {
      LockStepKeeps(z, run[0]);
      LockRunKeeps(LockApply(z, run[0]), run[1..]);
    }
  }

  lemma InitLockInv()
    ensures LockInv(LockInit())
  {
    hide Inv;
    InitInv();
    var z := LockInit();
    assert forall c :: Queue(z.y.s.queues, WaitList(c)) == [];
    assert forall t, k :: Names(z.y.s, z.owner, z.held, t, k);
    assert forall k :: Owned(z.y.s, z.owner, z.held, k);
    assert forall t, k :: !Blocked(z.y.s.thr, t, k);
  }

  lemma LockReachable(run: seq<LockLabel>)
    requires LockRun(LockInit(), run)
    ensures LockInv(LockAfter(LockInit(), run))
  {
    hide LockInv, LockRun, LockAfter;
    InitLockInv();
    LockRunKeeps(LockInit(), run);
  }

  /** At most one thread is between acquire and release, and lk->tid is its tid: release's assertion holds. */
  lemma MutualExclusion(run: seq<LockLabel>, t: Ptr, u: Ptr, k: Lock)
    requires LockRun(LockInit(), run)
    requires k in Held(LockAfter(LockInit(), run).held, t) && k in Held(LockAfter(LockInit(), run).held, u)
    ensures t == u
    ensures var z := LockAfter(LockInit(), run); t in z.y.s.thr && Owner(z.owner, k) == z.y.s.thr[t].id
  {
    hide LockRun, LockAfter, Inv, WantOk, FreeOk, WakingOk;
    LockReachable(run);
    var z := LockAfter(LockInit(), run);
    InvTables(z.y);
    hide WaitOk;
    assert Names(z.y.s, z.owner, z.held, t, k) && Names(z.y.s, z.owner, z.held, u, k);
    assert z.y.s.thrtab[z.y.s.thr[t].id] == t && z.y.s.thrtab[z.y.s.thr[u].id] == u;
  }

  /** No lost wake-up: whoever waits for a lock, somebody holds it or is just about to wake the waiters. */
  lemma WaitersHaveHolder(run: seq<LockLabel>, t: Ptr, k: Lock)
    requires LockRun(LockInit(), run) && Blocked(LockAfter(LockInit(), run).y.s.thr, t, k)
    ensures var z := LockAfter(LockInit(), run);
      (exists u :: k in Held(z.held, u)) || Want(z.want, z.y.s.cur) == Waking(k)
  {
    hide LockRun, LockAfter, Inv, WantOk, WakingOk;
    LockReachable(run);
    var z := LockAfter(LockInit(), run);
    InvTables(z.y);
    BlockedWaits(z.y, t, k);
    hide TableOk, WaitOk;
    assert Owned(z.y.s, z.owner, z.held, k);
    assert Owner(z.owner, k) == FREE ==> Want(z.want, z.y.s.cur) == Waking(k);
  }

  lemma BlockedWaits(y: Sys, t: Ptr, k: Lock)
    requires Inv(y) && Blocked(y.s.thr, t, k)
    ensures !NobodyWaits(y, k)
  {
    hide TableOk, TreeOk, ReadyOk, DistinctOk, IdleOk, JoinsOk;
    assert t in Queue(y.s.queues, WaitList(LockCond(k))) || y.phase == Marked(LockCond(k));
  }

  /**
   In every run a thread outside the scheduler can go on with its lock call, or take any lock and
   release any it holds; and so can one inside the scheduler.
   */
  lemma LockNeverStuck(run: seq<LockLabel>)
    requires LockRun(LockInit(), run)
    ensures var z := LockAfter(LockInit(), run); var cur := z.y.s.cur;
      && (Free(z.y) && cur != IDLE ==>
            match Want(z.want, cur)
            case Nothing => (forall k: Lock :: LockEnabled(z, Acquire(k))) && forall k: Lock :: k in Held(z.held, cur) ==> LockEnabled(z, Release(k))
            case Wants(k) => LockEnabled(z, Acquire(k))
            case Waking(k) => LockEnabled(z, WakeTest(k)))
      && (z.y.phase.Signalling? ==> LockEnabled(z, if z.y.phase.cond.LockCond? then WakeSplice else Other(SignalSplice)))
      && (z.y.phase.Marked? ==> LockEnabled(z, Other(WaitEnqueue)))
      && (z.y.phase == Suspending ==> LockEnabled(z, Other(Suspend)))
      && (z.y.phase.Switching? ==> LockEnabled(z, Other(Switch)))
  {
    hide LockRun, LockAfter, Inv, OwnerOk, FreeOk, WakingOk, WantOk;
    LockReachable(run);
    var z := LockAfter(LockInit(), run);
    InvPhase(z.y);
    if z.y.phase == Suspending { InvCanSuspend(z.y); }
  }
}
