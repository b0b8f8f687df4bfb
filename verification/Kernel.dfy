/**
 The code of module Threads takes the steps of module Scheduler: whatever a run of the step system
 does, the thread manager's methods do to the pointers.
 */
module Kernel {
  import opened Chains
  import opened Threads
  import opened Scheduler

  lemma NotQueued(y: Sys, t: Ptr)
    requires Inv(y)
    requires (t == y.s.cur && (y.phase.Marked? || (t in y.s.thr && y.s.thr[t].state == RUNNING))) || y.phase == Spawning(t)
    ensures !Queued(y.s.queues, t)
  {
    hide Inv;
    if Queued(y.s.queues, t) {
      var l :| t in Queue(y.s.queues, l);
      OnList(y, t, l);
    }
  }

  lemma WaitersWait(y: Sys, c: Cond)
    requires Inv(y)
    ensures forall t :: t in Queue(y.s.queues, WaitList(c)) ==> t in y.s.thr && y.s.thr[t].state == WAITING && y.s.thr[t].waitCond == On(c)
  {
    hide Inv;
    InvWaiters(y);
    assert Waiters(y.s, c) == Queue(y.s.queues, WaitList(c));
  }

  /**
   The test of thread_join, src/kern/thread.c:286-294; NULL stands for its -1 result, which it gives
   exactly if the caller has no child with that number.
   */
  method JoinTest(m: ThreadManager, tid: int, ghost y: Sys) returns (child: Ptr)
    requires m.Valid() && m.Abs() == y.s && Inv(y)
    ensures child == NULL <==> forall c :: IsChild(y.s.thr, c, y.s.cur) ==> y.s.thr[c].id != tid
    ensures child != NULL ==> IsChild(y.s.thr, child, y.s.cur) && y.s.thr[child].id == tid
  {
    ChildrenInTable(y);
    hide Inv;
    CurrentIsThread(y);
    if tid <= 0 || NTHR <= tid {
      return NULL;
    }
    child := m.thrtab[tid];
    if child == NULL || m.thr[child].parent != m.cur {
      child := NULL;
    }
  }

  /** Numbers and slots agree, and main, in slot 0, is nobody's child. */
  lemma ChildrenInTable(y: Sys)
    requires Inv(y)
    ensures NULL !in y.s.thr && |y.s.thrtab| == NTHR
    ensures forall c :: IsChild(y.s.thr, c, y.s.cur) ==> 0 < y.s.thr[c].id < NTHR && y.s.thrtab[y.s.thr[c].id] == c
    ensures forall i :: 0 <= i < NTHR && y.s.thrtab[i] != NULL ==> y.s.thrtab[i] in y.s.thr && y.s.thr[y.s.thrtab[i]].id == i
  {
    hide ReadyOk, WaitOk, DistinctOk, IdleOk, JoinsOk;
  }

  /** A turn of the loop of thread_join, src/kern/thread.c:281-305, for the thread number of a child. */
  method PerformJoin(m: ThreadManager, ghost child: Ptr, tid: nat, ghost y: Sys) returns (next: Phase)
    requires child in y.s.thr && tid == y.s.thr[child].id && Enabled(y, Join(child)) && m.Valid() && m.Abs() == y.s && Inv(y)
    modifies m
    ensures m.Valid() && m.Abs() == Apply(y, Join(child)).s && next == Apply(y, Join(child)).phase
  {
    hide Inv, Disjoint, Chain, Distinct, ListsOk, Reaped, Recycle;
    InvPhase(y);
    CurrentIsThread(y);
    ChildrenInTable(y);
    var found := JoinTest(m, tid, y);
    assert found == child;
    if m.thr[found].state == EXITED {
      InvRecyclable(y, tid);
      m.RecycleThread(tid);
      next := InKernel;
    } else {
      NotQueued(y, m.cur);
      m.WaitMark(ChildExit(m.cur));
      next := Marked(ChildExit(m.cur));
    }
  }

  /**
   One step of the current thread, the scheduler or a handler, taken by the code: at is where the
   current thread is, and the branches the code takes put it where the step system says.
   */
  method Perform(m: ThreadManager, at: Phase, l: Label, ghost y: Sys) returns (next: Phase)
    requires m.Valid() && m.Abs() == y.s && Inv(y) && Enabled(y, l) && at == y.phase
    modifies m
    ensures m.Valid() && m.Abs() == Apply(y, l).s && next == Apply(y, l).phase
  {
    hide Inv, Disjoint, Chain, Distinct, ListsOk;
    InvPhase(y);
    CurrentIsThread(y);
    match l
    case Spawn(child, tid) =>
      var slot := m.CreateThread(child);
      assert slot == tid;
      next := Spawning(child);
    case SpawnInsert =>
      NotQueued(y, at.child);
      m.TlInsert(ReadyList, at.child);
      next := InKernel;
    case Wait(c) =>
      NotQueued(y, m.cur);
      m.WaitMark(c);
      next := Marked(c);
    case WaitEnqueue =>
      NotQueued(y, m.cur);
      m.TlInsert(WaitList(at.cond), m.cur);
      next := Suspending;
    case Signal(c) =>
      WaitersWait(y, c);
      m.ConditionBroadcast(c);
      next := at;
    case SignalTest(c) =>
      var empty := m.TlEmpty(WaitList(c));
      next := if empty then at else Signalling(c);
    case SignalSplice =>
      WaitersWait(y, at.cond);
      m.WakeAll(at.cond);
      next := InKernel;
    case Yield => next := Suspending;
    case Exit =>
      m.MarkExited();
      next := Exiting;
    case ExitTest =>
      var empty := m.TlEmpty(WaitList(ChildExit(m.thr[m.cur].parent)));
      next := if empty then Suspending else Announcing;
    case ExitSignal =>
      WaitersWait(y, ChildExit(m.thr[m.cur].parent));
      m.WakeAll(ChildExit(m.thr[m.cur].parent));
      next := Suspending;
    case Suspend =>
      if m.thr[m.cur].state == RUNNING { NotQueued(y, m.cur); }
      var thread := m.SuspendSelf();
      next := Switching(thread);
    case Switch =>
      m.SwitchTo(at.next);
      next := InKernel;
    case Join(child) => next := PerformJoin(m, child, m.thr[child].id, y);
    case JoinWait =>
      NotQueued(y, m.cur);
      m.WaitMark(ChildExit(m.cur));
      next := Marked(ChildExit(m.cur));
    case JoinReap(tid) =>
      var found, children := m.ScanChildren();
      assert found == tid;
      InvRecyclable(y, tid);
      m.RecycleThread(found);
      next := InKernel;
  }

  /**
   Every run, executed: the pointers end up as disjoint acyclic chains with correct tails, holding
   what the step system says.
   */
  method Execute(run: seq<Label>) returns (m: ThreadManager)
    requires ValidRun(Init(), run)
    ensures fresh(m) && m.Valid() && m.Abs() == After(Init(), run).s
    ensures forall l :: Holds(m.listNext, ListOf(m.lists, l), Queue(After(Init(), run).s.queues, l))
    ensures Disjoint(After(Init(), run).s.queues)
  {
    m := new ThreadManager();
    var at := InKernel;
    ghost var y := Init();
    InitInv();
    hide Inv, Enabled, Apply, Holds, Disjoint;
    var i := 0;
    assert run[0..] == run;
    while i < |run|
      invariant 0 <= i <= |run| && fresh(m) && m.Valid() && Inv(y) && m.Abs() == y.s && at == y.phase
      invariant ValidRun(y, run[i..]) && After(y, run[i..]) == After(Init(), run)
    {
      assert run[i..][0] == run[i] && run[i..][1..] == run[i + 1..];
      at := Perform(m, at, run[i], y);
      StepKeeps(y, run[i]);
      y := Apply(y, run[i]);
      i := i + 1;
    }
    assert run[i..] == [];
  }
}
