/**
 The scheduler as a step system over the abstract state of module Threads: the current thread
 and interrupt handlers take steps in any order, and what holds in every run is proved.

 The kernel switches threads only inside suspend_self; handlers can run wherever interrupts are
 on, so every operation is cut into steps at those points. Interrupts may be off over a longer
 stretch than a step; that only removes interleavings.
 */
module Scheduler {
  import opened Chains
  import opened Threads

  /** Where the current thread is. */
  datatype Phase =
    | InKernel              // outside the scheduler
    | Spawning(child: Ptr)  // between create_thread and tlinsert
    | Marked(cond: Cond)    // condition_wait: WAITING, not yet on the wait list
    | Signalling(cond: Cond) // condition_broadcast: list found not empty, interrupts not yet off
    | Exiting               // thread_exit: EXITED, parent not yet signalled
    | Announcing            // its broadcast: list found not empty, interrupts not yet off
    | Suspending            // entering suspend_self
    | Switching(next: Ptr)  // suspend_self: next chosen, context not yet switched

  /** The join call a thread is in the middle of, across suspensions. */
  datatype Call = NoCall | Joining(child: Ptr) | JoiningAny

  /** birth is history: the order in which threads were created. */
  datatype Sys = Sys(s: Sched, phase: Phase, call: map<Ptr, Call>, birth: map<Ptr, nat>, clock: nat)

  datatype Label =
    | Spawn(child: Ptr, tid: nat)
    | SpawnInsert
    | Wait(cond: Cond)
    | WaitEnqueue
    | Signal(cond: Cond)    // condition_broadcast from a handler, interrupts being off
    | SignalTest(cond: Cond) // condition_broadcast from a thread, its test of the list
    | SignalSplice
    | Yield
    | Exit
    | ExitTest
    | ExitSignal
    | Suspend
    | Switch
    | Join(child: Ptr)
    | JoinWait              // thread_join_any finds no exited child and waits
    | JoinReap(tid: nat)    // thread_join_any reaps the child in this slot

  function Init(): Sys {
    Sys(Boot(), InKernel, map[], map[MAIN := 0, IDLE := 1], 2)
  }

  function CallOf(y: Sys, t: Ptr): Call {
    if t in y.call then y.call[t] else NoCall
  }

  predicate FirstExited(s: Sched, tid: nat) {
    && 0 < tid < |s.thrtab| && IsExitedChild(s.thr, s.thrtab[tid], s.cur)
    && forall j :: 1 <= j < tid ==> !IsExitedChild(s.thr, s.thrtab[j], s.cur)
  }

  predicate HasChild(s: Sched) {
    exists j :: 1 <= j < |s.thrtab| && IsChild(s.thr, s.thrtab[j], s.cur)
  }

  predicate HasExitedChild(s: Sched) {
    exists j :: 1 <= j < |s.thrtab| && IsExitedChild(s.thr, s.thrtab[j], s.cur)
  }

  /** The suspend_self assertions (454, 463), and the requirement never to pick the suspending thread. */
  predicate CanSuspend(s: Sched) {
    && Ready(s) != []
    && Ready(s)[0] in s.thr && s.thr[Ready(s)[0]].state == READY
    && Ready(s)[0] != s.cur
  }

  predicate Free(y: Sys) {
    y.phase == InKernel && y.s.cur in y.s.thr && CallOf(y, y.s.cur) == NoCall
  }

  predicate Enabled(y: Sys, l: Label) {
    var s := y.s;
    match l
    case Spawn(child, tid) =>
      && Free(y) && s.cur != IDLE && child != NULL && child !in s.thr
      && 1 <= tid < |s.thrtab| && s.thrtab[tid] == NULL
      && forall j :: 1 <= j < tid ==> s.thrtab[j] != NULL
    case SpawnInsert => y.phase.Spawning?
    case Wait(c) => Free(y) && s.cur != IDLE && !c.ChildExit?
    case WaitEnqueue => y.phase.Marked?
    case Signal(c) => !c.ChildExit?
    case SignalTest(c) => Free(y) && !c.ChildExit?
    case SignalSplice => y.phase.Signalling?
    case Yield => Free(y) && (s.cur == IDLE ==> Ready(s) != [])
    case Exit => Free(y) && s.cur != IDLE && s.cur != MAIN
    case ExitTest => y.phase == Exiting && s.cur in s.thr
    case ExitSignal => y.phase == Announcing && s.cur in s.thr
    case Suspend => y.phase == Suspending && s.cur in s.thr && CanSuspend(s)
    case Switch => y.phase.Switching?
    case Join(child) =>
      && y.phase == InKernel && s.cur in s.thr && s.cur != IDLE
      && (CallOf(y, s.cur) == NoCall || CallOf(y, s.cur) == Joining(child))
      && IsChild(s.thr, child, s.cur) && 0 < s.thr[child].id < |s.thrtab| && s.thrtab[s.thr[child].id] == child
    case JoinWait => Free(y) && s.cur != IDLE && !HasExitedChild(s) && HasChild(s)
    case JoinReap(tid) =>
      && y.phase == InKernel && s.cur in s.thr && s.cur != IDLE
      && (CallOf(y, s.cur) == NoCall || CallOf(y, s.cur) == JoiningAny) && FirstExited(s, tid)
  }

  function Apply(y: Sys, l: Label): Sys
    requires Enabled(y, l)
  {
    var s := y.s;
    match l
    case Spawn(child, tid) =>
      y.(s := Create(s, child, tid), phase := Spawning(child), birth := y.birth[child := y.clock], clock := y.clock + 1,
         call := y.call[child := NoCall])
    case SpawnInsert => y.(s := Insert(s, ReadyList, y.phase.child), phase := InKernel)
    case Wait(c) => y.(s := MarkWaiting(s, c), phase := Marked(c))
    case WaitEnqueue => y.(s := Insert(s, WaitList(y.phase.cond), s.cur), phase := Suspending)
    case Signal(c) => y.(s := Broadcast(s, c))
    case SignalTest(c) => if Waiters(s, c) == [] then y else y.(phase := Signalling(c))
    case SignalSplice => y.(s := Broadcast(s, y.phase.cond), phase := InKernel)
    case Yield => y.(phase := Suspending)
    case Exit => y.(s := SetState(s, s.cur, EXITED), phase := Exiting)
    case ExitTest =>
      if Waiters(s, ChildExit(s.thr[s.cur].parent)) == [] then y.(phase := Suspending) else y.(phase := Announcing)
    case ExitSignal => y.(s := Broadcast(s, ChildExit(s.thr[s.cur].parent)), phase := Suspending)
    case Suspend => y.(s := Dispatch(s), phase := Switching(Ready(s)[0]))
    case Switch => y.(s := s.(cur := y.phase.next), phase := InKernel)
    case Join(child) =>
      if s.thr[child].state == EXITED then y.(s := Recycle(s, s.thr[child].id), call := y.call[s.cur := NoCall])
      else y.(s := MarkWaiting(s, ChildExit(s.cur)), phase := Marked(ChildExit(s.cur)), call := y.call[s.cur := Joining(child)])
    case JoinWait =>
      y.(s := MarkWaiting(s, ChildExit(s.cur)), phase := Marked(ChildExit(s.cur)), call := y.call[s.cur := JoiningAny])
    case JoinReap(tid) => y.(s := Recycle(s, tid), call := y.call[s.cur := NoCall])
  }

  // ---------------------------------------------------------------- the invariant

  /** The table and the records name the same threads. */
  ghost predicate TableOk(thr: map<Ptr, Tcb>, thrtab: seq<Ptr>) {
    && |thrtab| == NTHR && thrtab[MAIN_TID] == MAIN && thrtab[IDLE_TID] == IDLE && NULL !in thr
    && (forall i :: 0 <= i < NTHR && thrtab[i] != NULL ==> thrtab[i] in thr && thr[thrtab[i]].id == i)
    && (forall t :: t in thr ==> thr[t].id < NTHR && thrtab[thr[t].id] == t)
  }

  ghost predicate DistinctOk(queues: map<ListId, seq<Ptr>>) {
    forall l :: Distinct(Queue(queues, l))
  }

  /** The ready list holds exactly the READY threads, but for one still being spawned. */
  ghost predicate ReadyOk(y: Sys) {
    forall t :: t in Ready(y.s) <==> t in y.s.thr && y.s.thr[t].state == READY && y.phase != Spawning(t)
  }

  /** Each wait list holds exactly its WAITING threads, but for one not yet enqueued. */
  ghost predicate WaitOk(y: Sys) {
    forall c, t :: t in Queue(y.s.queues, WaitList(c)) <==>
      t in y.s.thr && y.s.thr[t].state == WAITING && y.s.thr[t].waitCond == On(c) && !(y.phase.Marked? && t == y.s.cur)
  }

  ghost predicate PhaseOk(y: Sys) {
    var s := y.s;
    && s.cur in s.thr
    && (forall t :: t in s.thr && s.thr[t].state == RUNNING ==> t == if y.phase.Switching? then y.phase.next else s.cur)
    && match y.phase
       case InKernel => s.thr[s.cur].state == RUNNING
       case Spawning(child) =>
         s.thr[s.cur].state == RUNNING && s.cur != IDLE && child in s.thr && s.thr[child].state == READY && child != IDLE
       case Marked(c) => s.thr[s.cur].state == WAITING && s.thr[s.cur].waitCond == On(c)
       case Signalling(c) => s.thr[s.cur].state == RUNNING && CallOf(y, s.cur) == NoCall && !c.ChildExit?
       case Exiting => s.thr[s.cur].state == EXITED && s.cur != MAIN
       case Announcing => s.thr[s.cur].state == EXITED && s.cur != MAIN
       case Suspending => s.cur == IDLE ==> s.thr[IDLE].state == RUNNING && Ready(s) != []
       case Switching(next) => next in s.thr && s.thr[next].state == RUNNING && next != s.cur
  }

  /** idle never waits or exits, and a just-woken current thread is never at the head. */
  ghost predicate IdleOk(y: Sys) {
    var s := y.s;
    && IDLE in s.thr && MAIN in s.thr && s.thr[MAIN].state != EXITED
    && (s.thr[IDLE].state == READY || s.thr[IDLE].state == RUNNING)
    && (s.cur in Ready(s) && !y.phase.Switching? ==> Ready(s)[0] != s.cur)
  }

  /** Parents are live and older; only main has none. */
  ghost predicate TreeOk(thr: map<Ptr, Tcb>, birth: map<Ptr, nat>, clock: nat) {
    && (forall t :: t in thr ==> t in birth && birth[t] < clock)
    && (forall t :: t in thr && t != MAIN ==> thr[t].parent in thr && birth[thr[t].parent] < birth[t])
    && (MAIN in thr ==> thr[MAIN].parent == NULL)
  }

  predicate Ending(y: Sys) { y.phase == Exiting || y.phase == Announcing }

  /** c has exited but its broadcast is still to come. */
  ghost predicate Unannounced(y: Sys, c: Ptr) {
    Ending(y) && y.s.cur == c
  }

  /** What a join call in progress may rely on. */
  ghost predicate JoinOk(y: Sys, t: Ptr)
    requires t in y.s.thr
  {
    var thr := y.s.thr;
    var me := thr[t];
    && (me.state == WAITING && me.waitCond.On? && me.waitCond.cond.ChildExit? ==> me.waitCond.cond.owner == t && CallOf(y, t) != NoCall)
    && (CallOf(y, t) != NoCall ==> me.state != EXITED && t != IDLE && (me.state == WAITING ==> me.waitCond == On(ChildExit(t))))
    && match CallOf(y, t)
       case NoCall => true
       case Joining(c) => IsChild(thr, c, t) && (me.state == WAITING && IsExitedChild(thr, c, t) ==> Unannounced(y, c))
       case JoiningAny =>
         if me.state == WAITING then forall c :: IsExitedChild(thr, c, t) ==> Unannounced(y, c)
         else exists c :: IsExitedChild(thr, c, t)
  }

  ghost predicate JoinsOk(y: Sys) {
    forall t :: t in y.s.thr ==> JoinOk(y, t)
  }

  ghost predicate Inv(y: Sys) {
    && TableOk(y.s.thr, y.s.thrtab) && DistinctOk(y.s.queues) && TreeOk(y.s.thr, y.birth, y.clock)
    && ReadyOk(y) && WaitOk(y) && PhaseOk(y) && IdleOk(y) && JoinsOk(y)
  }

  // ---------------------------------------------------------------- every step keeps it

  lemma InitInv()
    ensures Inv(Init())
  {
    hide TreeOk, JoinsOk, DistinctOk, ReadyOk, WaitOk;
    InitLists();
    InitTree();
  }

  lemma InitLists()
    ensures DistinctOk(Init().s.queues) && ReadyOk(Init()) && WaitOk(Init())
  {
    assert Ready(Init().s) == [IDLE];
  }

  lemma InitTree()
    ensures TreeOk(Init().s.thr, Init().birth, Init().clock) && JoinsOk(Init())
  {
  }

  lemma InsertedDistinct(s: Sched, l: ListId, t: Ptr)
    requires DistinctOk(s.queues) && t !in Queue(s.queues, l)
    ensures DistinctOk(Insert(s, l, t).queues)
  {
    assert Distinct(Queue(s.queues, l)) && Distinct([t]);
    DistinctConcat(Queue(s.queues, l), [t]);
    hide Distinct;
    var s' := Insert(s, l, t);
    forall l' ensures Distinct(Queue(s'.queues, l')) { assert Distinct(Queue(s.queues, l')); }
  }

  /** A thread's join is unaffected by a step that leaves its record, its call and its exited children alone. */
  lemma JoinTransfer(y: Sys, y': Sys, t: Ptr)
    requires t in y.s.thr && t in y'.s.thr && JoinOk(y, t) && !Ending(y)
    requires CallOf(y', t) == CallOf(y, t)
    requires y'.s.thr[t].state == y.s.thr[t].state && y'.s.thr[t].waitCond == y.s.thr[t].waitCond
    requires forall c :: IsExitedChild(y'.s.thr, c, t) <==> IsExitedChild(y.s.thr, c, t)
    requires forall c :: IsChild(y.s.thr, c, t) ==> IsChild(y'.s.thr, c, t)
    ensures JoinOk(y', t)
  {
  }

  /** Steps that leave the thread records alone leave the joins alone. */
  lemma JoinsFrame(y: Sys, y': Sys)
    requires JoinsOk(y) && y'.s.thr == y.s.thr && y'.call == y.call && !Ending(y)
    ensures JoinsOk(y')
  {
    hide JoinOk, IsChild, IsExitedChild;
    forall t | t in y'.s.thr ensures JoinOk(y', t) { JoinTransfer(y, y', t); }
  }

  lemma SpawnKeeps(y: Sys, child: Ptr, tid: nat)
    requires Inv(y) && Enabled(y, Spawn(child, tid))
    ensures Inv(Apply(y, Spawn(child, tid)))
  {
    hide JoinsOk, DistinctOk, TreeOk, TableOk, ReadyOk, WaitOk, PhaseOk, IdleOk;
    SpawnTables(y, child, tid);
    SpawnPhase(y, child, tid);
    SpawnLists(y, child, tid);
    SpawnJoins(y, child, tid);
  }

  lemma SpawnPhase(y: Sys, child: Ptr, tid: nat)
    requires PhaseOk(y) && IdleOk(y) && Enabled(y, Spawn(child, tid))
    ensures PhaseOk(Apply(y, Spawn(child, tid))) && IdleOk(Apply(y, Spawn(child, tid)))
  {
  }

  lemma SpawnLists(y: Sys, child: Ptr, tid: nat)
    requires ReadyOk(y) && WaitOk(y) && Enabled(y, Spawn(child, tid))
    ensures ReadyOk(Apply(y, Spawn(child, tid))) && WaitOk(Apply(y, Spawn(child, tid)))
  {
  }

  lemma SpawnTables(y: Sys, child: Ptr, tid: nat)
    requires TableOk(y.s.thr, y.s.thrtab) && TreeOk(y.s.thr, y.birth, y.clock) && Enabled(y, Spawn(child, tid))
    ensures var y' := Apply(y, Spawn(child, tid)); TableOk(y'.s.thr, y'.s.thrtab) && TreeOk(y'.s.thr, y'.birth, y'.clock)
    ensures child != IDLE && child != MAIN
  {
  }

  lemma SpawnJoins(y: Sys, child: Ptr, tid: nat)
    requires JoinsOk(y) && TreeOk(y.s.thr, y.birth, y.clock) && Enabled(y, Spawn(child, tid))
    ensures JoinsOk(Apply(y, Spawn(child, tid)))
  {
    var y' := Apply(y, Spawn(child, tid));
    forall t | t in y'.s.thr ensures JoinOk(y', t) {
      if t != child { JoinTransfer(y, y', t); }
    }
  }

  lemma SpawnInsertKeeps(y: Sys)
    requires Inv(y) && Enabled(y, SpawnInsert)
    ensures Inv(Apply(y, SpawnInsert))
  {
    hide JoinsOk, DistinctOk, TreeOk, TableOk;
    InsertedDistinct(y.s, ReadyList, y.phase.child);
    JoinsFrame(y, Apply(y, SpawnInsert));
  }

  lemma YieldKeeps(y: Sys)
    requires Inv(y) && Enabled(y, Yield)
    ensures Inv(Apply(y, Yield))
  {
    hide JoinsOk, DistinctOk, TreeOk, TableOk;
    JoinsFrame(y, Apply(y, Yield));
  }

  lemma SwitchKeeps(y: Sys)
    requires Inv(y) && Enabled(y, Switch)
    ensures Inv(Apply(y, Switch))
  {
    hide JoinsOk, DistinctOk, TreeOk, TableOk;
    JoinsFrame(y, Apply(y, Switch));
  }

  lemma WaitEnqueueKeeps(y: Sys)
    requires Inv(y) && Enabled(y, WaitEnqueue)
    ensures Inv(Apply(y, WaitEnqueue))
  {
    hide JoinsOk, DistinctOk, TreeOk, TableOk;
    InsertedDistinct(y.s, WaitList(y.phase.cond), y.s.cur);
    JoinsFrame(y, Apply(y, WaitEnqueue));
  }

  /** Records that differ only in state and wait_cond. */
  ghost predicate SameShape(thr: map<Ptr, Tcb>, thr': map<Ptr, Tcb>) {
    && (forall t :: t in thr <==> t in thr')
    && (forall t :: t in thr ==> thr'[t].id == thr[t].id && thr'[t].parent == thr[t].parent)
  }

  lemma ShapeKeeps(y: Sys, thr': map<Ptr, Tcb>)
    requires SameShape(y.s.thr, thr') && TableOk(y.s.thr, y.s.thrtab) && TreeOk(y.s.thr, y.birth, y.clock)
    ensures TableOk(thr', y.s.thrtab) && TreeOk(thr', y.birth, y.clock)
  {
  }

  /** condition_wait's first half, for all three callers. */
  lemma MarkKeeps(y: Sys, c: Cond, call: map<Ptr, Call>)
    requires Inv(y) && y.phase == InKernel && y.s.cur != IDLE
    requires JoinsOk(y.(s := MarkWaiting(y.s, c), phase := Marked(c), call := call))
    ensures Inv(y.(s := MarkWaiting(y.s, c), phase := Marked(c), call := call))
  {
    hide JoinsOk, DistinctOk, TreeOk, TableOk, ReadyOk, WaitOk, PhaseOk, IdleOk;
    MarkPhase(y, c, call);
    ShapeKeeps(y, MarkWaiting(y.s, c).thr);
    MarkLists(y, c, call);
  }

  lemma MarkPhase(y: Sys, c: Cond, call: map<Ptr, Call>)
    requires ReadyOk(y) && PhaseOk(y) && IdleOk(y) && y.phase == InKernel && y.s.cur != IDLE
    ensures var y' := y.(s := MarkWaiting(y.s, c), phase := Marked(c), call := call);
            PhaseOk(y') && IdleOk(y') && SameShape(y.s.thr, y'.s.thr)
  {
  }

  lemma MarkLists(y: Sys, c: Cond, call: map<Ptr, Call>)
    requires ReadyOk(y) && WaitOk(y) && PhaseOk(y) && IdleOk(y) && y.phase == InKernel && y.s.cur != IDLE
    ensures var y' := y.(s := MarkWaiting(y.s, c), phase := Marked(c), call := call);
            ReadyOk(y') && WaitOk(y')
  {
  }

  lemma WaitKeeps(y: Sys, c: Cond)
    requires Inv(y) && Enabled(y, Wait(c))
    ensures Inv(Apply(y, Wait(c)))
  {
    hide DistinctOk, TreeOk, TableOk, ReadyOk, WaitOk;
    var y' := Apply(y, Wait(c));
    forall t | t in y'.s.thr ensures JoinOk(y', t) {
      assert JoinOk(y, t);
      if t != y.s.cur { JoinTransfer(y, y', t); }
    }
    MarkKeeps(y, c, y.call);
  }

  lemma JoinWaitKeeps(y: Sys)
    requires Inv(y) && Enabled(y, JoinWait)
    ensures Inv(Apply(y, JoinWait))
  {
    hide DistinctOk, TreeOk, ReadyOk, WaitOk;
    var y' := Apply(y, JoinWait);
    forall t | t in y'.s.thr ensures JoinOk(y', t) {
      assert JoinOk(y, t);
      if t != y.s.cur {
        JoinTransfer(y, y', t);
      } else {
        NoneExited(y.s);
        assert forall c :: IsExitedChild(y'.s.thr, c, t) ==> IsExitedChild(y.s.thr, c, t);
      }
    }
    MarkKeeps(y, ChildExit(y.s.cur), y'.call);
  }

  /** The table scan misses no child: every live thread but main sits in a slot from 1 up. */
  lemma NoneExited(s: Sched)
    requires TableOk(s.thr, s.thrtab) && MAIN in s.thr && s.thr[MAIN].state != EXITED && !HasExitedChild(s)
    ensures forall c :: !IsExitedChild(s.thr, c, s.cur)
  {
    forall c ensures !IsExitedChild(s.thr, c, s.cur) {
      if c in s.thr && c != MAIN {
        assert s.thrtab[s.thr[c].id] == c;
      }
    }
  }

  lemma JoinBlockKeeps(y: Sys, child: Ptr)
    requires Inv(y) && Enabled(y, Join(child)) && !IsExitedChild(y.s.thr, child, y.s.cur)
    ensures Inv(Apply(y, Join(child)))
  {
    hide DistinctOk, TreeOk, TableOk, ReadyOk, WaitOk;
    var y' := Apply(y, Join(child));
    forall t | t in y'.s.thr ensures JoinOk(y', t) {
      assert JoinOk(y, t);
      if t != y.s.cur { JoinTransfer(y, y', t); }
    }
    MarkKeeps(y, ChildExit(y.s.cur), y'.call);
  }

  lemma ExitKeeps(y: Sys)
    requires Inv(y) && Enabled(y, Exit)
    ensures Inv(Apply(y, Exit))
  {
    hide JoinsOk, DistinctOk, TreeOk, TableOk, ReadyOk, WaitOk, PhaseOk, IdleOk, SameShape;
    ExitPhase(y);
    ExitShape(y);
    ShapeKeeps(y, Apply(y, Exit).s.thr);
    ExitLists(y);
    ExitJoins(y);
  }

  lemma ExitPhase(y: Sys)
    requires ReadyOk(y) && PhaseOk(y) && IdleOk(y) && Enabled(y, Exit)
    ensures PhaseOk(Apply(y, Exit)) && IdleOk(Apply(y, Exit))
  {
  }

  lemma ExitShape(y: Sys)
    requires Enabled(y, Exit)
    ensures SameShape(y.s.thr, Apply(y, Exit).s.thr)
  {
  }

  lemma ExitLists(y: Sys)
    requires ReadyOk(y) && WaitOk(y) && PhaseOk(y) && Enabled(y, Exit)
    ensures ReadyOk(Apply(y, Exit)) && WaitOk(Apply(y, Exit))
  {
  }

  lemma ExitJoins(y: Sys)
    requires JoinsOk(y) && PhaseOk(y) && Enabled(y, Exit)
    ensures JoinsOk(Apply(y, Exit))
  {
    var y' := Apply(y, Exit);
    var me := y.s.cur;
    forall t | t in y'.s.thr ensures JoinOk(y', t) {
      assert JoinOk(y, t);
      assert forall c :: IsExitedChild(y'.s.thr, c, t) ==> c == me || IsExitedChild(y.s.thr, c, t);
      assert forall c :: IsExitedChild(y.s.thr, c, t) ==> IsExitedChild(y'.s.thr, c, t);
    }
  }

  // Broadcast: a signal from a thread or handler, and the exit signal.

  lemma BroadcastDistinct(s: Sched, c: Cond)
    requires DistinctOk(s.queues) && forall t :: t in Waiters(s, c) ==> t !in Ready(s)
    ensures DistinctOk(Broadcast(s, c).queues)
  {
    var s' := Broadcast(s, c);
    assert Distinct([]);
    hide Distinct;
    forall l ensures Distinct(Queue(s'.queues, l)) {
      assert Distinct(Queue(s.queues, l)) && Distinct(Ready(s)) && Distinct(Waiters(s, c));
      DistinctConcat(Ready(s), Waiters(s, c));
    }
  }

  lemma BroadcastLists(y: Sys, c: Cond)
    requires ReadyOk(y) && WaitOk(y) && PhaseOk(y)
    ensures ReadyOk(y.(s := Broadcast(y.s, c))) && WaitOk(y.(s := Broadcast(y.s, c)))
    ensures forall t :: t in Waiters(y.s, c) ==> t !in Ready(y.s)
  {
    WaitersNotReady(y, c);
    hide ReadyOk, WaitOk, PhaseOk;
    BroadcastReady(y, c);
    BroadcastWait(y, c);
  }

  lemma WaitersNotReady(y: Sys, c: Cond)
    requires ReadyOk(y) && WaitOk(y)
    ensures forall t :: t in Waiters(y.s, c) ==> t !in Ready(y.s)
  {
  }

  lemma BroadcastReady(y: Sys, c: Cond)
    requires ReadyOk(y) && WaitOk(y) && PhaseOk(y)
    ensures ReadyOk(y.(s := Broadcast(y.s, c)))
  {
  }

  lemma BroadcastWait(y: Sys, c: Cond)
    requires WaitOk(y) && PhaseOk(y)
    ensures WaitOk(y.(s := Broadcast(y.s, c)))
  {
  }

  lemma BroadcastPhase(y: Sys, c: Cond)
    requires PhaseOk(y) && IdleOk(y) && ReadyOk(y) && WaitOk(y)
    ensures PhaseOk(y.(s := Broadcast(y.s, c))) && IdleOk(y.(s := Broadcast(y.s, c)))
  {
    BroadcastPlace(y, c);
    BroadcastIdle(y, c);
    hide PhaseOk, IdleOk;
  }

  lemma BroadcastPlace(y: Sys, c: Cond)
    requires PhaseOk(y) && WaitOk(y)
    ensures PhaseOk(y.(s := Broadcast(y.s, c)))
  {
  }

  lemma BroadcastIdle(y: Sys, c: Cond)
    requires PhaseOk(y) && IdleOk(y) && ReadyOk(y) && WaitOk(y)
    ensures IdleOk(y.(s := Broadcast(y.s, c)))
  {
    var s := y.s;
    if !y.phase.Switching? && s.cur in Waiters(s, c) {
      assert IDLE in Ready(s);
    }
  }

  lemma SignalKeeps(y: Sys, c: Cond)
    requires Inv(y) && !c.ChildExit?
    ensures Inv(y.(s := Broadcast(y.s, c)))
  {
    hide JoinsOk, DistinctOk, TreeOk, TableOk, ReadyOk, WaitOk, PhaseOk, IdleOk;
    BroadcastLists(y, c);
    BroadcastDistinct(y.s, c);
    BroadcastPhase(y, c);
    ShapeKeeps(y, Broadcast(y.s, c).thr);
    SignalJoins(y, c);
  }

  lemma SignalTestKeeps(y: Sys, c: Cond)
    requires Inv(y) && Enabled(y, SignalTest(c))
    ensures Inv(Apply(y, SignalTest(c)))
  {
    hide JoinsOk, DistinctOk, TreeOk, TableOk;
    JoinsFrame(y, y.(phase := Signalling(c)));
  }

  lemma SignalSpliceKeeps(y: Sys)
    requires Inv(y) && Enabled(y, SignalSplice)
    ensures Inv(Apply(y, SignalSplice))
  {
    hide JoinsOk, DistinctOk, TreeOk, TableOk, ReadyOk, WaitOk, PhaseOk, IdleOk, Broadcast;
    SplicesNamed(y);
    SignalKeeps(y, y.phase.cond);
    BackInKernel(y.(s := Broadcast(y.s, y.phase.cond)));
  }

  lemma SplicesNamed(y: Sys)
    requires PhaseOk(y) && y.phase.Signalling?
    ensures !y.phase.cond.ChildExit?
  {
  }

  lemma BackInKernel(y: Sys)
    requires PhaseOk(y) && IdleOk(y) && ReadyOk(y) && WaitOk(y) && JoinsOk(y) && y.phase.Signalling?
    ensures var y' := y.(phase := InKernel); PhaseOk(y') && IdleOk(y') && ReadyOk(y') && WaitOk(y') && JoinsOk(y')
  {
    hide JoinsOk;
    JoinsFrame(y, y.(phase := InKernel));
  }

  lemma SignalJoins(y: Sys, c: Cond)
    requires JoinsOk(y) && WaitOk(y) && !c.ChildExit?
    ensures JoinsOk(y.(s := Broadcast(y.s, c)))
  {
    var y' := y.(s := Broadcast(y.s, c));
    forall t | t in y'.s.thr ensures JoinOk(y', t) {
      assert JoinOk(y, t);
      assert forall u :: IsExitedChild(y'.s.thr, u, t) <==> IsExitedChild(y.s.thr, u, t);
    }
  }

  /** thread_exit's broadcast and what follows it, whether or not anybody was waiting. */
  function Announced(y: Sys): Sys
    requires y.s.cur in y.s.thr
  {
    y.(s := Broadcast(y.s, ChildExit(y.s.thr[y.s.cur].parent)), phase := Suspending)
  }

  lemma AnnouncedKeeps(y: Sys)
    requires Inv(y) && Ending(y) && y.s.cur in y.s.thr
    ensures Inv(Announced(y))
  {
    hide JoinsOk, DistinctOk, TreeOk, TableOk, ReadyOk, WaitOk, PhaseOk, IdleOk;
    var c := ChildExit(y.s.thr[y.s.cur].parent);
    BroadcastLists(y, c);
    BroadcastDistinct(y.s, c);
    BroadcastPhase(y, c);
    ShapeKeeps(y, Broadcast(y.s, c).thr);
    AnnouncedPhase(y.(s := Broadcast(y.s, c)));
    AnnouncedJoins(y);
  }

  lemma ExitTestKeeps(y: Sys)
    requires Inv(y) && Enabled(y, ExitTest)
    ensures Inv(Apply(y, ExitTest))
  {
    hide JoinsOk, DistinctOk, TreeOk, TableOk, ReadyOk, WaitOk, PhaseOk, IdleOk;
    AnnouncedKeeps(y);
    StillUnannounced(y);
    StillExited(y);
  }

  lemma StillExited(y: Sys)
    requires ReadyOk(y) && WaitOk(y) && PhaseOk(y) && IdleOk(y) && y.phase == Exiting
    ensures var y' := y.(phase := Announcing); ReadyOk(y') && WaitOk(y') && PhaseOk(y') && IdleOk(y')
  {
  }

  lemma StillUnannounced(y: Sys)
    requires JoinsOk(y) && y.phase == Exiting
    ensures JoinsOk(y.(phase := Announcing))
  {
    var y' := y.(phase := Announcing);
    forall t | t in y'.s.thr ensures JoinOk(y', t) {
      assert JoinOk(y, t);
      assert forall c :: Unannounced(y', c) <==> Unannounced(y, c);
    }
  }

  lemma AnnouncedPhase(y1: Sys)
    requires PhaseOk(y1) && IdleOk(y1) && ReadyOk(y1) && WaitOk(y1) && Ending(y1)
    ensures var y' := y1.(phase := Suspending); PhaseOk(y') && IdleOk(y') && ReadyOk(y') && WaitOk(y')
  {
  }

  lemma AnnouncedJoins(y: Sys)
    requires JoinsOk(y) && WaitOk(y) && PhaseOk(y) && Ending(y) && y.s.cur in y.s.thr
    ensures JoinsOk(Announced(y))
  {
    hide JoinOk, WaitOk, PhaseOk;
    var y' := Announced(y);
    forall t | t in y'.s.thr ensures JoinOk(y', t) {
      assert JoinOk(y, t);
      if t == y.s.thr[y.s.cur].parent { AnnouncedParent(y, t); } else { AnnouncedOther(y, t); }
    }
  }

  /** The parent is woken whenever it waits in a join, and finds this child exited. */
  lemma AnnouncedParent(y: Sys, t: Ptr)
    requires WaitOk(y) && PhaseOk(y) && Ending(y) && y.s.cur in y.s.thr
    requires t in y.s.thr && JoinOk(y, t) && t == y.s.thr[y.s.cur].parent
    ensures t in Announced(y).s.thr && JoinOk(Announced(y), t)
  {
    var y' := Announced(y);
    assert IsExitedChild(y'.s.thr, y.s.cur, t);
    assert y.s.thr[t].state == WAITING && y.s.thr[t].waitCond == On(ChildExit(t)) ==> t in Waiters(y.s, ChildExit(t));
  }

  lemma AnnouncedOther(y: Sys, t: Ptr)
    requires WaitOk(y) && PhaseOk(y) && Ending(y) && y.s.cur in y.s.thr
    requires t in y.s.thr && JoinOk(y, t) && t != y.s.thr[y.s.cur].parent
    ensures t in Announced(y).s.thr && JoinOk(Announced(y), t)
  {
    var y' := Announced(y);
    var p := y.s.thr[y.s.cur].parent;
    assert t !in Waiters(y.s, ChildExit(p));
    assert forall u :: IsExitedChild(y'.s.thr, u, t) <==> IsExitedChild(y.s.thr, u, t);
  }

  lemma SuspendKeeps(y: Sys)
    requires Inv(y) && Enabled(y, Suspend)
    ensures Inv(Apply(y, Suspend))
  {
    hide JoinsOk, DistinctOk, TreeOk, TableOk, ReadyOk, WaitOk, PhaseOk, IdleOk;
    SuspendShape(y);
    ShapeKeeps(y, Dispatch(y.s).thr);
    SuspendDistinct(y);
    SuspendLists(y);
    SuspendJoins(y);
  }

  lemma SuspendShape(y: Sys)
    requires PhaseOk(y) && IdleOk(y) && ReadyOk(y) && Enabled(y, Suspend)
    ensures SameShape(y.s.thr, Dispatch(y.s).thr)
    ensures PhaseOk(Apply(y, Suspend)) && IdleOk(Apply(y, Suspend))
  {
  }

  lemma SuspendDistinct(y: Sys)
    requires DistinctOk(y.s.queues) && ReadyOk(y) && PhaseOk(y) && Enabled(y, Suspend)
    ensures DistinctOk(Dispatch(y.s).queues)
  {
    var s := y.s;
    RemovedDistinct(s.queues, ReadyList);
    var s1 := SetState(s, Ready(s)[0], RUNNING).(queues := s.queues[ReadyList := Ready(s)[1..]]);
    if s1.thr[s.cur].state == RUNNING {
      assert s.cur !in Ready(s);
      InsertedDistinct(SetState(s1, s.cur, READY), ReadyList, s.cur);
    }
  }

  lemma RemovedDistinct(queues: map<ListId, seq<Ptr>>, l: ListId)
    requires DistinctOk(queues) && Queue(queues, l) != []
    ensures DistinctOk(queues[l := Queue(queues, l)[1..]])
  {
    var queues' := queues[l := Queue(queues, l)[1..]];
    forall l' ensures Distinct(Queue(queues', l')) { assert Distinct(Queue(queues, l')); }
  }

  lemma SuspendLists(y: Sys)
    requires ReadyOk(y) && WaitOk(y) && PhaseOk(y) && DistinctOk(y.s.queues) && Enabled(y, Suspend)
    ensures ReadyOk(Apply(y, Suspend)) && WaitOk(Apply(y, Suspend))
  {
    assert Distinct(Ready(y.s));
    HeadAndTail(Ready(y.s));
    SuspendReady(y);
    SuspendWait(y);
  }

  lemma HeadAndTail(s: seq<Ptr>)
    requires Distinct(s) && s != []
    ensures s[0] !in s[1..] && forall t :: t in s <==> t == s[0] || t in s[1..]
  {
  }

  lemma SuspendReady(y: Sys)
    requires ReadyOk(y) && PhaseOk(y) && Enabled(y, Suspend)
    requires var q := Ready(y.s); q[0] !in q[1..] && forall t :: t in q <==> t == q[0] || t in q[1..]
    ensures ReadyOk(Apply(y, Suspend))
  {
  }

  lemma SuspendWait(y: Sys)
    requires WaitOk(y) && PhaseOk(y) && Enabled(y, Suspend)
    ensures WaitOk(Apply(y, Suspend))
  {
  }

  lemma SuspendJoins(y: Sys)
    requires JoinsOk(y) && Enabled(y, Suspend)
    ensures JoinsOk(Apply(y, Suspend))
  {
    var y' := Apply(y, Suspend);
    forall t | t in y'.s.thr ensures JoinOk(y', t) {
      assert JoinOk(y, t);
      assert forall u :: IsExitedChild(y'.s.thr, u, t) <==> IsExitedChild(y.s.thr, u, t);
    }
  }

  lemma RecycleKeeps(y: Sys, tid: nat)
    requires Inv(y) && y.phase == InKernel && y.s.cur != IDLE
    requires 0 < tid < |y.s.thrtab| && IsExitedChild(y.s.thr, y.s.thrtab[tid], y.s.cur)
    ensures Inv(y.(s := Recycle(y.s, tid), call := y.call[y.s.cur := NoCall]))
  {
    hide JoinsOk, TreeOk, TableOk, ReadyOk, WaitOk;
    RecycleTables(y, tid);
    RecycleLists(y, tid);
    RecycleJoins(y, tid);
  }

  lemma RecycleTables(y: Sys, tid: nat)
    requires TableOk(y.s.thr, y.s.thrtab) && TreeOk(y.s.thr, y.birth, y.clock) && IdleOk(y)
    requires 0 < tid < |y.s.thrtab| && IsExitedChild(y.s.thr, y.s.thrtab[tid], y.s.cur)
    ensures var s' := Recycle(y.s, tid); TableOk(s'.thr, s'.thrtab) && TreeOk(s'.thr, y.birth, y.clock)
  {
    RecycleTable(y, tid);
    var thr, t := y.s.thr, y.s.thrtab[tid];
    var thr' := Recycle(y.s, tid).thr;
    hide TableOk;
    forall u | u in thr' && u != MAIN ensures thr'[u].parent in thr' && y.birth[thr'[u].parent] < y.birth[u] {
      InTable(y.s, u);
    }
  }

  lemma InTable(s: Sched, t: Ptr)
    requires TableOk(s.thr, s.thrtab) && t in s.thr && t != MAIN
    ensures t in s.thrtab[1..]
  {
    assert s.thrtab[1..][s.thr[t].id - 1] == t;
  }

  lemma RecycleTable(y: Sys, tid: nat)
    requires TableOk(y.s.thr, y.s.thrtab) && IdleOk(y)
    requires 0 < tid < |y.s.thrtab| && IsExitedChild(y.s.thr, y.s.thrtab[tid], y.s.cur)
    ensures TableOk(Recycle(y.s, tid).thr, Recycle(y.s, tid).thrtab)
  {
  }

  lemma RecycleLists(y: Sys, tid: nat)
    requires ReadyOk(y) && WaitOk(y) && y.phase == InKernel
    requires 0 < tid < |y.s.thrtab| && IsExitedChild(y.s.thr, y.s.thrtab[tid], y.s.cur)
    ensures var y' := y.(s := Recycle(y.s, tid), call := y.call[y.s.cur := NoCall]); ReadyOk(y') && WaitOk(y')
  {
  }

  lemma RecycleJoins(y: Sys, tid: nat)
    requires JoinsOk(y) && PhaseOk(y) && y.phase == InKernel
    requires 0 < tid < |y.s.thrtab| && IsExitedChild(y.s.thr, y.s.thrtab[tid], y.s.cur)
    ensures JoinsOk(y.(s := Recycle(y.s, tid), call := y.call[y.s.cur := NoCall]))
  {
    var y' := y.(s := Recycle(y.s, tid), call := y.call[y.s.cur := NoCall]);
    var gone := y.s.thrtab[tid];
    forall t | t in y'.s.thr ensures JoinOk(y', t) {
      assert JoinOk(y, t);
      if t != y.s.cur {
        assert forall u :: IsExitedChild(y'.s.thr, u, t) <==> IsExitedChild(y.s.thr, u, t);
      }
    }
  }

  lemma StepKeeps(y: Sys, l: Label)
    requires Inv(y) && Enabled(y, l)
    ensures Inv(Apply(y, l))
  {
    hide Inv;
    match l
    case Spawn(child, tid) => SpawnKeeps(y, child, tid);
    case SpawnInsert => SpawnInsertKeeps(y);
    case Wait(c) => WaitKeeps(y, c);
    case WaitEnqueue => WaitEnqueueKeeps(y);
    case Signal(c) => SignalKeeps(y, c);
    case SignalTest(c) => SignalTestKeeps(y, c);
    case SignalSplice => SignalSpliceKeeps(y);
    case Yield => YieldKeeps(y);
    case Exit => ExitKeeps(y);
    case ExitTest => ExitTestKeeps(y);
    case ExitSignal => AnnouncedKeeps(y);
    case Suspend => SuspendKeeps(y);
    case Switch => SwitchKeeps(y);
    case Join(child) =>
      if y.s.thr[child].state == EXITED { RecycleKeeps(y, y.s.thr[child].id); } else { JoinBlockKeeps(y, child); }
    case JoinWait => JoinWaitKeeps(y);
    case JoinReap(tid) => RecycleKeeps(y, tid);
  }

  // ---------------------------------------------------------------- whole runs

  ghost predicate ValidRun(y: Sys, run: seq<Label>)
    decreases |run|
  {
    run != [] ==> Enabled(y, run[0]) && ValidRun(Apply(y, run[0]), run[1..])
  }

  ghost function After(y: Sys, run: seq<Label>): Sys
    requires ValidRun(y, run)
    decreases |run|
  {
    if run == [] then y else After(Apply(y, run[0]), run[1..])
  }

  lemma {:induction false} RunKeeps(y: Sys, run: seq<Label>)
    requires Inv(y) && ValidRun(y, run)
    ensures Inv(After(y, run))
    decreases |run|
  {
    hide Inv, Enabled, Apply;
    if run != [] {
      StepKeeps(y, run[0]);
      RunKeeps(Apply(y, run[0]), run[1..]);
    }
  }

  lemma ReachableInv(run: seq<Label>)
    requires ValidRun(Init(), run)
    ensures Inv(After(Init(), run))
  {
    hide Inv;
    InitInv();
    RunKeeps(Init(), run);
  }

  /** In every run each list holds exactly the threads its name says, once, and on no other list. */
  lemma ListsExact(run: seq<Label>)
    requires ValidRun(Init(), run)
    ensures var y := After(Init(), run);
      && ReadyOk(y) && WaitOk(y) && Disjoint(y.s.queues) && DistinctOk(y.s.queues)
      && forall t, u :: t in y.s.thr && u in y.s.thr && y.s.thr[t].state == RUNNING && y.s.thr[u].state == RUNNING ==> t == u
  {
    ReachableInv(run);
    InvDisjoint(After(Init(), run));
  }

  lemma InvDisjoint(y: Sys)
    requires ReadyOk(y) && WaitOk(y)
    ensures Disjoint(y.s.queues)
  {
    forall l1, l2, t | t in Queue(y.s.queues, l1) && t in Queue(y.s.queues, l2) ensures l1 == l2 {
      ListTells(y, l1, t);
      ListTells(y, l2, t);
    }
  }

  /** A thread's own members tell which list it is on. */
  lemma ListTells(y: Sys, l: ListId, t: Ptr)
    requires ReadyOk(y) && WaitOk(y) && t in Queue(y.s.queues, l)
    ensures t in y.s.thr
    ensures l == if y.s.thr[t].state == WAITING && y.s.thr[t].waitCond.On? then WaitList(y.s.thr[t].waitCond.cond) else ReadyList
  {
    if l.ReadyList? {
      assert t in Ready(y.s);
    } else {
      assert l == WaitList(l.cond);
    }
  }

  /** The assertions of recycle_thread (429, 430). */
  predicate Recyclable(s: Sched, tid: nat) {
    0 < tid < NTHR && tid < |s.thrtab| && s.thrtab[tid] != NULL && s.thrtab[tid] in s.thr && s.thr[s.thrtab[tid]].state == EXITED
  }

  /**
   The assertions of the scheduler hold: suspend_self finds a READY thread other than the
   suspending one (454, 463), broadcast finds only threads waiting on its condition (366, 367),
   the thread that yields or waits is RUNNING (232, 335), an exiting thread has a live parent
   (217), only exited threads are recycled (429, 430), a thread_join_any that wakes up finds an
   exited child (277), and the thread switched to is RUNNING, so no exited one comes back (221).
   */
  lemma NeverPanics(run: seq<Label>)
    requires ValidRun(Init(), run)
    ensures var y := After(Init(), run);
      && (y.phase == Suspending ==> CanSuspend(y.s))
      && (forall c, t :: t in Waiters(y.s, c) ==> t in y.s.thr && y.s.thr[t].state == WAITING && y.s.thr[t].waitCond == On(c))
      && (y.phase == InKernel ==> y.s.cur in y.s.thr && y.s.thr[y.s.cur].state == RUNNING)
      && (Ending(y) ==> y.s.cur in y.s.thr && y.s.thr[y.s.cur].parent in y.s.thr && y.s.thr[y.s.cur].parent != NULL)
      && (forall tid :: Enabled(y, JoinReap(tid)) ==> Recyclable(y.s, tid))
      && (forall child :: Enabled(y, Join(child)) && y.s.thr[child].state == EXITED ==> Recyclable(y.s, y.s.thr[child].id))
      && (y.phase == InKernel && CallOf(y, y.s.cur) == JoiningAny ==> HasExitedChild(y.s))
      && (y.phase.Switching? ==> y.phase.next in y.s.thr && y.s.thr[y.phase.next].state == RUNNING)
  {
    hide Inv, ValidRun, After, CanSuspend, HasExitedChild;
    ReachableInv(run);
    var y := After(Init(), run);
    if y.phase == Suspending { InvCanSuspend(y); }
    if y.phase == InKernel && CallOf(y, y.s.cur) == JoiningAny { InvJoinAny(y); }
    InvWaiters(y);
    InvPhase(y);
    InvParent(y);
    forall tid | Enabled(y, JoinReap(tid)) ensures Recyclable(y.s, tid) { InvRecyclable(y, tid); }
    forall child | Enabled(y, Join(child)) && y.s.thr[child].state == EXITED ensures Recyclable(y.s, y.s.thr[child].id) {
      InvRecyclable(y, y.s.thr[child].id);
    }
  }

  lemma InvWaiters(y: Sys)
    requires Inv(y)
    ensures forall c, t :: t in Waiters(y.s, c) ==> t in y.s.thr && y.s.thr[t].state == WAITING && y.s.thr[t].waitCond == On(c)
  {
    hide ReadyOk, DistinctOk, IdleOk, JoinsOk, TableOk, PhaseOk, TreeOk;
  }

  lemma InvPhase(y: Sys)
    requires Inv(y)
    ensures y.s.cur in y.s.thr && (y.phase == InKernel ==> y.s.thr[y.s.cur].state == RUNNING)
    ensures y.phase.Switching? ==> y.phase.next in y.s.thr && y.s.thr[y.phase.next].state == RUNNING
  {
    hide ReadyOk, DistinctOk, IdleOk, JoinsOk, TableOk, WaitOk, TreeOk;
  }

  lemma InvParent(y: Sys)
    requires Inv(y)
    ensures Ending(y) ==> y.s.cur in y.s.thr && y.s.thr[y.s.cur].parent in y.s.thr && y.s.thr[y.s.cur].parent != NULL
  {
    hide ReadyOk, DistinctOk, IdleOk, JoinsOk, WaitOk;
  }

  lemma InvRecyclable(y: Sys, tid: nat)
    requires Inv(y) && tid < |y.s.thrtab| && 0 < tid && IsExitedChild(y.s.thr, y.s.thrtab[tid], y.s.cur)
    ensures Recyclable(y.s, tid)
  {
    hide ReadyOk, DistinctOk, IdleOk, JoinsOk, WaitOk, PhaseOk, TreeOk;
  }

  /** An exited thread stays exited until it is recycled, and is never switched to. */
  lemma ExitedStays(run: seq<Label>, l: Label, t: Ptr)
    requires ValidRun(Init(), run) && Enabled(After(Init(), run), l)
    requires var s := After(Init(), run).s; t in s.thr && s.thr[t].state == EXITED
    ensures var y' := Apply(After(Init(), run), l);
      && (t in y'.s.thr ==> y'.s.thr[t].state == EXITED)
      && y'.phase != Switching(t)
      && (y'.phase == InKernel ==> y'.s.cur != t)
  {
    hide ValidRun, After, Inv;
    ReachableInv(run);
    var y := After(Init(), run);
    InvWaiters(y);
    InvPhase(y);
    StepKeeps(y, l);
    InvPhase(Apply(y, l));
    ExitedStep(y, l, t);
  }

  lemma ExitedStep(y: Sys, l: Label, t: Ptr)
    requires Enabled(y, l) && t in y.s.thr && y.s.thr[t].state == EXITED && y.s.cur in y.s.thr
    requires forall c, u :: u in Waiters(y.s, c) ==> u in y.s.thr && y.s.thr[u].state == WAITING
    requires y.phase == InKernel ==> y.s.thr[y.s.cur].state == RUNNING
    ensures t in Apply(y, l).s.thr ==> Apply(y, l).s.thr[t].state == EXITED
  {
  }

  /**
   The two panics a caller can run into: thread_spawn's exactly when every slot is taken, and
   thread_join_any's exactly when the caller has no child. Otherwise the call has a step to take.
   */
  lemma PanicsExactly(run: seq<Label>, child: Ptr)
    requires ValidRun(Init(), run) && child != NULL && child !in After(Init(), run).s.thr
    requires Free(After(Init(), run)) && After(Init(), run).s.cur != IDLE
    ensures var y := After(Init(), run);
      && ((exists tid :: Enabled(y, Spawn(child, tid))) <==> !TableFull(y.s.thrtab))
      && ((Enabled(y, JoinWait) || exists tid :: Enabled(y, JoinReap(tid))) <==> exists t :: IsChild(y.s.thr, t, y.s.cur))
  {
    hide ValidRun, After, Inv;
    ReachableInv(run);
    var y := After(Init(), run);
    SpawnPossible(y, child);
    JoinPossible(y);
  }

  lemma SpawnPossible(y: Sys, child: Ptr)
    requires Free(y) && y.s.cur != IDLE && child != NULL && child !in y.s.thr
    ensures (exists tid :: Enabled(y, Spawn(child, tid))) <==> !TableFull(y.s.thrtab)
  {
    if !TableFull(y.s.thrtab) {
      var j :| 1 <= j < |y.s.thrtab| && y.s.thrtab[j] == NULL;
      var tid := LowestNull(y.s.thrtab, 1, j);
      assert Enabled(y, Spawn(child, tid));
    }
  }

  ghost function LowestNull(tab: seq<Ptr>, k: nat, j: nat): (tid: nat)
    requires 1 <= k <= j < |tab| && tab[j] == NULL && forall i :: 1 <= i < k ==> tab[i] != NULL
    ensures k <= tid <= j && tab[tid] == NULL && forall i :: 1 <= i < tid ==> tab[i] != NULL
    decreases j - k
  {
    if tab[k] == NULL then k else LowestNull(tab, k + 1, j)
  }

  lemma JoinPossible(y: Sys)
    requires Inv(y) && Free(y) && y.s.cur != IDLE
    ensures (Enabled(y, JoinWait) || exists tid :: Enabled(y, JoinReap(tid))) <==> exists t :: IsChild(y.s.thr, t, y.s.cur)
  {
    hide Inv;
    var s := y.s;
    ChildInTable(y);
    if HasExitedChild(s) {
      var j :| 1 <= j < |s.thrtab| && IsExitedChild(s.thr, s.thrtab[j], s.cur);
      var tid := LowestExited(s, 1, j);
      assert Enabled(y, JoinReap(tid));
      assert IsChild(s.thr, s.thrtab[j], s.cur);
    } else {
      assert Enabled(y, JoinWait) <==> HasChild(s);
    }
  }

  lemma ChildInTable(y: Sys)
    requires Inv(y) && y.s.cur in y.s.thr
    ensures HasChild(y.s) <==> exists t :: IsChild(y.s.thr, t, y.s.cur)
  {
    hide ReadyOk, DistinctOk, IdleOk, JoinsOk, WaitOk, PhaseOk;
    var s := y.s;
    if t :| IsChild(s.thr, t, s.cur) {
      assert t != MAIN && s.thrtab[s.thr[t].id] == t;
      assert s.thr[t].id != MAIN_TID;
    }
  }

  ghost function LowestExited(s: Sched, k: nat, j: nat): (tid: nat)
    requires 1 <= k <= j < |s.thrtab| && IsExitedChild(s.thr, s.thrtab[j], s.cur)
    requires forall i :: 1 <= i < k ==> !IsExitedChild(s.thr, s.thrtab[i], s.cur)
    ensures FirstExited(s, tid)
    decreases j - k
  {
    if IsExitedChild(s.thr, s.thrtab[k], s.cur) then k else LowestExited(s, k + 1, j)
  }

  lemma InvCanSuspend(y: Sys)
    requires Inv(y) && y.phase == Suspending
    ensures CanSuspend(y.s)
  {
    hide JoinsOk, TableOk, TreeOk, WaitOk;
    assert y.s.cur != IDLE ==> IDLE in Ready(y.s);
    assert Ready(y.s)[0] in Ready(y.s);
  }

  lemma InvJoinAny(y: Sys)
    requires Inv(y) && y.phase == InKernel && CallOf(y, y.s.cur) == JoiningAny
    ensures HasExitedChild(y.s)
  {
    hide TreeOk, WaitOk, ReadyOk, DistinctOk;
    assert JoinOk(y, y.s.cur);
    var c :| IsExitedChild(y.s.thr, c, y.s.cur);
    assert c != MAIN && y.s.thrtab[y.s.thr[c].id] == c;
  }

  /** In every reachable state the thread manager's methods are called as their preconditions ask. */
  lemma MethodPreconditions(run: seq<Label>)
    requires ValidRun(Init(), run)
    ensures var y := After(Init(), run); var s := y.s;
      && s.cur in s.thr && s.cur != NULL
      && (s.thr[s.cur].state == RUNNING || y.phase.Marked? ==> !Queued(s.queues, s.cur))
      && (y.phase.Spawning? ==> y.phase.child != NULL && !Queued(s.queues, y.phase.child))
      && (forall t :: t in s.thr ==> s.thr[t].parent != t)
      && (y.phase == Suspending ==> CanSuspend(s))
      && (forall c, t :: t in Waiters(s, c) ==> t in s.thr && s.thr[t].state == WAITING && s.thr[t].waitCond == On(c))
      && (forall child, tid :: Enabled(y, Spawn(child, tid)) ==> child !in s.thr)
      && (forall tid :: Enabled(y, JoinReap(tid)) ==> Recyclable(s, tid))
      && (forall child :: Enabled(y, Join(child)) && s.thr[child].state == EXITED ==> Recyclable(s, s.thr[child].id))
  {
    hide ValidRun, After, Inv, CanSuspend, Recyclable;
    ReachableInv(run);
    NeverPanics(run);
    var y := After(Init(), run);
    CurrentIsThread(y);
    forall t | Queued(y.s.queues, t) ensures OnListOk(y, t) {
      var l :| t in Queue(y.s.queues, l);
      OnList(y, t, l);
    }
  }

  ghost predicate OnListOk(y: Sys, t: Ptr) {
    && t in y.s.thr && (y.s.thr[t].state == READY || y.s.thr[t].state == WAITING)
    && (y.phase.Marked? ==> t != y.s.cur) && y.phase != Spawning(t)
  }

  lemma OnList(y: Sys, t: Ptr, l: ListId)
    requires Inv(y) && t in Queue(y.s.queues, l)
    ensures OnListOk(y, t)
  {
    hide TreeOk, DistinctOk, IdleOk, JoinsOk, TableOk;
    if l.ReadyList? {
      assert t in Ready(y.s);
    } else {
      assert l == WaitList(l.cond);
    }
  }

  lemma CurrentIsThread(y: Sys)
    requires Inv(y)
    ensures y.s.cur in y.s.thr && y.s.cur != NULL
    ensures y.phase.Spawning? ==> y.phase.child != NULL
    ensures forall t :: t in y.s.thr ==> y.s.thr[t].parent != t
  {
    hide ReadyOk, WaitOk, DistinctOk, IdleOk, JoinsOk;
  }

  ghost function Ancestor(thr: map<Ptr, Tcb>, t: Ptr, n: nat): Ptr
    decreases n
  {
    if n == 0 || t !in thr then t else Ancestor(thr, thr[t].parent, n - 1)
  }

  /** In every run the parent pointers of the live threads form a tree rooted at main. */
  lemma ParentTree(run: seq<Label>, t: Ptr)
    requires ValidRun(Init(), run) && t in After(Init(), run).s.thr
    ensures exists n: nat :: Ancestor(After(Init(), run).s.thr, t, n) == MAIN
  {
    ReachableInv(run);
    var y := After(Init(), run);
    ClimbToMain(y.s.thr, y.birth, y.clock, t);
  }

  lemma {:induction false} ClimbToMain(thr: map<Ptr, Tcb>, birth: map<Ptr, nat>, clock: nat, t: Ptr)
    requires TreeOk(thr, birth, clock) && t in thr
    ensures exists n: nat :: Ancestor(thr, t, n) == MAIN
    decreases birth[t]
  {
    if t == MAIN {
      assert Ancestor(thr, t, 0) == MAIN;
    } else {
      ClimbToMain(thr, birth, clock, thr[t].parent);
      var n: nat :| Ancestor(thr, thr[t].parent, n) == MAIN;
      assert Ancestor(thr, t, n + 1) == MAIN;
    }
  }

  /** In every run no thread stays blocked in a join on a child that has exited and been announced. */
  lemma NoJoinOnExited(run: seq<Label>, t: Ptr, c: Ptr)
    requires ValidRun(Init(), run)
    requires var y := After(Init(), run);
      && t in y.s.thr && y.s.thr[t].state == WAITING && IsExitedChild(y.s.thr, c, t)
      && (CallOf(y, t) == Joining(c) || CallOf(y, t) == JoiningAny)
    ensures Ending(After(Init(), run)) && After(Init(), run).s.cur == c
  {
    ReachableInv(run);
    var y := After(Init(), run);
    assert JoinOk(y, t);
  }

  // ---------------------------------------------------------------- bounded waiting

  function Suspends(run: seq<Label>): nat {
    if run == [] then 0 else (if run[0] == Suspend then 1 else 0) + Suspends(run[1..])
  }

  lemma StepFifo(y: Sys, l: Label)
    requires Enabled(y, l)
    ensures l != Suspend ==> Ready(y.s) <= Ready(Apply(y, l).s)
    ensures l == Suspend ==> Ready(y.s)[1..] <= Ready(Apply(y, l).s) && Apply(y, l).phase == Switching(Ready(y.s)[0])
  {
  }

  /** A waiting thread moves forward by exactly one place per suspend_self, whatever else happens. */
  lemma {:induction false} QueuePosition(y: Sys, run: seq<Label>, k: nat)
    requires ValidRun(y, run) && k < |Ready(y.s)| && Suspends(run) <= k
    ensures k - Suspends(run) < |Ready(After(y, run).s)|
    ensures Ready(After(y, run).s)[k - Suspends(run)] == Ready(y.s)[k]
    decreases |run|
  {
    hide Enabled, Apply;
    if run != [] {
      StepFifo(y, run[0]);
      var y' := Apply(y, run[0]);
      if run[0] == Suspend {
        assert Ready(y.s)[1..][k - 1] == Ready(y.s)[k];
        QueuePosition(y', run[1..], k - 1);
      } else {
        QueuePosition(y', run[1..], k);
      }
    }
  }

  /** The thread at index k is the one resumed by the (k+1)-th following suspend_self. */
  lemma ResumedInTurn(y: Sys, run: seq<Label>, k: nat)
    requires ValidRun(y, run) && k < |Ready(y.s)| && Suspends(run) == k && Enabled(After(y, run), Suspend)
    ensures Apply(After(y, run), Suspend).phase == Switching(Ready(y.s)[k])
  {
    hide Enabled, Apply;
    QueuePosition(y, run, k);
    StepFifo(After(y, run), Suspend);
  }

  lemma {:induction false} Pigeonhole(s: seq<Ptr>, tab: seq<Ptr>)
    requires Distinct(s) && forall t :: t in s ==> t in tab
    ensures |s| <= |tab|
    decreases |tab|
  {
    assert s == [] || s[0] in s;
    if tab != [] {
      var last, tab' := tab[|tab| - 1], tab[..|tab| - 1];
      assert tab == tab' + [last];
      if last in s {
        var i :| 0 <= i < |s| && s[i] == last;
        var s' := s[..i] + s[i + 1..];
        forall j | 0 <= j < |s'| ensures s'[j] in tab' {
          assert s'[j] == s[if j < i then j else j + 1];
          assert s'[j] in s;
        }
        Pigeonhole(s', tab');
      } else {
        Pigeonhole(s, tab');
      }
    }
  }

  /** So every ready thread runs again within NTHR dispatches. */
  lemma ReadyListBounded(run: seq<Label>)
    requires ValidRun(Init(), run)
    ensures |Ready(After(Init(), run).s)| <= NTHR
  {
    ReachableInv(run);
    var y := After(Init(), run);
    hide JoinsOk, TreeOk, WaitOk, PhaseOk;
    assert Distinct(Ready(y.s));
    forall t | t in Ready(y.s) ensures t in y.s.thrtab { assert y.s.thrtab[y.s.thr[t].id] == t; }
    Pigeonhole(Ready(y.s), y.s.thrtab);
  }

  // ---------------------------------------------------------------- no run gets stuck

  /** The next step of a thread that is in the middle of a kernel call. */
  predicate CanGoOn(y: Sys) {
    match y.phase
    case InKernel => true
    case Spawning(_) => Enabled(y, SpawnInsert)
    case Marked(_) => Enabled(y, WaitEnqueue)
    case Signalling(_) => Enabled(y, SignalSplice)
    case Exiting => Enabled(y, ExitTest)
    case Announcing => Enabled(y, ExitSignal)
    case Suspending => Enabled(y, Suspend)
    case Switching(_) => Enabled(y, Switch)
  }

  /** What a thread that is in no call may do; idle does not wait, and neither idle nor main exits. */
  ghost predicate MayCall(y: Sys) {
    var cur := y.s.cur;
    && (forall c: Cond :: !c.ChildExit? ==> Enabled(y, SignalTest(c)) && (cur != IDLE ==> Enabled(y, Wait(c))))
    && (cur != IDLE || Ready(y.s) != [] ==> Enabled(y, Yield))
    && (cur != IDLE && cur != MAIN ==> Enabled(y, Exit))
  }

  /**
   In every run the current thread can go on, whatever it is in the middle of: inside the scheduler, in
   a join that was woken, or outside, where it may make any call; and handlers may always signal.
   */
  lemma NeverStuck(run: seq<Label>)
    requires ValidRun(Init(), run)
    ensures var y := After(Init(), run);
      && CanGoOn(y) && (forall c: Cond :: !c.ChildExit? ==> Enabled(y, Signal(c)))
      && (y.phase == InKernel ==>
            match CallOf(y, y.s.cur)
            case NoCall => MayCall(y)
            case Joining(child) => Enabled(y, Join(child))
            case JoiningAny => exists tid :: Enabled(y, JoinReap(tid)))
  {
    hide ValidRun, After, Inv;
    ReachableInv(run);
    var y := After(Init(), run);
    InvPhase(y);
    if y.phase == Suspending { InvCanSuspend(y); }
    if y.phase == InKernel && CallOf(y, y.s.cur) == JoiningAny {
      InvJoinAny(y);
      RejoinAny(y);
    } else if y.phase == InKernel && CallOf(y, y.s.cur).Joining? {
      Rejoin(y, CallOf(y, y.s.cur).child);
    }
  }

  lemma RejoinAny(y: Sys)
    requires Inv(y) && y.phase == InKernel && CallOf(y, y.s.cur) == JoiningAny && HasExitedChild(y.s)
    ensures exists tid :: Enabled(y, JoinReap(tid))
  {
    hide TreeOk, WaitOk, ReadyOk, DistinctOk, IdleOk, TableOk;
    var s := y.s;
    assert JoinOk(y, s.cur);
    var j :| 1 <= j < |s.thrtab| && IsExitedChild(s.thr, s.thrtab[j], s.cur);
    var tid := LowestExited(s, 1, j);
    assert Enabled(y, JoinReap(tid));
  }

  lemma Rejoin(y: Sys, child: Ptr)
    requires Inv(y) && y.phase == InKernel && CallOf(y, y.s.cur) == Joining(child)
    ensures Enabled(y, Join(child))
  {
    hide WaitOk, ReadyOk, DistinctOk;
    assert JoinOk(y, y.s.cur);
    assert child != MAIN && y.s.thrtab[y.s.thr[child].id] == child;
  }
}
