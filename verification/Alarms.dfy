/**
 Sleeping threads in whole runs: alarm_sleep and the timer handler (src/kern/timer.c:63-175) on top of
 the scheduler runs. alarm_sleep inserts its alarm, waits and suspends with interrupts off, so the
 handler's broadcast cannot come between the insertion and the wait.
 */
module Alarms {
  import opened Chains
  import opened Threads
  import opened Scheduler
  import opened Timer

  /** The timer's variables and the hardware clock; ticked records that the handler has run. */
  datatype Clock = Clock(list: seq<Ptr>, twake: map<Ptr, nat>, nextTick: nat, mtcmp: nat, mtime: nat, ticked: bool)

  /** Interrupts on, or off in alarm_sleep: with its alarm inserted, or from condition_wait to suspend_self. */
  datatype Mask = IntrOn | Inserted(al: Ptr) | IntrOff

  datatype AlarmSys = AlarmSys(y: Sys, c: Clock, mask: Mask)

  datatype AlarmLabel =
    | Other(l: Label)
    | Pass(ticks: nat)
    | Reset(al: Ptr)                          // alarm_init or alarm_reset
    | Sleep(al: Ptr, tcnt: nat, now: nat)     // alarm_sleep up to condition_wait; now was read earlier
    | SleepWait(al: Ptr)                      // its condition_wait
    | Interrupt                               // timer_intr_handler

  function AlarmInit(): AlarmSys { AlarmSys(Init(), Clock([], map[], 0, TICK_PERIOD, 0, false), IntrOn) }

  /** t is asleep on the alarm. */
  ghost predicate Sleeper(thr: map<Ptr, Tcb>, t: Ptr, al: Ptr) {
    t in thr && thr[t].state == WAITING && thr[t].waitCond == On(AlarmCond(al))
  }

  ghost predicate Slept(thr: map<Ptr, Tcb>, al: Ptr) { exists t :: Sleeper(thr, t, al) }

  /** Steps on an alarm's condition belong to the timer alone. */
  predicate OnAlarm(y: Sys, l: Label) {
    || ((l.Wait? || l.Signal? || l.SignalTest?) && l.cond.AlarmCond?)
    || (l == SignalSplice && y.phase.Signalling? && y.phase.cond.AlarmCond?)
  }

  /** The comparator interrupt is pending: mtime has reached mtcmp. */
  predicate Pending(c: Clock) { c.mtcmp <= c.mtime }

  /** An alarm is only used by a thread while no other sleeps on it. */
  ghost predicate AlarmEnabled(z: AlarmSys, a: AlarmLabel) {
    match a
    case Other(l) =>
      Enabled(z.y, l) && !OnAlarm(z.y, l) && !z.mask.Inserted? && (z.mask == IntrOff ==> l == WaitEnqueue || l == Suspend)
    case Pass(ticks) => z.c.mtime + ticks <= UINT64_MAX
    case Reset(al) => z.mask == IntrOn && Free(z.y) && al != NULL && !Slept(z.y.s.thr, al)
    case Sleep(al, tcnt, now) =>
      z.mask == IntrOn && Free(z.y) && z.y.s.cur != IDLE && al != NULL && !Slept(z.y.s.thr, al) && now <= z.c.mtime
    case SleepWait(al) => z.mask == Inserted(al) && Enabled(z.y, Wait(AlarmCond(al)))
    case Interrupt => z.mask == IntrOn && Pending(z.c)
  }

  /** The alarms a handler run at this moment wakes. */
  function Due(c: Clock): seq<Ptr> { c.list[..DueCount(c.twake, c.list, c.mtime)] }

  /** The effects of alarm_sleep's insertion on the timer's variables. */
  function SleepClock(c: Clock, al: Ptr, tcnt: nat, now: nat): Clock {
    var tw := c.twake[al := Later(Wake(c.twake, al), tcnt)];
    if Wake(tw, al) < now then c.(twake := tw)
    else
      var list := InsertSorted(tw, c.list, al);
      c.(twake := tw, list := list,
         mtcmp := if list != [] && list[0] == al && Wake(tw, al) < c.nextTick then Wake(tw, al) else c.mtcmp)
  }

  /** And of the handler. */
  function TickClock(c: Clock): Clock {
    var rest, next := c.list[|Due(c)|..], Next(c.nextTick, c.mtime);
    c.(list := rest, nextTick := next, mtcmp := Earliest(c.twake, rest, next), ticked := true)
  }

  ghost function AlarmApply(z: AlarmSys, a: AlarmLabel): AlarmSys
    requires AlarmEnabled(z, a)
  {
    match a
    case Other(l) => z.(y := Apply(z.y, l), mask := if l == Suspend then IntrOn else z.mask)
    case Pass(ticks) => z.(c := z.c.(mtime := z.c.mtime + ticks))
    case Reset(al) => z.(c := z.c.(twake := z.c.twake[al := z.c.mtime]))
    case Sleep(al, tcnt, now) =>
      var c' := SleepClock(z.c, al, tcnt, now);
      z.(c := c', mask := if Wake(c'.twake, al) < now then IntrOn else Inserted(al))
    case SleepWait(al) => z.(y := Apply(z.y, Wait(AlarmCond(al))), mask := IntrOff)
    case Interrupt => z.(y := z.y.(s := WakeAlarms(z.y.s, Due(z.c))), c := TickClock(z.c))
  }

  // ---------------------------------------------------------------- the invariant

  ghost predicate ClockOk(c: Clock) {
    && Sorted(c.twake, c.list) && Distinct(c.list)
    && (forall al :: al in c.twake ==> c.twake[al] <= UINT64_MAX) && c.mtime <= UINT64_MAX
    && (if c.ticked then c.mtcmp == Earliest(c.twake, c.list, c.nextTick) else c.nextTick == 0 && c.mtcmp == TICK_PERIOD)
  }

  /** With interrupts on, no thread is between marking itself asleep and joining the wait list. */
  ghost predicate MaskOk(z: AlarmSys) {
    match z.mask
    case IntrOn => !(z.y.phase.Marked? && z.y.phase.cond.AlarmCond?)
    case Inserted(al) => Free(z.y) && z.y.s.cur != IDLE && al != NULL && al in z.c.list && !Slept(z.y.s.thr, al)
    case IntrOff => z.y.phase.Marked? || z.y.phase == Suspending
  }

  /** The sleep list holds exactly the alarms slept on, each by one thread, and the one about to be. */
  ghost predicate SleepersOk(thr: map<Ptr, Tcb>, list: seq<Ptr>, mask: Mask) {
    && (forall t, al :: Sleeper(thr, t, al) ==> al in list)
    && (forall al :: al in list ==> mask == Inserted(al) || Slept(thr, al))
    && (forall t, u, al :: Sleeper(thr, t, al) && Sleeper(thr, u, al) ==> t == u)
  }

  ghost predicate AlarmInv(z: AlarmSys) {
    Inv(z.y) && ClockOk(z.c) && MaskOk(z) && SleepersOk(z.y.s.thr, z.c.list, z.mask)
  }

  // ---------------------------------------------------------------- the clock

  lemma SleepClockKeeps(c: Clock, al: Ptr, tcnt: nat, now: nat)
    requires ClockOk(c) && al !in c.list
    ensures ClockOk(SleepClock(c, al, tcnt, now))
    ensures var c' := SleepClock(c, al, tcnt, now);
      forall p :: p in c'.list <==> p in c.list || (p == al && now <= Wake(c'.twake, al))
  {
    hide InsertSorted, Distinct, Earliest;
    var tw := c.twake[al := Later(Wake(c.twake, al), tcnt)];
    assert Sorted(tw, c.list);
    hide Sorted;
    EarliestSame(c, tw, al);
    if now <= Wake(tw, al) {
      InsertKeepsSorted(tw, c.list, al);
      InsertElements(tw, c.list, al);
      InsertDistinct(tw, c.list, al);
      EarliestInserted(c, tw, al);
    }
  }

  /** An alarm off the list does not matter to the comparator. */
  lemma EarliestSame(c: Clock, tw: map<Ptr, nat>, al: Ptr)
    requires al !in c.list && tw == c.twake[al := Wake(tw, al)]
    ensures Earliest(tw, c.list, c.nextTick) == Earliest(c.twake, c.list, c.nextTick)
  {
  }

  /** Lowering the comparator for a new head keeps it the earliest wanted time. */
  lemma EarliestInserted(c: Clock, tw: map<Ptr, nat>, al: Ptr)
    requires al !in c.list
    ensures var list := InsertSorted(tw, c.list, al);
      var mtcmp := if list != [] && list[0] == al && Wake(tw, al) < c.nextTick then Wake(tw, al) else c.mtcmp;
      && (c.mtcmp == Earliest(tw, c.list, c.nextTick) ==> mtcmp == Earliest(tw, list, c.nextTick))
      && (c.nextTick == 0 ==> mtcmp == c.mtcmp)
  {
    hide InsertSorted;
    InsertFront(tw, c.list, al);
  }

  lemma {:induction false} InsertDistinct(twake: map<Ptr, nat>, list: seq<Ptr>, al: Ptr)
    requires Distinct(list) && al !in list
    ensures Distinct(InsertSorted(twake, list, al))
  {
    if list == [] || Wake(twake, al) <= Wake(twake, list[0]) {
      DistinctConcat([al], list);
    } else {
      InsertDistinct(twake, list[1..], al);
      InsertElements(twake, list[1..], al);
      DistinctConcat([list[0]], InsertSorted(twake, list[1..], al));
    }
  }

  lemma TickClockKeeps(c: Clock)
    requires ClockOk(c)
    ensures ClockOk(TickClock(c))
    ensures forall p :: p in c.list <==> p in Due(c) || p in TickClock(c).list
    ensures forall p :: p in Due(c) ==> p !in TickClock(c).list
  {
    hide DueCount;
    var n := DueCount(c.twake, c.list, c.mtime);
    assert c.list == c.list[..n] + c.list[n..];
  }

  /** A handler run wakes all that is due and nothing else. */
  lemma DueExactly(c: Clock, al: Ptr)
    requires ClockOk(c) && al in c.list
    ensures al in Due(c) <==> Wake(c.twake, al) <= c.mtime
  {
    DueIsAllDue(c.twake, c.list, c.mtime);
    hide DueCount, Sorted;
    var n := DueCount(c.twake, c.list, c.mtime);
    var i :| 0 <= i < |c.list| && c.list[i] == al;
    assert i < n ==> c.list[..n][i] == al;
  }

  // ---------------------------------------------------------------- scheduler steps

  /** Scheduler steps on other conditions neither wake a sleeper nor put one to sleep. */
  lemma OtherSleepers(y: Sys, l: Label, t: Ptr, al: Ptr)
    requires Inv(y) && Enabled(y, l) && !OnAlarm(y, l)
    ensures Sleeper(Apply(y, l).s.thr, t, al) <==> Sleeper(y.s.thr, t, al)
  {
    hide TableOk, DistinctOk, TreeOk, JoinsOk, IdleOk, ReadyOk;
    match l
    case Signal(c) => BroadcastSleepers(y, c, t, al);
    case SignalSplice => BroadcastSleepers(y, y.phase.cond, t, al);
    case ExitSignal => BroadcastSleepers(y, ChildExit(y.s.thr[y.s.cur].parent), t, al);
    case _ => QuietSleepers(y, l, t, al);
  }

  lemma BroadcastSleepers(y: Sys, c: Cond, t: Ptr, al: Ptr)
    requires WaitOk(y)
    ensures Sleeper(Broadcast(y.s, c).thr, t, al) <==> Sleeper(y.s.thr, t, al) && t !in Waiters(y.s, c)
    ensures t in Waiters(y.s, c) && Sleeper(y.s.thr, t, al) ==> c == AlarmCond(al)
  {
  }

  lemma QuietSleepers(y: Sys, l: Label, t: Ptr, al: Ptr)
    requires PhaseOk(y) && Enabled(y, l) && !OnAlarm(y, l) && !l.Signal? && !l.SignalSplice? && !l.ExitSignal?
    ensures Sleeper(Apply(y, l).s.thr, t, al) <==> Sleeper(y.s.thr, t, al)
  {
  }

  lemma OtherKeeps(z: AlarmSys, l: Label)
    requires AlarmInv(z) && AlarmEnabled(z, Other(l))
    ensures AlarmInv(AlarmApply(z, Other(l)))
  {
    hide Inv, ClockOk, Sleeper;
    StepKeeps(z.y, l);
    forall t, al ensures Sleeper(Apply(z.y, l).s.thr, t, al) <==> Sleeper(z.y.s.thr, t, al) {
      OtherSleepers(z.y, l, t, al);
    }
    SleepersFrame(z.y.s.thr, Apply(z.y, l).s.thr, z.c.list, z.mask, AlarmApply(z, Other(l)).mask);
  }

  lemma SleepersFrame(thr: map<Ptr, Tcb>, thr': map<Ptr, Tcb>, list: seq<Ptr>, mask: Mask, mask': Mask)
    requires SleepersOk(thr, list, mask) && !mask.Inserted? && !mask'.Inserted?
    requires forall t, al :: Sleeper(thr', t, al) <==> Sleeper(thr, t, al)
    ensures SleepersOk(thr', list, mask')
  {
    hide Sleeper;
    forall al | al in list ensures Slept(thr', al) {
      assert Slept(thr, al);
    }
  }

  // ---------------------------------------------------------------- the timer's steps

  lemma ResetKeeps(z: AlarmSys, al: Ptr)
    requires AlarmInv(z) && AlarmEnabled(z, Reset(al))
    ensures AlarmInv(AlarmApply(z, Reset(al)))
  {
    hide Inv, Slept, Distinct;
    assert al !in z.c.list;
  }

  lemma SleepKeeps(z: AlarmSys, al: Ptr, tcnt: nat, now: nat)
    requires AlarmInv(z) && AlarmEnabled(z, Sleep(al, tcnt, now))
    ensures AlarmInv(AlarmApply(z, Sleep(al, tcnt, now)))
  {
    hide Inv, Slept, ClockOk, SleepClock, Sleeper;
    assert al !in z.c.list;
    SleepClockKeeps(z.c, al, tcnt, now);
  }

  lemma SleepWaitKeeps(z: AlarmSys, al: Ptr)
    requires AlarmInv(z) && AlarmEnabled(z, SleepWait(al))
    ensures AlarmInv(AlarmApply(z, SleepWait(al)))
  {
    hide Inv, ClockOk;
    StepKeeps(z.y, Wait(AlarmCond(al)));
    InvPhase(z.y);
    NowAsleep(z, al);
  }

  /** The thread that inserted the alarm is its one sleeper. */
  lemma NowAsleep(z: AlarmSys, mine: Ptr)
    requires SleepersOk(z.y.s.thr, z.c.list, z.mask) && MaskOk(z) && AlarmEnabled(z, SleepWait(mine))
    requires z.y.s.cur in z.y.s.thr && z.y.s.thr[z.y.s.cur].state == RUNNING
    ensures SleepersOk(AlarmApply(z, SleepWait(mine)).y.s.thr, z.c.list, IntrOff)
  {
    var thr, thr', cur := z.y.s.thr, AlarmApply(z, SleepWait(mine)).y.s.thr, z.y.s.cur;
    forall t, al ensures Sleeper(thr', t, al) <==> Sleeper(thr, t, al) || (t == cur && al == mine) {}
    hide Sleeper;
    assert Sleeper(thr', cur, mine);
    forall al | al in z.c.list ensures Slept(thr', al) {
      if al != mine {
        assert Slept(thr, al);
        var t :| Sleeper(thr, t, al);
        assert Sleeper(thr', t, al);
      }
    }
    forall t, u, al | Sleeper(thr', t, al) && Sleeper(thr', u, al) ensures t == u {
      assert al == mine ==> !Sleeper(thr, t, al) && !Sleeper(thr, u, al);
    }
  }

  // ---------------------------------------------------------------- the handler

  /** Broadcasting alarm conditions keeps the scheduler's invariant and moves nothing but their waiters. */
  lemma {:induction false} WakeAlarmsKeeps(y: Sys, als: seq<Ptr>)
    requires Inv(y)
    ensures Inv(y.(s := WakeAlarms(y.s, als)))
    ensures WakeAlarms(y.s, als).cur == y.s.cur
    decreases |als|
  {
    hide Inv, Broadcast;
    if als != [] {
      var y1 := y.(s := Broadcast(y.s, AlarmCond(als[0])));
      SignalKeeps(y, AlarmCond(als[0]));
      SameCurrent(y.s, AlarmCond(als[0]));
      WakeAlarmsKeeps(y1, als[1..]);
    }
  }

  lemma SameCurrent(s: Sched, c: Cond)
    ensures Broadcast(s, c).cur == s.cur
  {
  }

  ghost predicate OneOf(s: Sched, als: seq<Ptr>, t: Ptr) {
    exists al :: al in als && t in Queue(s.queues, WaitList(AlarmCond(al)))
  }

  /** Exactly the waiters of those alarms become READY; no other record changes. */
  lemma {:induction false} WakeAlarmsThreads(y: Sys, als: seq<Ptr>, t: Ptr)
    requires Inv(y) && t in y.s.thr
    ensures t in WakeAlarms(y.s, als).thr
    ensures WakeAlarms(y.s, als).thr[t] == if OneOf(y.s, als, t) then y.s.thr[t].(state := READY, waitCond := NoCond) else y.s.thr[t]
    decreases |als|
  {
    if als != [] {
      var c := AlarmCond(als[0]);
      var y1 := y.(s := Broadcast(y.s, c));
      SignalKeeps(y, c);
      OneBroadcast(y, c, t);
      hide Inv, Broadcast;
      WakeAlarmsThreads(y1, als[1..], t);
      OneOfSplit(y, als, t);
    }
  }

  lemma OneBroadcast(y: Sys, c: Cond, t: Ptr)
    requires t in y.s.thr
    ensures t in Broadcast(y.s, c).thr
    ensures Broadcast(y.s, c).thr[t] == if t in Queue(y.s.queues, WaitList(c)) then y.s.thr[t].(state := READY, waitCond := NoCond) else y.s.thr[t]
    ensures forall d :: d != c ==> Queue(Broadcast(y.s, c).queues, WaitList(d)) == Queue(y.s.queues, WaitList(d))
    ensures Queue(Broadcast(y.s, c).queues, WaitList(c)) == []
  {
  }

  lemma OneOfSplit(y: Sys, als: seq<Ptr>, t: Ptr)
    requires Inv(y) && als != [] && t in y.s.thr
    ensures var s1 := Broadcast(y.s, AlarmCond(als[0]));
      && (OneOf(y.s, als, t) <==> t in Queue(y.s.queues, WaitList(AlarmCond(als[0]))) || OneOf(s1, als[1..], t))
      && (t in Queue(y.s.queues, WaitList(AlarmCond(als[0]))) ==> !OneOf(s1, als[1..], t))
  {
    hide Inv, Broadcast;
    var c, s1 := AlarmCond(als[0]), Broadcast(y.s, AlarmCond(als[0]));
    OneBroadcast(y, c, t);
    assert als == [als[0]] + als[1..];
    if OneOf(s1, als[1..], t) {
      var al :| al in als[1..] && t in Queue(s1.queues, WaitList(AlarmCond(al)));
      assert al in als && al != als[0] && t in Queue(y.s.queues, WaitList(AlarmCond(al)));
      OnOneList(y, t, c, AlarmCond(al));
    }
  }

  lemma OnOneList(y: Sys, t: Ptr, c: Cond, d: Cond)
    requires Inv(y) && t in Queue(y.s.queues, WaitList(d)) && c != d
    ensures t !in Queue(y.s.queues, WaitList(c))
  {
    hide TableOk, DistinctOk, TreeOk, JoinsOk, IdleOk, PhaseOk;
    if t in Queue(y.s.queues, WaitList(c)) {
      ListTells(y, WaitList(c), t);
      ListTells(y, WaitList(d), t);
    }
  }

  /** With interrupts on every sleeper is on its alarm's wait list. */
  lemma SleepersQueued(z: AlarmSys, t: Ptr, al: Ptr)
    requires Inv(z.y) && MaskOk(z) && z.mask == IntrOn
    ensures Sleeper(z.y.s.thr, t, al) <==> t in Queue(z.y.s.queues, WaitList(AlarmCond(al)))
  {
    hide TableOk, DistinctOk, TreeOk, JoinsOk, IdleOk, ReadyOk;
  }

  /** A handler run makes exactly the sleepers on due alarms READY and touches no other thread. */
  lemma HandlerWakes(z: AlarmSys, t: Ptr)
    requires AlarmInv(z) && AlarmEnabled(z, Interrupt) && t in z.y.s.thr
    ensures var thr' := AlarmApply(z, Interrupt).y.s.thr;
      && t in thr'
      && thr'[t] == if exists al :: Sleeper(z.y.s.thr, t, al) && Wake(z.c.twake, al) <= z.c.mtime
                    then z.y.s.thr[t].(state := READY, waitCond := NoCond) else z.y.s.thr[t]
  {
    hide Inv, Sleeper, WakeAlarms, Due;
    WakeAlarmsThreads(z.y, Due(z.c), t);
    forall al ensures Sleeper(z.y.s.thr, t, al) <==> t in Queue(z.y.s.queues, WaitList(AlarmCond(al))) { SleepersQueued(z, t, al); }
    TickClockKeeps(z.c);
    forall al | al in z.c.list ensures al in Due(z.c) <==> Wake(z.c.twake, al) <= z.c.mtime { DueExactly(z.c, al); }
    hide ClockOk;
  }

  lemma InterruptKeeps(z: AlarmSys)
    requires AlarmInv(z) && AlarmEnabled(z, Interrupt)
    ensures AlarmInv(AlarmApply(z, Interrupt))
  {
    hide Inv, WakeAlarms, ClockOk, TickClock;
    WakeAlarmsKeeps(z.y, Due(z.c));
    TickClockKeeps(z.c);
    InterruptSleepers(z);
  }

  lemma InterruptSleepers(z: AlarmSys)
    requires AlarmInv(z) && AlarmEnabled(z, Interrupt)
    ensures SleepersOk(AlarmApply(z, Interrupt).y.s.thr, TickClock(z.c).list, IntrOn)
  {
    hide Inv, WakeAlarms, TickClock;
    TickClockKeeps(z.c);
    forall t, al ensures Sleeper(AlarmApply(z, Interrupt).y.s.thr, t, al) <==> Sleeper(z.y.s.thr, t, al) && al !in Due(z.c) {
      AfterHandler(z, t, al);
    }
    hide Sleeper, ClockOk;
    var thr, thr' := z.y.s.thr, AlarmApply(z, Interrupt).y.s.thr;
    forall al | al in TickClock(z.c).list ensures Slept(thr', al) {
      assert Slept(thr, al);
      var t :| Sleeper(thr, t, al);
      assert Sleeper(thr', t, al);
    }
  }

  lemma AfterHandler(z: AlarmSys, t: Ptr, al: Ptr)
    requires AlarmInv(z) && AlarmEnabled(z, Interrupt)
    ensures Sleeper(AlarmApply(z, Interrupt).y.s.thr, t, al) <==> Sleeper(z.y.s.thr, t, al) && al !in Due(z.c)
  {
    hide Inv, WakeAlarms, ClockOk, Due;
    if Sleeper(z.y.s.thr, t, al) {
      HandlerWakes(z, t);
      assert al in z.c.list;
      DueExactly(z.c, al);
    } else if t in z.y.s.thr {
      HandlerWakes(z, t);
    } else {
      WakeNobodyNew(z.y.s, Due(z.c), t);
    }
  }

  lemma {:induction false} WakeNobodyNew(s: Sched, als: seq<Ptr>, t: Ptr)
    requires t !in s.thr
    ensures t !in WakeAlarms(s, als).thr
    decreases |als|
  {
    if als != [] {
      WakeNobodyNew(Broadcast(s, AlarmCond(als[0])), als[1..], t);
    }
  }

  // ---------------------------------------------------------------- whole runs

  lemma PassKeeps(z: AlarmSys, ticks: nat)
    requires AlarmInv(z) && AlarmEnabled(z, Pass(ticks))
    ensures AlarmInv(AlarmApply(z, Pass(ticks)))
  {
    hide Inv, Distinct, Sorted, SleepersOk, Slept;
  }

  lemma AlarmStepKeeps(z: AlarmSys, a: AlarmLabel)
    requires AlarmInv(z) && AlarmEnabled(z, a)
    ensures AlarmInv(AlarmApply(z, a))
  {
    hide AlarmInv, AlarmEnabled, AlarmApply;
    match a
    case Other(l) => OtherKeeps(z, l);
    case Pass(ticks) => PassKeeps(z, ticks);
    case Reset(al) => ResetKeeps(z, al);
    case Sleep(al, tcnt, now) => SleepKeeps(z, al, tcnt, now);
    case SleepWait(al) => SleepWaitKeeps(z, al);
    case Interrupt => InterruptKeeps(z);
  }

  ghost predicate AlarmRun(z: AlarmSys, run: seq<AlarmLabel>)
    decreases |run|
  {
    run != [] ==> AlarmEnabled(z, run[0]) && AlarmRun(AlarmApply(z, run[0]), run[1..])
  }

  ghost function AlarmAfter(z: AlarmSys, run: seq<AlarmLabel>): AlarmSys
    requires AlarmRun(z, run)
    decreases |run|
  {
    if run == [] then z else AlarmAfter(AlarmApply(z, run[0]), run[1..])
  }

  lemma {:induction false} AlarmRunKeeps(z: AlarmSys, run: seq<AlarmLabel>)
    requires AlarmInv(z) && AlarmRun(z, run)
    ensures AlarmInv(AlarmAfter(z, run))
    decreases |run|
  {
    hide AlarmInv, AlarmEnabled, AlarmApply;
    if run != [] {
      AlarmStepKeeps(z, run[0]);
      AlarmRunKeeps(AlarmApply(z, run[0]), run[1..]);
    }
  }

  lemma AlarmReachable(run: seq<AlarmLabel>)
    requires AlarmRun(AlarmInit(), run)
    ensures AlarmInv(AlarmAfter(AlarmInit(), run))
  {
    hide Inv, AlarmRun, AlarmAfter;
    InitInv();
    assert forall t, al :: !Sleeper(AlarmInit().y.s.thr, t, al);
    hide Sleeper;
    assert AlarmInv(AlarmInit());
    hide AlarmInv;
    AlarmRunKeeps(AlarmInit(), run);
  }

  /**
   In every run the sleep list is sorted and, whenever interrupts are on, holds exactly the alarms
   some thread sleeps on, once each, and each for one thread.
   */
  lemma SleepListExact(run: seq<AlarmLabel>)
    requires AlarmRun(AlarmInit(), run)
    ensures var z := AlarmAfter(AlarmInit(), run);
      && Sorted(z.c.twake, z.c.list) && Distinct(z.c.list)
      && (z.mask == IntrOn ==> forall al :: al in z.c.list <==> Slept(z.y.s.thr, al))
      && (forall t, u, al :: Sleeper(z.y.s.thr, t, al) && Sleeper(z.y.s.thr, u, al) ==> t == u)
  {
    hide AlarmRun, AlarmAfter, Inv, Sleeper;
    AlarmReachable(run);
    var z := AlarmAfter(AlarmInit(), run);
    forall al | Slept(z.y.s.thr, al) ensures al in z.c.list {
      var t :| Sleeper(z.y.s.thr, t, al);
    }
  }

  /** A sleeper stops sleeping in a step exactly if that is a handler run at or after its wake time. */
  lemma WokenExactlyWhenDue(run: seq<AlarmLabel>, a: AlarmLabel, t: Ptr, al: Ptr)
    requires AlarmRun(AlarmInit(), run) && AlarmEnabled(AlarmAfter(AlarmInit(), run), a)
    requires Sleeper(AlarmAfter(AlarmInit(), run).y.s.thr, t, al)
    ensures var z := AlarmAfter(AlarmInit(), run);
      !Sleeper(AlarmApply(z, a).y.s.thr, t, al) <==> a == Interrupt && Wake(z.c.twake, al) <= z.c.mtime
  {
    hide AlarmRun, AlarmAfter, Inv;
    AlarmReachable(run);
    var z := AlarmAfter(AlarmInit(), run);
    match a
    case Other(l) => OtherSleepers(z.y, l, t, al);
    case SleepWait(_) => InvPhase(z.y);
    case Interrupt =>
      AfterHandler(z, t, al);
      DueExactly(z.c, al);
    case _ =>
  }

  /** In every run a handler run makes READY exactly the threads asleep on alarms with twake at most now. */
  lemma HandlerExact(run: seq<AlarmLabel>, t: Ptr)
    requires AlarmRun(AlarmInit(), run) && AlarmEnabled(AlarmAfter(AlarmInit(), run), Interrupt)
    requires t in AlarmAfter(AlarmInit(), run).y.s.thr
    ensures var z := AlarmAfter(AlarmInit(), run);
      var thr' := AlarmApply(z, Interrupt).y.s.thr;
      && t in thr'
      && thr'[t] == if exists al :: Sleeper(z.y.s.thr, t, al) && Wake(z.c.twake, al) <= z.c.mtime
                    then z.y.s.thr[t].(state := READY, waitCond := NoCond) else z.y.s.thr[t]
  {
    hide AlarmRun, AlarmAfter, AlarmInv, AlarmEnabled, AlarmApply, Sleeper;
    AlarmReachable(run);
    HandlerWakes(AlarmAfter(AlarmInit(), run), t);
  }

  /**
   The comparator is the least of the next tick and the wake times on the list exactly from the
   first timer interrupt on.
   */
  lemma ComparatorLaw(run: seq<AlarmLabel>)
    requires AlarmRun(AlarmInit(), run)
    ensures var c := AlarmAfter(AlarmInit(), run).c; IsMinimum(c.twake, c.list, c.nextTick, c.mtcmp) <==> c.ticked
  {
    hide AlarmRun, AlarmAfter, Inv, Sleeper, IsMinimum;
    AlarmReachable(run);
    var c := AlarmAfter(AlarmInit(), run).c;
    EarliestIsMinimum(c.twake, c.list, c.nextTick, c.mtcmp);
  }

  // ---------------------------------------------------------------- ticks

  /** One more period still fits into the clock's 64 bits. */
  predicate InTime(c: Clock) { c.mtime + TICK_PERIOD <= UINT64_MAX }

  /** Ticks are whole periods and never more than one period ahead. */
  ghost predicate TicksOk(c: Clock) {
    InTime(c) ==> c.nextTick % TICK_PERIOD == 0 && (c.nextTick == 0 || c.nextTick - TICK_PERIOD < c.mtime)
  }

  /** What a step does to next_tick: a handler run behind time adds one period, and nothing else changes it. */
  ghost predicate TickMoves(c: Clock, a: AlarmLabel, c': Clock) {
    c'.nextTick == if a == Interrupt && c.nextTick < c.mtime then c.nextTick + TICK_PERIOD else c.nextTick
  }

  lemma TickStep(z: AlarmSys, a: AlarmLabel)
    requires TicksOk(z.c) && AlarmEnabled(z, a)
    ensures TicksOk(AlarmApply(z, a).c)
    ensures InTime(z.c) ==> TickMoves(z.c, a, AlarmApply(z, a).c)
  {
    hide Slept, Due, Enabled, Apply, InsertSorted, Earliest, WakeAlarms;
    match a
    case Interrupt => PeriodsAdd(z.c.nextTick);
    case _ =>
  }

  lemma PeriodsAdd(t: nat)
    ensures t % TICK_PERIOD == 0 ==> (t + TICK_PERIOD) % TICK_PERIOD == 0
  {
  }

  lemma {:induction false} TickRun(z: AlarmSys, run: seq<AlarmLabel>)
    requires TicksOk(z.c) && AlarmRun(z, run)
    ensures TicksOk(AlarmAfter(z, run).c)
    decreases |run|
  {
    hide TicksOk, AlarmEnabled, AlarmApply;
    if run != [] {
      TickStep(z, run[0]);
      TickRun(AlarmApply(z, run[0]), run[1..]);
    }
  }

  /**
   In every run, until the clock's last period, next_tick is a whole number of periods and at most
   one period ahead, a handler run adds exactly one period if and only if next_tick is before mtime,
   and no other step moves it.
   */
  lemma TicksExact(run: seq<AlarmLabel>, a: AlarmLabel)
    requires AlarmRun(AlarmInit(), run) && AlarmEnabled(AlarmAfter(AlarmInit(), run), a)
    requires InTime(AlarmAfter(AlarmInit(), run).c)
    ensures var z := AlarmAfter(AlarmInit(), run);
      && z.c.nextTick % TICK_PERIOD == 0 && (z.c.nextTick == 0 || z.c.nextTick - TICK_PERIOD < z.c.mtime)
      && TickMoves(z.c, a, AlarmApply(z, a).c)
  {
    hide AlarmRun, AlarmAfter, AlarmEnabled, AlarmApply;
    TickRun(AlarmInit(), run);
    TickStep(AlarmAfter(AlarmInit(), run), a);
  }

  function Interrupts(n: nat): seq<AlarmLabel> {
    if n == 0 then [] else [Interrupt] + Interrupts(n - 1)
  }

  /** A run of n handler runs has caught up with the clock, one period each. */
  ghost predicate CaughtUp(z: AlarmSys, n: nat) {
    && AlarmRun(z, Interrupts(n))
    && var c' := AlarmAfter(z, Interrupts(n)).c;
    && c'.mtime == z.c.mtime && c'.mtime <= c'.nextTick
    && c'.nextTick == (if z.c.nextTick < z.c.mtime then z.c.nextTick + n * TICK_PERIOD else z.c.nextTick)
    && (Pending(c') <==> c'.nextTick == c'.mtime)
  }

  lemma OneHandlerRun(z: AlarmSys)
    requires AlarmInv(z) && AlarmEnabled(z, Interrupt) && TicksOk(z.c) && InTime(z.c)
    ensures var z' := AlarmApply(z, Interrupt);
      && AlarmInv(z') && z'.mask == IntrOn && z'.c.mtime == z.c.mtime && TicksOk(z'.c) && TickMoves(z.c, Interrupt, z'.c)
      && (z'.c.nextTick < z.c.mtime ==> Pending(z'.c))
      && (z.c.mtime <= z'.c.nextTick ==> (Pending(z'.c) <==> z'.c.nextTick == z.c.mtime))
  {
    hide AlarmInv, TicksOk;
    AlarmStepKeeps(z, Interrupt);
    TickStep(z, Interrupt);
    TickedPending(z);
  }

  lemma TickedPending(z: AlarmSys)
    requires AlarmInv(z) && AlarmEnabled(z, Interrupt)
    ensures var c' := TickClock(z.c);
      && c'.mtcmp <= c'.nextTick && (c'.mtcmp <= c'.mtime ==> c'.mtcmp == c'.nextTick)
  {
    hide Inv, SleepersOk, MaskOk, Next;
    var c, n := z.c, DueCount(z.c.twake, z.c.list, z.c.mtime);
    assert |Due(c)| == n;
    assert n < |c.list| ==> c.list[n..][0] == c.list[n];
  }

  lemma {:induction false} CatchUp(z: AlarmSys) returns (n: nat)
    requires AlarmInv(z) && AlarmEnabled(z, Interrupt) && TicksOk(z.c) && InTime(z.c)
    ensures n >= 1 && CaughtUp(z, n)
    decreases z.c.mtime - z.c.nextTick
  {
    hide AlarmInv, TicksOk, AlarmApply, AlarmRun, AlarmAfter, Pending;
    OneHandlerRun(z);
    var z' := AlarmApply(z, Interrupt);
    if z'.c.nextTick < z.c.mtime {
      var m := CatchUp(z');
      n := m + 1;
      OneStep(z, Interrupt, Interrupts(m));
    } else {
      n := 1;
      EmptyRun(z');
      assert Interrupts(1) == [Interrupt] + [];
      OneStep(z, Interrupt, []);
    }
  }

  /**
   In every run a pending timer interrupt catches up: while the clock stands still, n handler runs,
   each pending in its turn and adding one period, bring next_tick to the clock or past it, and then
   the interrupt is pending only in the one case that they are equal.
   */
  lemma TimerCatchesUp(run: seq<AlarmLabel>) returns (n: nat)
    requires AlarmRun(AlarmInit(), run) && InTime(AlarmAfter(AlarmInit(), run).c)
    requires AlarmEnabled(AlarmAfter(AlarmInit(), run), Interrupt)
    ensures n >= 1 && CaughtUp(AlarmAfter(AlarmInit(), run), n)
  {
    hide AlarmRun, AlarmAfter, AlarmEnabled, CaughtUp, AlarmInv;
    AlarmReachable(run);
    TickRun(AlarmInit(), run);
    n := CatchUp(AlarmAfter(AlarmInit(), run));
  }

  /**
   An overdue sleeper has its interrupt pending if and only if the handler has run before or a full
   tick has passed since boot; before that next_tick is zero and no alarm sets the comparator.
   */
  lemma OverdueIsPending(run: seq<AlarmLabel>, t: Ptr, al: Ptr)
    requires AlarmRun(AlarmInit(), run)
    requires var z := AlarmAfter(AlarmInit(), run); Sleeper(z.y.s.thr, t, al) && Wake(z.c.twake, al) <= z.c.mtime
    ensures var c := AlarmAfter(AlarmInit(), run).c; Pending(c) <==> c.ticked || TICK_PERIOD <= c.mtime
  {
    hide AlarmRun, AlarmAfter, Inv;
    AlarmReachable(run);
    var c := AlarmAfter(AlarmInit(), run).c;
    var i :| 0 <= i < |c.list| && c.list[i] == al;
    assert Wake(c.twake, c.list[0]) <= Wake(c.twake, c.list[i]);
  }

  /** And there is a run in which it has not, so the sleeper oversleeps. */
  lemma OversleepsBeforeFirstTick()
    ensures exists run :: AlarmRun(AlarmInit(), run) && var z := AlarmAfter(AlarmInit(), run);
      Sleeper(z.y.s.thr, MAIN, 7) && Wake(z.c.twake, 7) < z.c.mtime && z.mask == IntrOn && !Pending(z.c)
  {
    LastSteps();
    hide AlarmRun, AlarmAfter, AlarmEnabled, AlarmApply, Asleep, Pending;
    var z2 := Asleep();
    var z3 := AlarmApply(z2, Other(WaitEnqueue));
    var z4 := AlarmApply(z3, Other(Suspend));
    EmptyRun(AlarmApply(z4, Pass(10)));
    OneStep(z4, Pass(10), []);
    OneStep(z3, Other(Suspend), [Pass(10)] + []);
    OneStep(z2, Other(WaitEnqueue), [Other(Suspend)] + ([Pass(10)] + []));
    FirstSteps([Other(WaitEnqueue)] + ([Other(Suspend)] + ([Pass(10)] + [])));
  }

  /** Main sleeps, idle is switched to, and time passes. */
  lemma LastSteps()
    ensures AlarmEnabled(Asleep(), Other(WaitEnqueue))
    ensures AlarmEnabled(AlarmApply(Asleep(), Other(WaitEnqueue)), Other(Suspend))
    ensures var z4 := AlarmApply(AlarmApply(Asleep(), Other(WaitEnqueue)), Other(Suspend));
      && AlarmEnabled(z4, Pass(10))
      && var z := AlarmApply(z4, Pass(10));
      Sleeper(z.y.s.thr, MAIN, 7) && Wake(z.c.twake, 7) < z.c.mtime && z.mask == IntrOn && !Pending(z.c)
  {
    MainAsleep();
    Queueing();
    hide Asleep;
  }

  lemma Queueing()
    ensures var z := Asleep();
      && AlarmEnabled(z, Other(WaitEnqueue))
      && var z' := AlarmApply(z, Other(WaitEnqueue));
      && Ready(z'.y.s) == [IDLE] && z'.y.phase == Suspending && z'.mask == IntrOff && z'.y.s.cur == MAIN
      && z'.y.s.thr == z.y.s.thr && z'.c == z.c
  {
    MainAsleep();
    hide Asleep;
  }

  lemma MainAsleep()
    ensures var z := Asleep();
      && Ready(z.y.s) == [IDLE] && z.y.phase == Marked(AlarmCond(7)) && z.mask == IntrOff && z.y.s.cur == MAIN
      && z.y.s.thr == map[MAIN := Tcb(WAITING, MAIN_TID, NULL, On(AlarmCond(7))), IDLE := Tcb(READY, IDLE_TID, MAIN, NoCond)]
      && z.c == Clock([7], map[7 := 5], 0, TICK_PERIOD, 0, false)
  {
  }

  lemma FirstSteps(rest: seq<AlarmLabel>)
    requires AlarmRun(Asleep(), rest)
    ensures var run := [Sleep(7, 5, 0)] + ([SleepWait(7)] + rest); AlarmRun(AlarmInit(), run) && AlarmAfter(AlarmInit(), run) == AlarmAfter(Asleep(), rest)
  {
    hide AlarmRun, AlarmAfter;
    var z1 := AlarmApply(AlarmInit(), Sleep(7, 5, 0));
    assert Asleep() == AlarmApply(z1, SleepWait(7));
    hide Asleep, AlarmEnabled, AlarmApply;
    OneStep(z1, SleepWait(7), rest);
    OneStep(AlarmInit(), Sleep(7, 5, 0), [SleepWait(7)] + rest);
  }

  ghost function Asleep(): (z: AlarmSys)
    ensures AlarmEnabled(AlarmInit(), Sleep(7, 5, 0)) && AlarmEnabled(AlarmApply(AlarmInit(), Sleep(7, 5, 0)), SleepWait(7))
  {
    assert forall t, al :: !Sleeper(AlarmInit().y.s.thr, t, al);
    AlarmApply(AlarmApply(AlarmInit(), Sleep(7, 5, 0)), SleepWait(7))
  }

  lemma EmptyRun(z: AlarmSys)
    ensures AlarmRun(z, []) && AlarmAfter(z, []) == z
  {
  }

  lemma OneStep(z: AlarmSys, a: AlarmLabel, run: seq<AlarmLabel>)
    requires AlarmEnabled(z, a) && AlarmRun(AlarmApply(z, a), run)
    ensures AlarmRun(z, [a] + run) && AlarmAfter(z, [a] + run) == AlarmAfter(AlarmApply(z, a), run)
  {
    assert ([a] + run)[1..] == run;
  }

  /** The wake time of a sleeper is the requested sum, saturated at the largest time. */
  lemma SaturatedWake(z: AlarmSys, al: Ptr, tcnt: nat, now: nat)
    requires AlarmInv(z) && AlarmEnabled(z, Sleep(al, tcnt, now))
    ensures var z', sum := AlarmApply(z, Sleep(al, tcnt, now)), Wake(z.c.twake, al) + tcnt;
      && Wake(z'.c.twake, al) == (if sum <= UINT64_MAX then sum else UINT64_MAX)
      && (z'.mask == Inserted(al) <==> now <= Wake(z'.c.twake, al))
  {
    hide Inv, InsertSorted;
  }

  /**
   In every run a thread outside the scheduler can go to sleep on any alarm nobody sleeps on, and once
   interrupts are off it can go on until it is suspended; a pending interrupt comes when they are on.
   */
  lemma SleepNeverStuck(run: seq<AlarmLabel>, al: Ptr, tcnt: nat, now: nat)
    requires AlarmRun(AlarmInit(), run)
    ensures var z := AlarmAfter(AlarmInit(), run);
      match z.mask
      case IntrOn =>
        && (Free(z.y) && z.y.s.cur != IDLE && al != NULL && !Slept(z.y.s.thr, al) && now <= z.c.mtime ==> AlarmEnabled(z, Sleep(al, tcnt, now)))
        && (Pending(z.c) ==> AlarmEnabled(z, Interrupt))
      case Inserted(mine) => AlarmEnabled(z, SleepWait(mine))
      case IntrOff => AlarmEnabled(z, Other(if z.y.phase.Marked? then WaitEnqueue else Suspend))
  {
    hide AlarmRun, AlarmAfter, Inv, SleepersOk, ClockOk, Slept;
    AlarmReachable(run);
    var z := AlarmAfter(AlarmInit(), run);
    InvPhase(z.y);
    if z.y.phase == Suspending { InvCanSuspend(z.y); }
  }
}
