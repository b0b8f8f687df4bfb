/** The timer's code takes the steps of module Alarms. */
module KernelTimer {
  import opened Chains
  import opened Threads
  import opened Scheduler
  import opened Timer
  import opened Alarms
  import opened Kernel

  ghost predicate Shows(clk: AlarmClock, c: Clock)
    reads clk
  {
    clk.Valid() && clk.list == c.list && clk.twake == c.twake && clk.nextTick == c.nextTick && clk.mtcmp == c.mtcmp
  }

  lemma AllWaiting(y: Sys)
    requires Inv(y)
    ensures WaitersWaiting(y.s)
  {
    hide Inv;
    InvWaiters(y);
    assert forall c :: Waiters(y.s, c) == Queue(y.s.queues, WaitList(c));
  }

  lemma WakeTimeFits(c: Clock, al: Ptr)
    requires ClockOk(c)
    ensures Wake(c.twake, al) <= UINT64_MAX
  {
  }

  lemma NotSlept(z: AlarmSys, al: Ptr)
    requires AlarmInv(z) && z.mask == IntrOn && !Slept(z.y.s.thr, al)
    ensures al !in z.c.list
  {
  }

  /** One step of a run with alarms, taken by the code; mtime is what the hardware clock reads. */
  method PerformAlarm(clk: AlarmClock, at: Phase, a: AlarmLabel, mtime: nat, ghost z: AlarmSys) returns (next: Phase)
    requires Shows(clk, z.c) && clk.m.Valid() && clk.m.Abs() == z.y.s && at == z.y.phase && mtime == z.c.mtime
    requires AlarmInv(z) && AlarmEnabled(z, a)
    modifies clk, clk.m
    ensures clk.m.Valid() && clk.m.Abs() == AlarmApply(z, a).y.s && next == AlarmApply(z, a).y.phase
    ensures Shows(clk, AlarmApply(z, a).c)
  {
    hide Inv, ClockOk, MaskOk, SleepersOk, Slept, ListsOk, Disjoint, Chain, Sorted, Distinct, InsertSorted, WakeAlarms;
    match a
    case Other(l) => next := Perform(clk.m, at, l, z.y);
    case Pass(ticks) => next := at;
    case Reset(al) =>
      NotSlept(z, al);
      clk.AlarmReset(al, mtime);
      next := at;
    case Sleep(al, tcnt, now) =>
      NotSlept(z, al);
      WakeTimeFits(z.c, al);
      InsertFront(z.c.twake[al := Later(Wake(z.c.twake, al), tcnt)], z.c.list, al);
      var sleeps := clk.AlarmSleep(al, tcnt, now);
      next := at;
    case SleepWait(al) => next := Perform(clk.m, at, Wait(AlarmCond(al)), z.y);
    case Interrupt =>
      AllWaiting(z.y);
      var woken := clk.TimerIntrHandler(mtime);
      assert woken == Due(z.c) && clk.list == TickClock(z.c).list;
      next := at;
  }
}
