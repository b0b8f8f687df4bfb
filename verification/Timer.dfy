/**
 Alarms and the timer interrupt (src/kern/timer.c): the sleep list threaded through the alarms and
 the comparator. Module Alarms is about whole runs.
 */
module Timer {
  import opened Chains
  import opened Threads

  const U64 := 0x1_0000_0000_0000_0000
  const UINT64_MAX := U64 - 1
  const TICK_PERIOD := 200000  // TIMER_FREQ / TICK_FREQ

  function Wake(twake: map<Ptr, nat>, al: Ptr): nat { if al in twake then twake[al] else 0 }

  ghost predicate Sorted(twake: map<Ptr, nat>, list: seq<Ptr>) {
    forall i, j :: 0 <= i < j < |list| ==> Wake(twake, list[i]) <= Wake(twake, list[j])
  }

  /** Ordered insertion, before alarms with an equal wake time. */
  function InsertSorted(twake: map<Ptr, nat>, list: seq<Ptr>, al: Ptr): seq<Ptr> {
    if list == [] || Wake(twake, al) <= Wake(twake, list[0]) then [al] + list
    else [list[0]] + InsertSorted(twake, list[1..], al)
  }

  lemma {:induction false} InsertSortedAt(twake: map<Ptr, nat>, list: seq<Ptr>, al: Ptr, p: nat)
    requires p <= |list| && forall i :: 0 <= i < p ==> Wake(twake, list[i]) < Wake(twake, al)
    requires p < |list| ==> Wake(twake, al) <= Wake(twake, list[p])
    ensures InsertSorted(twake, list, al) == list[..p] + [al] + list[p..]
    decreases p
  {
    if p == 0 {
      assert list[..0] + [al] + list[0..] == [al] + list;
    } else {
      InsertSortedAt(twake, list[1..], al, p - 1);
      assert list[..p] + [al] + list[p..] == [list[0]] + (list[1..][..p - 1] + [al] + list[1..][p - 1..]);
    }
  }

  lemma {:induction false} InsertElements(twake: map<Ptr, nat>, list: seq<Ptr>, al: Ptr)
    ensures multiset(InsertSorted(twake, list, al)) == multiset(list) + multiset{al}
    ensures forall p :: p in InsertSorted(twake, list, al) <==> p in list || p == al
  {
    if list != [] {
      InsertElements(twake, list[1..], al);
      assert list == [list[0]] + list[1..];
    }
  }

  /** al was put behind exactly the alarms with an earlier wake time. */
  ghost predicate PutInOrder(twake: map<Ptr, nat>, was: seq<Ptr>, al: Ptr, list: seq<Ptr>) {
    exists p: nat :: p <= |was| && list == was[..p] + [al] + was[p..] && Between(twake, was, al, p)
  }

  ghost predicate Between(twake: map<Ptr, nat>, was: seq<Ptr>, al: Ptr, p: nat)
    requires p <= |was|
  {
    (forall i :: 0 <= i < p ==> Wake(twake, was[i]) < Wake(twake, al)) && forall i :: p <= i < |was| ==> Wake(twake, al) <= Wake(twake, was[i])
  }

  lemma InsertedInOrder(twake: map<Ptr, nat>, list: seq<Ptr>, al: Ptr)
    requires Sorted(twake, list)
    ensures PutInOrder(twake, list, al, InsertSorted(twake, list, al))
  {
    var p := 0;
    while p < |list| && Wake(twake, list[p]) < Wake(twake, al)
      invariant 0 <= p <= |list| && forall i :: 0 <= i < p ==> Wake(twake, list[i]) < Wake(twake, al)
    {
      p := p + 1;
    }
    InsertSortedAt(twake, list, al, p);
    assert Between(twake, list, al, p);
  }

  lemma SortedCons(twake: map<Ptr, nat>, p: Ptr, list: seq<Ptr>)
    requires Sorted(twake, list) && forall q :: q in list ==> Wake(twake, p) <= Wake(twake, q)
    ensures Sorted(twake, [p] + list)
  {
  }

  lemma SortedTail(twake: map<Ptr, nat>, list: seq<Ptr>)
    requires Sorted(twake, list) && list != []
    ensures Sorted(twake, list[1..]) && forall q :: q in list[1..] ==> Wake(twake, list[0]) <= Wake(twake, q)
  {
  }

  lemma {:induction false} InsertKeepsSorted(twake: map<Ptr, nat>, list: seq<Ptr>, al: Ptr)
    requires Sorted(twake, list)
    ensures Sorted(twake, InsertSorted(twake, list, al))
  {
    if list == [] {
      assert InsertSorted(twake, list, al) == [al];
    } else {
      SortedTail(twake, list);
      hide Sorted;
      if Wake(twake, al) <= Wake(twake, list[0]) {
        assert list == [list[0]] + list[1..];
        SortedCons(twake, al, list);
      } else {
        InsertKeepsSorted(twake, list[1..], al);
        InsertElements(twake, list[1..], al);
        SortedCons(twake, list[0], InsertSorted(twake, list[1..], al));
      }
    }
  }

  lemma InsertFront(twake: map<Ptr, nat>, list: seq<Ptr>, al: Ptr)
    requires al !in list
    ensures InsertSorted(twake, list, al) != []
    ensures InsertSorted(twake, list, al)[0] == al <==> list == [] || Wake(twake, al) <= Wake(twake, list[0])
    ensures list == [] || Wake(twake, al) <= Wake(twake, list[0]) ==> InsertSorted(twake, list, al) == [al] + list
    ensures list != [] && Wake(twake, list[0]) < Wake(twake, al) ==> InsertSorted(twake, list, al)[0] == list[0]
  {
  }

  /** The number of leading alarms that are due: on a sorted list, of all alarms that are due. */
  function DueCount(twake: map<Ptr, nat>, list: seq<Ptr>, now: nat): (n: nat)
    ensures n <= |list|
    ensures forall i :: 0 <= i < n ==> Wake(twake, list[i]) <= now
    ensures n < |list| ==> now < Wake(twake, list[n])
  {
    if list == [] || Wake(twake, list[0]) > now then 0 else 1 + DueCount(twake, list[1..], now)
  }

  lemma {:induction false} DueIsAllDue(twake: map<Ptr, nat>, list: seq<Ptr>, now: nat)
    requires Sorted(twake, list)
    ensures forall i :: 0 <= i < |list| ==> (Wake(twake, list[i]) <= now <==> i < DueCount(twake, list, now))
  {
    var n := DueCount(twake, list, now);
    forall i | 0 <= i < |list| ensures Wake(twake, list[i]) <= now <==> i < n {
      assert i > n ==> Wake(twake, list[n]) <= Wake(twake, list[i]);
    }
  }

  lemma DueStep(twake: map<Ptr, nat>, list: seq<Ptr>, now: nat)
    ensures list == [] || now < Wake(twake, list[0]) ==> DueCount(twake, list, now) == 0
    ensures list != [] && Wake(twake, list[0]) <= now ==> DueCount(twake, list, now) == 1 + DueCount(twake, list[1..], now)
  {
  }

  /** The wake time alarm_sleep sets: the sum, saturated. */
  function Later(twake: nat, tcnt: nat): nat {
    if UINT64_MAX - twake < tcnt then UINT64_MAX else twake + tcnt
  }

  function Next(nextTick: nat, now: nat): nat {
    if nextTick < now then (nextTick + TICK_PERIOD) % U64 else nextTick
  }

  /** When the next interrupt is wanted. */
  function Earliest(twake: map<Ptr, nat>, list: seq<Ptr>, nextTick: nat): nat {
    if list != [] && Wake(twake, list[0]) < nextTick then Wake(twake, list[0]) else nextTick
  }

  /** v is no later than the next tick and every listed alarm, and is one of those times. */
  ghost predicate IsMinimum(twake: map<Ptr, nat>, list: seq<Ptr>, nextTick: nat, v: nat) {
    && v <= nextTick && (forall al :: al in list ==> v <= Wake(twake, al))
    && (v == nextTick || exists al :: al in list && v == Wake(twake, al))
  }

  lemma EarliestIsMinimum(twake: map<Ptr, nat>, list: seq<Ptr>, nextTick: nat, v: nat)
    requires Sorted(twake, list)
    ensures IsMinimum(twake, list, nextTick, v) <==> v == Earliest(twake, list, nextTick)
  {
    if list != [] {
      assert forall al :: al in list ==> Wake(twake, list[0]) <= Wake(twake, al);
      assert list[0] in list;
    }
  }

  // ---------------------------------------------------------------- waking

  /** Broadcasting the conditions of several alarms, one after the other. */
  function WakeAlarms(s: Sched, als: seq<Ptr>): Sched
    decreases |als|
  {
    if als == [] then s else WakeAlarms(Broadcast(s, AlarmCond(als[0])), als[1..])
  }

  ghost predicate WaitersWaiting(s: Sched) {
    forall c, t :: t in Queue(s.queues, WaitList(c)) ==> t in s.thr && s.thr[t].state == WAITING && s.thr[t].waitCond == On(c)
  }

  lemma BroadcastKeepsWaiting(s: Sched, c: Cond)
    requires WaitersWaiting(s)
    ensures WaitersWaiting(Broadcast(s, c))
  {
  }

  // ---------------------------------------------------------------- the code

  class AlarmClock {
    var alarmNext: map<Ptr, Ptr>
    var twake: map<Ptr, nat>
    var sleepList: Ptr
    var nextTick: nat
    var mtcmp: nat
    const m: ThreadManager
    ghost var list: seq<Ptr>

    ghost predicate Valid()
      reads this
    {
      Chain(alarmNext, sleepList, list) && Sorted(twake, list)
    }

    /** timer_init: next_tick stays zero, only the comparator is set. */
    constructor (threads: ThreadManager)
      ensures Valid() && list == [] && nextTick == 0 && mtcmp == TICK_PERIOD && twake == map[] && m == threads
    {
      alarmNext, twake, sleepList, nextTick, mtcmp, list, m := map[], map[], NULL, 0, TICK_PERIOD, [], threads;
    }

    /** alarm_init and alarm_reset, src/kern/timer.c:57-61, 137-139, for an alarm nobody sleeps on. */
    method AlarmReset(al: Ptr, now: nat)
      requires Valid() && al !in list
      modifies this`twake
      ensures Valid() && twake == old(twake)[al := now]
    {
      twake := twake[al := now];
    }

    /** alarm_sleep up to condition_wait, src/kern/timer.c:63-122. */
    method AlarmSleep(al: Ptr, tcnt: nat, now: nat) returns (sleeps: bool)
      requires Valid() && al != NULL && al !in list && Wake(twake, al) <= UINT64_MAX
      modifies this
      ensures Valid() && nextTick == old(nextTick)
      ensures twake == old(twake)[al := Later(Wake(old(twake), al), tcnt)]
      ensures sleeps <==> now <= Wake(twake, al)
      ensures list == if sleeps then InsertSorted(twake, old(list), al) else old(list)
      ensures sleeps ==> PutInOrder(twake, old(list), al, list)
      ensures mtcmp == if sleeps && list[0] == al && Wake(twake, al) < nextTick then Wake(twake, al) else old(mtcmp)
    {
      hide Chain, InsertSorted;
      var t := Wake(twake, al);
      if UINT64_MAX - t < tcnt {
        twake := twake[al := UINT64_MAX];
      } else {
        twake := twake[al := t + tcnt];
      }
      assert Sorted(twake, list);
      hide Sorted, PutInOrder;
      InsertedInOrder(twake, list, al);
      HeadOf(alarmNext, sleepList, list);
      InsertFront(twake, list, al);
      if Wake(twake, al) < now {
        return false;
      }
      ghost var list0 := list;
      InsertKeepsSorted(twake, list0, al);
      list := InsertSorted(twake, list0, al);
      if sleepList == NULL || Wake(twake, al) <= Wake(twake, sleepList) {
        PushFront(alarmNext, sleepList, list0, al);
        alarmNext := alarmNext[al := sleepList];
        sleepList := al;
        if Wake(twake, al) < nextTick {
          mtcmp := Wake(twake, al);
        }
      } else {
        LinkInOrder(al, list0);
      }
      return true;
    }

    static lemma HeadOf(next: map<Ptr, Ptr>, head: Ptr, s: seq<Ptr>)
      requires Chain(next, head, s)
      ensures if s == [] then head == NULL else head == s[0] && head != NULL
    {
    }

    static lemma PushFront(next: map<Ptr, Ptr>, head: Ptr, s: seq<Ptr>, al: Ptr)
      requires Chain(next, head, s) && al != NULL && al !in s
      ensures Chain(next[al := head], al, [al] + s)
    {
      var u := [al] + s;
      forall k | 0 <= k < |u| ensures Load(next[al := head], u[k]) == At(u, k + 1) {
        if k > 0 { assert Load(next, s[k - 1]) == At(s, k); }
      }
    }

    /** The insertion loop behind the head of the list, src/kern/timer.c:105-120. */
    method LinkInOrder(al: Ptr, ghost list0: seq<Ptr>)
      requires Chain(alarmNext, sleepList, list0) && al != NULL && al !in list0
      requires list0 != [] && Wake(twake, list0[0]) < Wake(twake, al)
      modifies this`alarmNext
      ensures Chain(alarmNext, sleepList, InsertSorted(twake, list0, al))
    {
      var prev := sleepList;
      ghost var k := 0;
      var linked := false;
      while Load(alarmNext, prev) != NULL && !linked
        invariant 0 <= k < |list0| && prev == list0[k]
        invariant forall i :: 0 <= i <= k ==> Wake(twake, list0[i]) < Wake(twake, al)
        invariant !linked ==> alarmNext == old(alarmNext)
        invariant linked ==> Load(alarmNext, prev) == al && Chain(alarmNext, sleepList, InsertSorted(twake, list0, al))
        decreases |list0| - k, !linked
      {
        assert Load(alarmNext, list0[k]) == At(list0, k + 1);
        var next := Load(alarmNext, prev);
        if Wake(twake, al) <= Wake(twake, next) {
          Spliced(list0, k, al);
          alarmNext := alarmNext[al := next];
          alarmNext := alarmNext[prev := al];
          linked := true;
        } else {
          prev := next;
          k := k + 1;
        }
      }
      if Load(alarmNext, prev) == NULL {
        assert Load(alarmNext, list0[k]) == At(list0, k + 1);
        Spliced(list0, k, al);
        alarmNext := alarmNext[al := NULL];
        alarmNext := alarmNext[prev := al];
      }
    }

    lemma Spliced(list0: seq<Ptr>, k: nat, al: Ptr)
      requires Chain(alarmNext, sleepList, list0) && al != NULL && al !in list0 && k < |list0|
      requires forall i :: 0 <= i <= k ==> Wake(twake, list0[i]) < Wake(twake, al)
      requires k + 1 < |list0| ==> Wake(twake, al) <= Wake(twake, list0[k + 1])
      ensures Chain(alarmNext[al := At(list0, k + 1)][list0[k] := al], sleepList, InsertSorted(twake, list0, al))
    {
      hide Chain;
      InsertSortedAt(twake, list0, al, k + 1);
      ChainInsertAfter(alarmNext, sleepList, list0, k, al);
    }

    /** timer_intr_handler, src/kern/timer.c:143-175; woken lists the alarms it broadcasts, in order. */
    method TimerIntrHandler(now: nat) returns (woken: seq<Ptr>)
      requires Valid() && m.Valid() && WaitersWaiting(m.Abs())
      modifies this, m`thr, m`listNext, m`lists, m`queues
      ensures Valid() && twake == old(twake) && m.Valid()
      ensures woken == old(list)[..DueCount(twake, old(list), now)] && list == old(list)[DueCount(twake, old(list), now)..]
      ensures m.Abs() == WakeAlarms(old(m.Abs()), woken)
      ensures nextTick == Next(old(nextTick), now) && mtcmp == Earliest(twake, list, nextTick)
      ensures now <= old(nextTick) ==> nextTick == old(nextTick)
      ensures old(nextTick) < now && old(nextTick) + TICK_PERIOD <= UINT64_MAX ==> nextTick == old(nextTick) + TICK_PERIOD
      ensures IsMinimum(twake, list, nextTick, mtcmp)
    {
      hide Chain, Sorted, DueCount, WakeAlarms, IsMinimum;
      var head;
      head, woken := WakeDue(now);
      HeadOf(alarmNext, head, list);
      if nextTick < now {
        nextTick := (nextTick + TICK_PERIOD) % U64;
      }
      sleepList := head;
      if head != NULL && Wake(twake, head) < nextTick {
        mtcmp := Wake(twake, head);
      } else {
        mtcmp := nextTick;
      }
      EarliestIsMinimum(twake, list, nextTick, mtcmp);
    }

    /** The handler's loop; head is what is left of the list. */
    method WakeDue(now: nat) returns (head: Ptr, woken: seq<Ptr>)
      requires Valid() && m.Valid() && WaitersWaiting(m.Abs())
      modifies this`alarmNext, this`list, m`thr, m`listNext, m`lists, m`queues
      ensures Chain(alarmNext, head, list) && Sorted(twake, list) && m.Valid()
      ensures woken == old(list)[..DueCount(twake, old(list), now)] && list == old(list)[DueCount(twake, old(list), now)..]
      ensures m.Abs() == WakeAlarms(old(m.Abs()), woken)
    {
      hide Chain, Sorted, DueCount, ListsOk, WaitersWaiting, Broadcast, WakeAlarms;
      head := sleepList;
      ghost var list0, s0 := list, m.Abs();
      woken := [];
      WakeNobody(s0);
      while head != NULL && Wake(twake, head) <= now
        invariant |woken| <= |list0| && woken == list0[..|woken|] && list == list0[|woken|..]
        invariant Chain(alarmNext, head, list) && Sorted(twake, list)
        invariant DueCount(twake, list0, now) == |woken| + DueCount(twake, list, now)
        invariant m.Valid() && WaitersWaiting(m.Abs()) && m.Abs() == WakeAlarms(s0, woken)
        decreases |list|
      {
        DropHead(alarmNext, head, list);
        DueStep(twake, list, now);
        SortedTail(twake, list);
        WakeOneMore(s0, woken, head);
        BroadcastKeepsWaiting(m.Abs(), AlarmCond(head));
        WaitersOf(m.Abs(), AlarmCond(head));
        m.ConditionBroadcast(AlarmCond(head));
        woken := woken + [head];
        var next := Load(alarmNext, head);
        alarmNext := alarmNext[head := NULL];
        head := next;
        list := list[1..];
      }
      HeadOf(alarmNext, head, list);
      DueStep(twake, list, now);
    }

    static lemma WakeNobody(s: Sched)
      ensures WakeAlarms(s, []) == s
    {
    }

    static lemma WaitersOf(s: Sched, c: Cond)
      requires WaitersWaiting(s)
      ensures forall t :: t in Queue(s.queues, WaitList(c)) ==> t in s.thr && s.thr[t].state == WAITING && s.thr[t].waitCond == On(c)
    {
    }

    static lemma {:induction false} WakeOneMore(s: Sched, als: seq<Ptr>, al: Ptr)
      ensures WakeAlarms(s, als + [al]) == Broadcast(WakeAlarms(s, als), AlarmCond(al))
      decreases |als|
    {
      hide Broadcast;
      if als == [] {
        assert [al][1..] == [];
        assert als + [al] == [al];
      } else {
        assert (als + [al])[1..] == als[1..] + [al];
        WakeOneMore(Broadcast(s, AlarmCond(als[0])), als[1..], al);
      }
    }

    static lemma DropHead(next: map<Ptr, Ptr>, head: Ptr, s: seq<Ptr>)
      requires Chain(next, head, s) && head != NULL
      ensures s != [] && s[0] == head && Chain(next[head := NULL], Load(next, head), s[1..])
    {
      ChainTail(next, head, s);
      ChainFrame(next, next[head := NULL], Load(next, head), s[1..]);
    }
  }
}
