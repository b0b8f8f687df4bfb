/**
 The thread manager of src/kern/thread.c: the thread table, the intrusive thread lists and the
 operations on them, each proved against a function on the abstract scheduler state.

 Struct threads are named by their address. The list_next member is one map, the remaining
 members another; a list is its head and tail pointer. Which threads a list holds, and in which
 order, is only stated: it is the ghost field queues, tied to the pointers by Valid().
 */
module Threads {
  import opened Chains

  const NTHR := 16
  const MAIN_TID := 0
  const IDLE_TID := NTHR - 1

  const MAIN: Ptr := 1  // address of main_thread
  const IDLE: Ptr := 2  // address of idle_thread

  datatype ThreadState = WAITING | RUNNING | READY | EXITED

  /** A condition is the child_exit member of a thread, the cond member of an alarm or a lock, or another. */
  datatype Cond = ChildExit(owner: Ptr) | AlarmCond(alarm: Ptr) | LockCond(lock: nat) | Named(addr: nat)

  datatype WaitCond = NoCond | On(cond: Cond)

  /** The struct thread members the scheduler reads, except list_next. */
  datatype Tcb = Tcb(state: ThreadState, id: nat, parent: Ptr, waitCond: WaitCond)

  datatype ListId = ReadyList | WaitList(cond: Cond)

  datatype ThreadList = ThreadList(head: Ptr, tail: Ptr)

  /** What the pointers mean: every list as the sequence of threads on it. */
  datatype Sched = Sched(thr: map<Ptr, Tcb>, thrtab: seq<Ptr>, queues: map<ListId, seq<Ptr>>, cur: Ptr)

  // ---------------------------------------------------------------- thread lists

  /** All-zero memory is an empty list. */
  function ListOf(lists: map<ListId, ThreadList>, l: ListId): ThreadList {
    if l in lists then lists[l] else ThreadList(NULL, NULL)
  }

  function Queue(queues: map<ListId, seq<Ptr>>, l: ListId): seq<Ptr> {
    if l in queues then queues[l] else []
  }

  ghost predicate Holds(next: map<Ptr, Ptr>, list: ThreadList, s: seq<Ptr>) {
    Chain(next, list.head, s) && list.tail == Last(s)
  }

  ghost predicate Disjoint(queues: map<ListId, seq<Ptr>>) {
    forall l1, l2, t :: t in Queue(queues, l1) && t in Queue(queues, l2) ==> l1 == l2
  }

  ghost predicate Queued(queues: map<ListId, seq<Ptr>>, t: Ptr) {
    exists l :: t in Queue(queues, l)
  }

  /** All lists are disjoint chains with correct tails, although they share one link member. */
  ghost predicate ListsOk(next: map<Ptr, Ptr>, lists: map<ListId, ThreadList>, queues: map<ListId, seq<Ptr>>) {
    && (forall l :: Holds(next, ListOf(lists, l), Queue(queues, l)))
    && Disjoint(queues)
  }

  lemma InsertOk(next: map<Ptr, Ptr>, lists: map<ListId, ThreadList>, queues: map<ListId, seq<Ptr>>, l: ListId, t: Ptr)
    requires ListsOk(next, lists, queues) && t != NULL && !Queued(queues, t)
    ensures var list := ListOf(lists, l);
            var next' := if list.tail != NULL then next[t := NULL][list.tail := t] else next[t := NULL];
            var list' := ThreadList(if list.tail != NULL then list.head else t, t);
            ListsOk(next', lists[l := list'], queues[l := Queue(queues, l) + [t]])
  {
    var list, s := ListOf(lists, l), Queue(queues, l);
    var next' := if list.tail != NULL then next[t := NULL][list.tail := t] else next[t := NULL];
    var lists' := lists[l := ThreadList(if list.tail != NULL then list.head else t, t)];
    var queues' := queues[l := s + [t]];
    assert Holds(next, list, s) && t !in s;
    assert Holds(next', ListOf(lists', l), s + [t]);
    forall l' | l' != l ensures Holds(next', ListOf(lists', l'), Queue(queues', l')) {
      assert Holds(next, ListOf(lists, l'), Queue(queues, l'));
      assert t !in Queue(queues, l') && (s != [] ==> list.tail in s);
      ChainFrame(next, next', ListOf(lists, l').head, Queue(queues, l'));
    }
    DisjointInsert(queues, l, t);
  }

  lemma DisjointInsert(queues: map<ListId, seq<Ptr>>, l: ListId, t: Ptr)
    requires Disjoint(queues) && !Queued(queues, t)
    ensures Disjoint(queues[l := Queue(queues, l) + [t]])
  {
    var queues' := queues[l := Queue(queues, l) + [t]];
    forall l1, l2, u | u in Queue(queues', l1) && u in Queue(queues', l2) ensures l1 == l2 {
      if u == t {
        assert t !in Queue(queues, l1) && t !in Queue(queues, l2);
      } else {
        assert u in Queue(queues, l1) && u in Queue(queues, l2);
      }
    }
  }

  lemma RemoveOk(next: map<Ptr, Ptr>, lists: map<ListId, ThreadList>, queues: map<ListId, seq<Ptr>>, l: ListId)
    requires ListsOk(next, lists, queues) && Queue(queues, l) != []
    ensures var list, s := ListOf(lists, l), Queue(queues, l);
            && list.head == s[0]
            && ListsOk(next[s[0] := NULL],
                       lists[l := ThreadList(Load(next, s[0]), if Load(next, s[0]) != NULL then list.tail else NULL)],
                       queues[l := s[1..]])
  {
    var list, s := ListOf(lists, l), Queue(queues, l);
    assert Holds(next, list, s);
    var next' := next[s[0] := NULL];
    var list' := ThreadList(Load(next, s[0]), if Load(next, s[0]) != NULL then list.tail else NULL);
    var lists', queues' := lists[l := list'], queues[l := s[1..]];
    HeadOff(next, list, s);
    DisjointRemove(queues, l);
    hide Holds, Disjoint, Chain;
    forall l' | l' != l ensures Holds(next', ListOf(lists', l'), Queue(queues', l')) {
      assert Holds(next, ListOf(lists, l'), Queue(queues, l')) && s[0] in s;
      NotOn(queues, l, l', s[0]);
      HoldsFrame(next, next', ListOf(lists, l'), Queue(queues, l'), s[0]);
    }
  }

  lemma HoldsFrame(next: map<Ptr, Ptr>, next': map<Ptr, Ptr>, list: ThreadList, s: seq<Ptr>, t: Ptr)
    requires Holds(next, list, s) && t !in s && forall p :: p != t ==> Load(next', p) == Load(next, p)
    ensures Holds(next', list, s)
  {
    ChainFrame(next, next', list.head, s);
  }

  lemma HeadOff(next: map<Ptr, Ptr>, list: ThreadList, s: seq<Ptr>)
    requires Holds(next, list, s) && s != []
    ensures list.head == s[0]
    ensures var second := Load(next, s[0]);
      Holds(next[s[0] := NULL], ThreadList(second, if second != NULL then list.tail else NULL), s[1..])
  {
    ChainTail(next, list.head, s);
    assert s[0] !in s[1..];
    ChainFrame(next, next[s[0] := NULL], Load(next, s[0]), s[1..]);
  }

  lemma DisjointRemove(queues: map<ListId, seq<Ptr>>, l: ListId)
    requires Disjoint(queues) && Queue(queues, l) != []
    ensures Disjoint(queues[l := Queue(queues, l)[1..]])
  {
    var queues' := queues[l := Queue(queues, l)[1..]];
    forall l1, l2, u | u in Queue(queues', l1) && u in Queue(queues', l2) ensures l1 == l2 {
      assert u in Queue(queues, l1) && u in Queue(queues, l2);
    }
  }

  lemma Ends(next: map<Ptr, Ptr>, list: ThreadList, s: seq<Ptr>)
    requires Holds(next, list, s)
    ensures s == [] ==> list.head == NULL && list.tail == NULL
    ensures s != [] ==> list.head != NULL && list.tail != NULL && list.tail in s
  {
  }

  lemma AppendDisjoint(queues: map<ListId, seq<Ptr>>, l0: ListId, l1: ListId)
    requires Disjoint(queues) && l0 != l1
    ensures Disjoint(queues[l0 := Queue(queues, l0) + Queue(queues, l1)][l1 := []])
  {
    var w := Queue(queues, l1);
    var queues' := queues[l0 := Queue(queues, l0) + w][l1 := []];
    forall m1, m2, u | u in Queue(queues', m1) && u in Queue(queues', m2) ensures m1 == m2 {
      assert u in Queue(queues, m1) || (m1 == l0 && u in w);
      assert u in Queue(queues, m2) || (m2 == l0 && u in w);
    }
  }

  lemma AppendOk(next: map<Ptr, Ptr>, lists: map<ListId, ThreadList>, queues: map<ListId, seq<Ptr>>, l0: ListId, l1: ListId)
    requires ListsOk(next, lists, queues) && l0 != l1 && Queue(queues, l1) != []
    ensures var a, b := ListOf(lists, l0), ListOf(lists, l1);
            && b.head != NULL && b.tail != NULL && (a.head == NULL <==> a.tail == NULL)
            && ListsOk(if a.head != NULL then next[a.tail := b.head] else next,
                       lists[l0 := ThreadList(if a.head != NULL then a.head else b.head, b.tail)][l1 := ThreadList(NULL, NULL)],
                       queues[l0 := Queue(queues, l0) + Queue(queues, l1)][l1 := []])
  {
    hide Chain, Disjoint;
    var a, b, s, w := ListOf(lists, l0), ListOf(lists, l1), Queue(queues, l0), Queue(queues, l1);
    assert Holds(next, a, s) && Holds(next, b, w);
    Ends(next, a, s);
    Ends(next, b, w);
    AppendDisjoint(queues, l0, l1);
    var next' := if a.head != NULL then next[a.tail := b.head] else next;
    var lists' := lists[l0 := ThreadList(if a.head != NULL then a.head else b.head, b.tail)][l1 := ThreadList(NULL, NULL)];
    var queues' := queues[l0 := s + w][l1 := []];
    AppendJoined(next, a, b, queues, l0, l1);
    forall l ensures Holds(next', ListOf(lists', l), Queue(queues', l)) {
      if l == l1 {
        EmptyHolds(next');
      } else if l != l0 {
        assert Holds(next, ListOf(lists, l), Queue(queues, l));
        if s != [] {
          NotOn(queues, l0, l, a.tail);
        }
        ChainFrame(next, next', ListOf(lists, l).head, Queue(queues, l));
      }
    }
  }

  /** What the lists hold after one was moved behind another. */
  function Joined(queues: map<ListId, seq<Ptr>>, l0: ListId, l1: ListId): map<ListId, seq<Ptr>> {
    if Queue(queues, l1) == [] then queues else queues[l0 := Queue(queues, l0) + Queue(queues, l1)][l1 := []]
  }

  lemma AppendNothing(next: map<Ptr, Ptr>, lists: map<ListId, ThreadList>, queues: map<ListId, seq<Ptr>>, l0: ListId, l1: ListId)
    requires ListsOk(next, lists, queues) && l0 != l1 && Queue(queues, l1) == []
    ensures ListsOk(next, lists[l0 := ListOf(lists, l0)][l1 := ThreadList(NULL, NULL)], queues)
  {
    var lists' := lists[l0 := ListOf(lists, l0)][l1 := ThreadList(NULL, NULL)];
    forall l ensures Holds(next, ListOf(lists', l), Queue(queues, l)) {
      assert Holds(next, ListOf(lists, l), Queue(queues, l));
    }
  }

  lemma EmptyHolds(next: map<Ptr, Ptr>)
    ensures Holds(next, ThreadList(NULL, NULL), [])
  {
  }

  lemma NotOn(queues: map<ListId, seq<Ptr>>, l0: ListId, l: ListId, t: Ptr)
    requires Disjoint(queues) && l != l0 && t in Queue(queues, l0)
    ensures t !in Queue(queues, l)
  {
  }

  lemma AppendJoined(next: map<Ptr, Ptr>, a: ThreadList, b: ThreadList, queues: map<ListId, seq<Ptr>>, l0: ListId, l1: ListId)
    requires Holds(next, a, Queue(queues, l0)) && Holds(next, b, Queue(queues, l1))
    requires Disjoint(queues) && l0 != l1 && Queue(queues, l1) != []
    ensures Holds(if a.head != NULL then next[a.tail := b.head] else next,
                  ThreadList(if a.head != NULL then a.head else b.head, b.tail),
                  Queue(queues, l0) + Queue(queues, l1))
  {
    hide Chain, Disjoint;
    var s, w := Queue(queues, l0), Queue(queues, l1);
    Ends(next, a, s);
    if s == [] {
      assert s + w == w;
    } else {
      forall p | p in s ensures p !in w { NotOn(queues, l0, l1, p); }
      ChainJoin(next, a.head, s, b.head, w);
    }
  }

  // ---------------------------------------------------------------- operations on the abstract state

  function Ready(s: Sched): seq<Ptr> { Queue(s.queues, ReadyList) }

  function Waiters(s: Sched, c: Cond): seq<Ptr> { Queue(s.queues, WaitList(c)) }

  function Insert(s: Sched, l: ListId, t: Ptr): Sched {
    s.(queues := s.queues[l := Queue(s.queues, l) + [t]])
  }

  function SetState(s: Sched, t: Ptr, st: ThreadState): Sched
    requires t in s.thr
  {
    s.(thr := s.thr[t := s.thr[t].(state := st)])
  }

  /** condition_wait before the enqueue: the current thread is WAITING but on no list yet. */
  function MarkWaiting(s: Sched, c: Cond): Sched
    requires s.cur in s.thr
  {
    s.(thr := s.thr[s.cur := s.thr[s.cur].(state := WAITING, waitCond := On(c))])
  }

  function Woken(thr: map<Ptr, Tcb>, w: seq<Ptr>): map<Ptr, Tcb> {
    map t | t in thr :: if t in w then thr[t].(state := READY, waitCond := NoCond) else thr[t]
  }

  /** All waiters become READY and move, in order, to the end of the ready list. */
  function Broadcast(s: Sched, c: Cond): Sched {
    var w := Waiters(s, c);
    if w == [] then s
    else s.(thr := Woken(s.thr, w), queues := s.queues[ReadyList := Ready(s) + w][WaitList(c) := []])
  }

  /** suspend_self up to the context switch: the head of the ready list becomes RUNNING. */
  function Dispatch(s: Sched): Sched
    requires Ready(s) != [] && Ready(s)[0] in s.thr && s.cur in s.thr
  {
    var next := Ready(s)[0];
    var s1 := SetState(s, next, RUNNING).(queues := s.queues[ReadyList := Ready(s)[1..]]);
    if s1.thr[s.cur].state == RUNNING then Insert(SetState(s1, s.cur, READY), ReadyList, s.cur) else s1
  }

  /** create_thread: the child is READY and in the table, but on no list yet. */
  function Create(s: Sched, child: Ptr, tid: nat): Sched
    requires tid < |s.thrtab|
  {
    s.(thr := s.thr[child := Tcb(READY, tid, s.cur, NoCond)], thrtab := s.thrtab[tid := child])
  }

  function Reparent(thr: map<Ptr, Tcb>, tab: seq<Ptr>, from: Ptr, to: Ptr): map<Ptr, Tcb> {
    map t | t in thr :: if t in tab && thr[t].parent == from then thr[t].(parent := to) else thr[t]
  }

  /** recycle_thread: the children go to the grandparent, then the thread is forgotten. */
  function Recycle(s: Sched, tid: nat): Sched
    requires 0 < tid < |s.thrtab| && s.thrtab[tid] in s.thr
  {
    var t := s.thrtab[tid];
    s.(thr := Reparent(s.thr, s.thrtab[1..], t, s.thr[t].parent) - {t}, thrtab := s.thrtab[tid := NULL])
  }

  /** Every waiter on c, and nothing else, became READY; they are last on the ready list, in order. */
  ghost predicate AllWoken(s: Sched, s': Sched, c: Cond) {
    && Waiters(s', c) == [] && Ready(s') == Ready(s) + Waiters(s, c) && s'.thr.Keys == s.thr.Keys
    && (forall l :: l != ReadyList && l != WaitList(c) ==> Queue(s'.queues, l) == Queue(s.queues, l))
    && (forall t :: t in s.thr && t in Waiters(s, c) ==> s'.thr[t] == s.thr[t].(state := READY, waitCond := NoCond))
    && (forall t :: t in s.thr && t !in Waiters(s, c) ==> s'.thr[t] == s.thr[t])
  }

  /** next was first on the ready list and runs; the current thread, if it was running, is READY and last. */
  ghost predicate Handover(s: Sched, s': Sched, next: Ptr)
    requires s.cur in s.thr
  {
    var stays := s.thr[s.cur].state == RUNNING;
    && [next] + Ready(s') == Ready(s) + (if stays then [s.cur] else [])
    && next in s'.thr && s'.thr[next].state == RUNNING && s'.thr.Keys == s.thr.Keys
    && (forall t :: t in s.thr && t != next ==> s'.thr[t] == if stays && t == s.cur then s.thr[t].(state := READY) else s.thr[t])
  }

  /** gone left the table and the records, its children went to its parent, and nothing else changed. */
  ghost predicate Reaped(s: Sched, s': Sched, gone: Ptr)
    requires gone in s.thr && s.thrtab != []
  {
    && s'.thr.Keys == s.thr.Keys - {gone} && |s'.thrtab| == |s.thrtab|
    && (forall t :: t in s'.thr ==>
          s'.thr[t] == s.thr[t].(parent := if s.thr[t].parent == gone && t in s.thrtab[1..] then s.thr[gone].parent else s.thr[t].parent))
    && (exists i :: 0 < i < |s.thrtab| && s.thrtab[i] == gone && s'.thrtab == s.thrtab[i := NULL])
  }

  lemma BroadcastWakes(s: Sched, c: Cond)
    ensures AllWoken(s, Broadcast(s, c), c)
  {
  }

  lemma DispatchHands(s: Sched)
    requires Ready(s) != [] && Ready(s)[0] in s.thr && s.cur in s.thr && Ready(s)[0] != s.cur
    ensures Handover(s, Dispatch(s), Ready(s)[0])
  {
    assert Ready(s) == [Ready(s)[0]] + Ready(s)[1..];
  }

  lemma RecycleReaps(s: Sched, tid: nat)
    requires 0 < tid < |s.thrtab| && s.thrtab[tid] in s.thr
    ensures Reaped(s, Recycle(s, tid), s.thrtab[tid])
  {
  }

  predicate IsChild(thr: map<Ptr, Tcb>, t: Ptr, parent: Ptr) {
    t in thr && thr[t].parent == parent
  }

  predicate IsExitedChild(thr: map<Ptr, Tcb>, t: Ptr, parent: Ptr) {
    IsChild(thr, t, parent) && thr[t].state == EXITED
  }

  /** No slot is left for a new thread. */
  predicate TableFull(thrtab: seq<Ptr>) { forall j :: 1 <= j < |thrtab| ==> thrtab[j] != NULL }

  // ---------------------------------------------------------------- the code

  class ThreadManager {
    var listNext: map<Ptr, Ptr>
    var thr: map<Ptr, Tcb>
    var thrtab: seq<Ptr>
    var lists: map<ListId, ThreadList>
    var cur: Ptr
    ghost var queues: map<ListId, seq<Ptr>>

    ghost predicate Valid()
      reads this
    {
      ListsOk(listNext, lists, queues) && |thrtab| == NTHR
    }

    ghost function Abs(): Sched
      reads this
    {
      Sched(thr, thrtab, queues, cur)
    }

    /** thread_init: main runs, idle is on the ready list. */
    constructor ()
      ensures Valid() && Abs() == Boot()
      ensures cur == MAIN && thr.Keys == {MAIN, IDLE} && thr[MAIN].state == RUNNING && thr[IDLE].state == READY
      ensures thr[MAIN].parent == NULL && thr[IDLE].parent == MAIN && Queue(queues, ReadyList) == [IDLE]
      ensures forall i :: 0 <= i < NTHR ==> thrtab[i] == if i == 0 then MAIN else if i == NTHR - 1 then IDLE else NULL
    {
      thr := map[MAIN := Tcb(RUNNING, MAIN_TID, NULL, NoCond), IDLE := Tcb(READY, IDLE_TID, MAIN, NoCond)];
      thrtab := seq(NTHR, i => if i == MAIN_TID then MAIN else if i == IDLE_TID then IDLE else NULL);
      cur := MAIN;
      listNext, lists, queues := map[], map[], map[];
      new;
      assert !Queued(queues, IDLE);
      TlInsert(ReadyList, IDLE);
    }

    /** tlinsert, src/kern/thread.c:504-519. */
    method TlInsert(l: ListId, t: Ptr)
      requires Valid() && t != NULL && !Queued(queues, t)
      modifies this`listNext, this`lists, this`queues
      ensures Valid() && Abs() == Insert(old(Abs()), l, t)
    {
      hide Disjoint, Chain;
      InsertOk(listNext, lists, queues, l, t);
      assert Holds(listNext, ListOf(lists, l), Queue(queues, l));
      Ends(listNext, ListOf(lists, l), Queue(queues, l));
      listNext := listNext[t := NULL];
      var list := ListOf(lists, l);
      if list.tail != NULL {
        assert list.head != NULL;
        listNext := listNext[list.tail := t];
      } else {
        assert list.head == NULL;
        list := list.(head := t);
      }
      list := list.(tail := t);
      lists := lists[l := list];
      queues := queues[l := Queue(queues, l) + [t]];
    }

    /** tlremove, src/kern/thread.c:521-538. */
    method TlRemove(l: ListId) returns (t: Ptr)
      requires Valid()
      modifies this`listNext, this`lists, this`queues
      ensures Valid()
      ensures var q := Queue(old(queues), l);
        if q == [] then t == NULL && Abs() == old(Abs())
        else t == q[0] && Abs() == old(Abs()).(queues := old(queues)[l := q[1..]])
    {
      hide Disjoint, Chain;
      var list := ListOf(lists, l);
      assert Holds(listNext, list, Queue(queues, l));
      Ends(listNext, list, Queue(queues, l));
      t := list.head;
      if t == NULL {
        return;
      }
      RemoveOk(listNext, lists, queues, l);
      list := list.(head := Load(listNext, t));
      if list.head != NULL {
        listNext := listNext[t := NULL];
      } else {
        list := list.(tail := NULL);
      }
      listNext := listNext[t := NULL];
      assert listNext == old(listNext)[t := NULL];
      lists := lists[l := list];
      queues := queues[l := Queue(queues, l)[1..]];
    }

    /** tlappend, src/kern/thread.c:542-559. */
    method TlAppend(l0: ListId, l1: ListId)
      requires Valid() && l0 != l1
      modifies this`listNext, this`lists, this`queues
      ensures Valid()
      ensures Abs() == old(Abs()).(queues := Joined(old(queues), l0, l1))
    {
      hide Disjoint, Chain;
      var a, b := ListOf(lists, l0), ListOf(lists, l1);
      assert Holds(listNext, a, Queue(queues, l0)) && Holds(listNext, b, Queue(queues, l1));
      Ends(listNext, a, Queue(queues, l0));
      Ends(listNext, b, Queue(queues, l1));
      if Queue(queues, l1) != [] {
        AppendOk(listNext, lists, queues, l0, l1);
      } else {
        AppendNothing(listNext, lists, queues, l0, l1);
      }
      if a.head != NULL {
        assert a.tail != NULL;
        if b.head != NULL {
          assert b.tail != NULL;
          listNext := listNext[a.tail := b.head];
          a := a.(tail := b.tail);
        }
      } else {
        assert a.tail == NULL;
        a := ThreadList(b.head, b.tail);
      }
      lists := lists[l0 := a][l1 := ThreadList(NULL, NULL)];
      queues := Joined(queues, l0, l1);
    }

    /** condition_wait up to the enqueue, src/kern/thread.c:335-341. */
    method WaitMark(c: Cond)
      requires cur in thr && thr[cur].state == RUNNING && !Queued(queues, cur) && Valid()
      modifies this`thr, this`listNext
      ensures Valid() && Abs() == MarkWaiting(old(Abs()), c)
      ensures thr[cur].state == WAITING && thr[cur].waitCond == On(c)
    {
      assert thr[cur].state == RUNNING;
      thr := thr[cur := thr[cur].(state := WAITING)];
      thr := thr[cur := thr[cur].(waitCond := On(c))];
      WriteOffList(listNext, lists, queues, cur);
      listNext := listNext[cur := NULL];
    }

    static lemma WriteOffList(next: map<Ptr, Ptr>, lists: map<ListId, ThreadList>, queues: map<ListId, seq<Ptr>>, t: Ptr)
      requires ListsOk(next, lists, queues) && !Queued(queues, t)
      ensures ListsOk(next[t := NULL], lists, queues)
    {
      forall l ensures Holds(next[t := NULL], ListOf(lists, l), Queue(queues, l)) {
        assert Holds(next, ListOf(lists, l), Queue(queues, l));
        ChainFrame(next, next[t := NULL], ListOf(lists, l).head, Queue(queues, l));
      }
    }

    /** condition_broadcast, src/kern/thread.c:350-378. */
    method ConditionBroadcast(c: Cond)
      requires Valid()
      requires forall t :: t in Queue(queues, WaitList(c)) ==> t in thr && thr[t].state == WAITING && thr[t].waitCond == On(c)
      modifies this`thr, this`listNext, this`lists, this`queues
      ensures Valid() && Abs() == Broadcast(old(Abs()), c)
      ensures AllWoken(old(Abs()), Abs(), c)
    {
      hide AllWoken;
      BroadcastWakes(Abs(), c);
      var empty := TlEmpty(WaitList(c));
      if empty {
        return;
      }
      WakeAll(c);
    }

    /** tlempty, src/kern/thread.c:500-502. */
    method TlEmpty(l: ListId) returns (empty: bool)
      requires Valid()
      ensures empty <==> Queue(queues, l) == []
    {
      assert Holds(listNext, ListOf(lists, l), Queue(queues, l));
      empty := ListOf(lists, l).head == NULL;
    }

    /**
     condition_broadcast with interrupts off, src/kern/thread.c:363-377; its two assertions are
     proved. A handler may have emptied the list since it was tested.
     */
    method WakeAll(c: Cond)
      requires Valid()
      requires forall t :: t in Queue(queues, WaitList(c)) ==> t in thr && thr[t].state == WAITING && thr[t].waitCond == On(c)
      modifies this`thr, this`listNext, this`lists, this`queues
      ensures Valid() && Abs() == Broadcast(old(Abs()), c)
      ensures AllWoken(old(Abs()), Abs(), c)
    {
      hide AllWoken, ListsOk, Woken;
      BroadcastWakes(Abs(), c);
      BroadcastJoins(Abs(), c);
      ListHolds(listNext, lists, queues, WaitList(c));
      MarkReady(c, Queue(queues, WaitList(c)));
      TlAppend(ReadyList, WaitList(c));
      ClearedTwice(listNext, lists, queues, WaitList(c));
      lists := lists[WaitList(c) := ThreadList(NULL, NULL)];
    }

    static lemma ListHolds(next: map<Ptr, Ptr>, lists: map<ListId, ThreadList>, queues: map<ListId, seq<Ptr>>, l: ListId)
      requires ListsOk(next, lists, queues)
      ensures Holds(next, ListOf(lists, l), Queue(queues, l))
    {
    }

    /** Broadcasting is waking the waiters and splicing their list, also when there are none. */
    static lemma BroadcastJoins(s: Sched, c: Cond)
      ensures Broadcast(s, c) == s.(thr := Woken(s.thr, Waiters(s, c)), queues := Joined(s.queues, ReadyList, WaitList(c)))
      ensures Queue(Joined(s.queues, ReadyList, WaitList(c)), WaitList(c)) == []
    {
      assert Waiters(s, c) == [] ==> Woken(s.thr, Waiters(s, c)) == s.thr;
    }

    /** The loop over the waiters, w. */
    method MarkReady(c: Cond, ghost w: seq<Ptr>)
      requires Holds(listNext, ListOf(lists, WaitList(c)), w)
      requires forall t :: t in w ==> t in thr && thr[t].state == WAITING && thr[t].waitCond == On(c)
      modifies this`thr
      ensures thr == Woken(old(thr), w)
    {
      var t := ListOf(lists, WaitList(c)).head;
      ghost var k := 0;
      assert thr == Woken(thr, w[..0]);
      while t != NULL
        invariant 0 <= k <= |w| && t == At(w, k)
        invariant thr == Woken(old(thr), w[..k])
        decreases |w| - k
      {
        WokenStep(old(thr), w, k);
        assert thr[t].state == WAITING;
        assert thr[t].waitCond == On(c);
        thr := thr[t := thr[t].(state := READY)];
        thr := thr[t := thr[t].(waitCond := NoCond)];
        t := Load(listNext, t);
        k := k + 1;
      }
      assert w[..k] == w;
    }

    static lemma ClearedTwice(next: map<Ptr, Ptr>, lists: map<ListId, ThreadList>, queues: map<ListId, seq<Ptr>>, l: ListId)
      requires ListsOk(next, lists, queues) && Queue(queues, l) == []
      ensures ListsOk(next, lists[l := ThreadList(NULL, NULL)], queues)
    {
      var lists' := lists[l := ThreadList(NULL, NULL)];
      forall l' ensures Holds(next, ListOf(lists', l'), Queue(queues, l')) {
        assert Holds(next, ListOf(lists, l'), Queue(queues, l'));
      }
    }

    static lemma WokenStep(thr: map<Ptr, Tcb>, w: seq<Ptr>, k: nat)
      requires k < |w| && w[k] in thr && Distinct(w)
      ensures w[k] !in w[..k] && Woken(thr, w[..k])[w[k]] == thr[w[k]]
      ensures Woken(thr, w[..k + 1]) == Woken(thr, w[..k])[w[k] := thr[w[k]].(state := READY, waitCond := NoCond)]
    {
      assert w[..k + 1] == w[..k] + [w[k]];
    }

    /** suspend_self up to the context switch, src/kern/thread.c:454-474. */
    method SuspendSelf() returns (next: Ptr)
      requires Valid() && cur in thr && cur != NULL && Queue(queues, ReadyList) != []
      requires var h := Queue(queues, ReadyList)[0]; h in thr && thr[h].state == READY && h != cur
      requires thr[cur].state == RUNNING ==> !Queued(queues, cur)
      modifies this`thr, this`listNext, this`lists, this`queues
      ensures Valid() && Abs() == Dispatch(old(Abs())) && next == Queue(old(queues), ReadyList)[0]
      ensures Handover(old(Abs()), Abs(), next)
    {
      hide Disjoint, Chain, Handover;
      DispatchHands(Abs());
      next := TlRemove(ReadyList);
      assert thr[next].state == READY;
      thr := thr[next := thr[next].(state := RUNNING)];
      if thr[cur].state == RUNNING {
        thr := thr[cur := thr[cur].(state := READY)];
        StillOff(old(queues), ReadyList, cur);
        TlInsert(ReadyList, cur);
      }
    }

    static lemma StillOff(queues: map<ListId, seq<Ptr>>, l: ListId, t: Ptr)
      requires !Queued(queues, t) && Queue(queues, l) != []
      ensures !Queued(queues[l := Queue(queues, l)[1..]], t)
    {
      var queues' := queues[l := Queue(queues, l)[1..]];
      forall l' ensures t !in Queue(queues', l') {
        assert t !in Queue(queues, l');
      }
    }

    /** create_thread, src/kern/thread.c:646-686; tid 0 stands for the "Too many threads" panic. */
    method CreateThread(child: Ptr) returns (tid: nat)
      requires Valid() && child !in thr
      modifies this`thr, this`thrtab
      ensures Valid() && tid < NTHR
      ensures tid == 0 <==> TableFull(old(thrtab))
      ensures forall j :: 1 <= j < tid ==> old(thrtab)[j] != NULL
      ensures if tid == 0 then Abs() == old(Abs()) else old(thrtab)[tid] == NULL && Abs() == Create(old(Abs()), child, tid)
      ensures tid != 0 ==> child in thr && thr[child].parent == cur && thr[child].state == READY && thr[child].id == tid
      ensures tid != 0 ==> thrtab == old(thrtab)[tid := child] && thr - {child} == old(thr)
    {
      tid := 1;
      while tid < NTHR && thrtab[tid] != NULL
        invariant 1 <= tid <= NTHR
        invariant forall j :: 1 <= j < tid ==> thrtab[j] != NULL
      {
        tid := tid + 1;
      }
      if tid == NTHR {
        return 0;
      }
      thrtab := thrtab[tid := child];
      thr := thr[child := Tcb(READY, tid, cur, NoCond)];
    }

    /** recycle_thread, src/kern/thread.c:425-441. */
    method RecycleThread(tid: nat)
      requires Valid() && 0 < tid < NTHR && thrtab[tid] in thr && thr[thrtab[tid]].state == EXITED
      requires thr[thrtab[tid]].parent != thrtab[tid]
      modifies this`thr, this`thrtab
      ensures Valid() && Abs() == Recycle(old(Abs()), tid)
      ensures Reaped(old(Abs()), Abs(), old(thrtab)[tid])
    {
      hide Reaped;
      RecycleReaps(Abs(), tid);
      var t := thrtab[tid];
      ReparentChildren(t);
      hide Reparent, Recycle;
      RecycleIs(old(Abs()), tid);
      thrtab := thrtab[tid := NULL];
      thr := thr - {t};
    }

    /** The loop that hands the children of t to its parent. */
    method ReparentChildren(t: Ptr)
      requires |thrtab| == NTHR && t in thr && thr[t].parent != t
      modifies this`thr
      ensures thr == Reparent(old(thr), thrtab[1..], t, old(thr)[t].parent)
    {
      var ctid := 1;
      assert thr == Reparent(thr, thrtab[1..1], t, thr[t].parent);
      while ctid < NTHR
        invariant 1 <= ctid <= NTHR && t in thr && thr[t].parent == old(thr)[t].parent
        invariant thr == Reparent(old(thr), thrtab[1..ctid], t, old(thr)[t].parent)
      {
        ReparentStep(old(thr), thrtab, ctid, t, old(thr)[t].parent);
        var c := thrtab[ctid];
        if c in thr && thr[c].parent == t {
          thr := thr[c := thr[c].(parent := thr[t].parent)];
        }
        ctid := ctid + 1;
      }
      assert thrtab[1..ctid] == thrtab[1..];
    }

    static lemma RecycleIs(s: Sched, tid: nat)
      requires 0 < tid < |s.thrtab| && s.thrtab[tid] in s.thr
      ensures var t := s.thrtab[tid];
        Recycle(s, tid) == s.(thr := Reparent(s.thr, s.thrtab[1..], t, s.thr[t].parent) - {t}, thrtab := s.thrtab[tid := NULL])
    {
    }

    /** The first write of thread_exit, src/kern/thread.c:213. */
    method MarkExited()
      requires Valid() && cur in thr
      modifies this`thr
      ensures Valid() && Abs() == SetState(old(Abs()), cur, EXITED)
    {
      thr := thr[cur := thr[cur].(state := EXITED)];
    }

    /** _thread_swtch, src/kern/thread.c:482: another thread is the current one. */
    method SwitchTo(next: Ptr)
      requires Valid()
      modifies this`cur
      ensures Valid() && Abs() == old(Abs()).(cur := next)
    {
      cur := next;
    }

    static lemma ReparentStep(thr: map<Ptr, Tcb>, tab: seq<Ptr>, k: nat, from: Ptr, to: Ptr)
      requires 1 <= k < |tab| && from != to
      ensures var before, after := Reparent(thr, tab[1..k], from, to), Reparent(thr, tab[1..k + 1], from, to);
        after == if tab[k] in before && before[tab[k]].parent == from then before[tab[k] := before[tab[k]].(parent := to)] else before
    {
      var c, tab', tab'' := tab[k], tab[1..k], tab[1..k + 1];
      assert tab'' == tab' + [c];
      assert forall t :: t in tab'' <==> t in tab' || t == c;
    }

    /** The scan of thread_join_any, src/kern/thread.c:246-252: the first exited child, if any. */
    method ScanChildren() returns (tid: nat, childcnt: nat)
      requires Valid()
      ensures tid < NTHR
      ensures forall j :: 1 <= j < (if tid == 0 then NTHR else tid) ==> !IsExitedChild(thr, thrtab[j], cur)
      ensures tid != 0 ==> IsExitedChild(thr, thrtab[tid], cur)
      ensures tid == 0 ==> (childcnt == 0 <==> forall j :: 1 <= j < NTHR ==> !IsChild(thr, thrtab[j], cur))
    {
      childcnt := 0;
      var j := 1;
      while j < NTHR
        invariant 1 <= j <= NTHR
        invariant forall k :: 1 <= k < j ==> !IsExitedChild(thr, thrtab[k], cur)
        invariant childcnt == 0 <==> forall k :: 1 <= k < j ==> !IsChild(thr, thrtab[k], cur)
      {
        if thrtab[j] in thr && thr[thrtab[j]].parent == cur {
          if thr[thrtab[j]].state == EXITED {
            return j, childcnt;
          }
          childcnt := childcnt + 1;
        }
        j := j + 1;
      }
      tid := 0;
    }
  }

  /** The state thread_init leaves, src/kern/thread.c:70-91, 184-189, 391-403. */
  function Boot(): Sched {
    Insert(Sched(map[MAIN := Tcb(RUNNING, MAIN_TID, NULL, NoCond), IDLE := Tcb(READY, IDLE_TID, MAIN, NoCond)],
                 seq(NTHR, i => if i == MAIN_TID then MAIN else if i == IDLE_TID then IDLE else NULL),
                 map[], MAIN),
           ReadyList, IDLE)
  }
}
