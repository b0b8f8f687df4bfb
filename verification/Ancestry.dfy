/**
 Whose child a thread is, over whole runs: the history of who called thread_spawn is kept beside
 the scheduler, and the parent members of src/kern/thread.c are compared with it.

 Addresses are used again after a thread is recycled, so the history speaks of birth numbers.
 */
module Ancestry {
  import opened Chains
  import opened Threads
  import opened Scheduler

  /** spawner[b] is the birth number of the thread that spawned the thread born as b. */
  type History = map<nat, nat>

  function Born(y: Sys, t: Ptr): nat { if t in y.birth then y.birth[t] else 0 }

  /** Only thread_spawn writes history; idle is the child of main. */
  ghost function Recorded(y: Sys, made: History, run: seq<Label>): History
    requires ValidRun(y, run)
    decreases |run|
  {
    if run == [] then made
    else Recorded(Apply(y, run[0]), Noted(y, made, run[0]), run[1..])
  }

  ghost function Noted(y: Sys, made: History, l: Label): History {
    if l.Spawn? then made[y.clock := Born(y, y.s.cur)] else made
  }

  ghost function SpawnHistory(run: seq<Label>): History
    requires ValidRun(Init(), run)
  {
    Recorded(Init(), map[1 := 0], run)
  }

  ghost function Live(thr: map<Ptr, Tcb>, birth: map<Ptr, nat>): set<nat>
    requires forall t :: t in thr ==> t in birth
  {
    set t | t in thr :: birth[t]
  }

  /** The first of b, its spawner, its spawner's spawner and so on that is live. */
  ghost function Nearest(made: History, live: set<nat>, b: nat): nat
    decreases b
  {
    if b in live || b !in made || made[b] >= b then b else Nearest(made, live, made[b])
  }

  /** Numbers name live threads uniquely, main is the first, and spawners came before. */
  ghost predicate BirthsOk(thr: map<Ptr, Tcb>, birth: map<Ptr, nat>, clock: nat, made: History) {
    && MAIN in thr && (forall t :: t in thr ==> t in birth && birth[t] < clock) && birth[MAIN] == 0
    && (forall t, u :: t in thr && u in thr && birth[t] == birth[u] ==> t == u)
    && (forall b :: 1 <= b < clock ==> b in made && made[b] < b)
  }

  ghost predicate ParentOk(thr: map<Ptr, Tcb>, birth: map<Ptr, nat>, made: History, t: Ptr)
    requires t in thr && forall u :: u in thr ==> u in birth
  {
    && thr[t].parent in thr && birth[t] in made
    && birth[thr[t].parent] == Nearest(made, Live(thr, birth), made[birth[t]])
  }

  ghost predicate HistoryOk(thr: map<Ptr, Tcb>, birth: map<Ptr, nat>, clock: nat, made: History) {
    && BirthsOk(thr, birth, clock, made)
    && forall t :: t in thr && t != MAIN ==> ParentOk(thr, birth, made, t)
  }

  // ---------------------------------------------------------------- climbing

  /** A thread still to be born is not on the way up. */
  lemma {:induction false} NearestSpawn(made: History, live: set<nat>, clock: nat, spawner: nat, b: nat)
    requires b < clock && forall i :: 1 <= i < clock ==> i in made && made[i] < i
    ensures Nearest(made[clock := spawner], live + {clock}, b) == Nearest(made, live, b)
    decreases b
  {
    if b !in live && b in made && made[b] < b {
      NearestSpawn(made, live, clock, spawner, made[b]);
    }
  }

  lemma {:induction false} NearestAtMost(made: History, live: set<nat>, b: nat)
    ensures Nearest(made, live, b) <= b
    decreases b
  {
    if b !in live && b in made && made[b] < b {
      NearestAtMost(made, live, made[b]);
    }
  }

  /** When a thread is recycled, what it was nearest to goes one climb further, and nothing else does. */
  lemma {:induction false} NearestRecycle(made: History, live: set<nat>, gone: nat, b: nat)
    requires gone in live && gone in made && made[gone] < gone
    ensures Nearest(made, live - {gone}, b) ==
            if Nearest(made, live, b) == gone then Nearest(made, live, made[gone]) else Nearest(made, live, b)
    decreases b
  {
    if b == gone {
      NearestRecycle(made, live, gone, made[gone]);
      NearestAtMost(made, live, made[gone]);
    } else if b !in live && b in made && made[b] < b {
      NearestRecycle(made, live, gone, made[b]);
    }
  }

  // ---------------------------------------------------------------- every step keeps it

  lemma SpawnHistoryKeeps(y: Sys, made: History, child: Ptr, tid: nat)
    requires HistoryOk(y.s.thr, y.birth, y.clock, made) && Enabled(y, Spawn(child, tid))
    ensures var y' := Apply(y, Spawn(child, tid));
      HistoryOk(y'.s.thr, y'.birth, y'.clock, Noted(y, made, Spawn(child, tid)))
  {
    hide Nearest, Live, ParentOk;
    var y' := Apply(y, Spawn(child, tid));
    SpawnBirths(y, made, child, tid);
    forall t | t in y'.s.thr && t != MAIN ensures ParentOk(y'.s.thr, y'.birth, Noted(y, made, Spawn(child, tid)), t) {
      if t == child { SpawnedParent(y, made, child, tid); } else { SpawnOther(y, made, child, tid, t); }
    }
  }

  lemma SpawnBirths(y: Sys, made: History, child: Ptr, tid: nat)
    requires BirthsOk(y.s.thr, y.birth, y.clock, made) && Enabled(y, Spawn(child, tid))
    ensures var y' := Apply(y, Spawn(child, tid));
      && BirthsOk(y'.s.thr, y'.birth, y'.clock, Noted(y, made, Spawn(child, tid)))
      && Live(y'.s.thr, y'.birth) == Live(y.s.thr, y.birth) + {y.clock}
  {
    hide Live;
    LiveMore(y.s.thr, Apply(y, Spawn(child, tid)).s.thr, y.birth, child, y.clock);
  }

  lemma LiveMore(thr: map<Ptr, Tcb>, thr': map<Ptr, Tcb>, birth: map<Ptr, nat>, child: Ptr, b: nat)
    requires child !in thr && thr'.Keys == thr.Keys + {child} && forall t :: t in thr ==> t in birth
    ensures forall t :: t in thr' ==> t in birth[child := b]
    ensures Live(thr', birth[child := b]) == Live(thr, birth) + {b}
  {
    assert forall t :: t in thr' <==> t in thr'.Keys;
    assert forall t :: t in thr ==> t in thr' && birth[child := b][t] == birth[t];
    assert child in thr';
  }

  lemma SpawnedParent(y: Sys, made: History, child: Ptr, tid: nat)
    requires BirthsOk(y.s.thr, y.birth, y.clock, made) && Enabled(y, Spawn(child, tid))
    ensures var y' := Apply(y, Spawn(child, tid));
      && (forall u :: u in y'.s.thr ==> u in y'.birth)
      && ParentOk(y'.s.thr, y'.birth, Noted(y, made, Spawn(child, tid)), child)
  {
    var y' := Apply(y, Spawn(child, tid));
    SpawnBirths(y, made, child, tid);
    assert y.birth[y.s.cur] in Live(y.s.thr, y.birth);
    hide Live;
    NearestLive(Noted(y, made, Spawn(child, tid)), Live(y'.s.thr, y'.birth), y.birth[y.s.cur]);
  }

  lemma SpawnOther(y: Sys, made: History, child: Ptr, tid: nat, t: Ptr)
    requires BirthsOk(y.s.thr, y.birth, y.clock, made) && Enabled(y, Spawn(child, tid))
    requires t in y.s.thr && t != MAIN && ParentOk(y.s.thr, y.birth, made, t)
    ensures var y' := Apply(y, Spawn(child, tid));
      && (forall u :: u in y'.s.thr ==> u in y'.birth)
      && ParentOk(y'.s.thr, y'.birth, Noted(y, made, Spawn(child, tid)), t)
  {
    hide Nearest, Live;
    SpawnBirths(y, made, child, tid);
    NearestSpawn(made, Live(y.s.thr, y.birth), y.clock, y.birth[y.s.cur], made[y.birth[t]]);
  }

  lemma NearestLive(made: History, live: set<nat>, b: nat)
    requires b in live
    ensures Nearest(made, live, b) == b
  {
  }

  lemma RecycleHistoryKeeps(s: Sched, birth: map<Ptr, nat>, clock: nat, made: History, gone: Ptr, s': Sched)
    requires HistoryOk(s.thr, birth, clock, made) && gone in s.thr && gone != MAIN && s.thrtab != []
    requires forall t :: t in s.thr && t != MAIN ==> t in s.thrtab[1..]
    requires Reaped(s, s', gone)
    ensures HistoryOk(s'.thr, birth, clock, made)
  {
    hide Nearest, Live, ParentOk;
    assert s'.thr.Keys == s.thr.Keys - {gone};
    LiveLess(s.thr, s'.thr, birth, gone);
    forall t | t in s'.thr && t != MAIN ensures ParentOk(s'.thr, birth, made, t) {
      assert t in s.thr.Keys && t in s.thrtab[1..];
      RecycleParent(s.thr, s'.thr, birth, clock, made, gone, t);
    }
  }

  lemma RecycleParent(thr: map<Ptr, Tcb>, thr': map<Ptr, Tcb>, birth: map<Ptr, nat>, clock: nat, made: History, gone: Ptr, t: Ptr)
    requires BirthsOk(thr, birth, clock, made) && gone in thr && gone != MAIN && thr'.Keys == thr.Keys - {gone}
    requires t in thr' && t != MAIN && ParentOk(thr, birth, made, t) && ParentOk(thr, birth, made, gone)
    requires thr'[t].parent == if thr[t].parent == gone then thr[gone].parent else thr[t].parent
    ensures (forall u :: u in thr' ==> u in birth) && ParentOk(thr', birth, made, t)
  {
    var live, b := Live(thr, birth), birth[gone];
    LiveLess(thr, thr', birth, gone);
    assert b in live && 1 <= b < clock && made[b] < b;
    hide Nearest, Live;
    NearestRecycle(made, live, b, made[birth[t]]);
    NearestAtMost(made, live, made[b]);
    assert thr[gone].parent != gone;
    assert thr'[t].parent in thr'.Keys;
  }

  lemma LiveLess(thr: map<Ptr, Tcb>, thr': map<Ptr, Tcb>, birth: map<Ptr, nat>, gone: Ptr)
    requires gone in thr && thr'.Keys == thr.Keys - {gone} && forall t :: t in thr ==> t in birth
    requires forall t, u :: t in thr && u in thr && birth[t] == birth[u] ==> t == u
    ensures forall t :: t in thr' ==> t in birth
    ensures Live(thr', birth) == Live(thr, birth) - {birth[gone]}
  {
    forall b ensures b in Live(thr', birth) <==> b in Live(thr, birth) && b != birth[gone] {
      if b in Live(thr, birth) && b != birth[gone] {
        var t :| t in thr && birth[t] == b;
        assert t in thr'.Keys;
      }
    }
  }

  lemma SameHistory(thr: map<Ptr, Tcb>, thr': map<Ptr, Tcb>, birth: map<Ptr, nat>, clock: nat, made: History)
    requires HistoryOk(thr, birth, clock, made) && SameShape(thr, thr')
    ensures HistoryOk(thr', birth, clock, made)
  {
    assert Live(thr', birth) == Live(thr, birth);
    forall t | t in thr' && t != MAIN ensures ParentOk(thr', birth, made, t) {
      assert ParentOk(thr, birth, made, t);
    }
  }

  /** Steps other than a spawn or a recycling leave parents, births and the table of threads alone. */
  lemma OtherSteps(y: Sys, l: Label)
    requires Enabled(y, l) && y.s.cur in y.s.thr && !l.Spawn? && !l.JoinReap?
    requires l.Join? ==> y.s.thr[l.child].state != EXITED
    ensures SameShape(y.s.thr, Apply(y, l).s.thr) && Apply(y, l).birth == y.birth && Apply(y, l).clock == y.clock
  {
  }

  lemma ReapHistory(y: Sys, made: History, tid: nat)
    requires Inv(y) && HistoryOk(y.s.thr, y.birth, y.clock, made)
    requires 0 < tid < |y.s.thrtab| && IsExitedChild(y.s.thr, y.s.thrtab[tid], y.s.cur)
    ensures HistoryOk(Recycle(y.s, tid).thr, y.birth, y.clock, made)
  {
    hide Recycle, HistoryOk, Reaped, DistinctOk, ReadyOk, WaitOk, PhaseOk, JoinsOk, TreeOk;
    forall t | t in y.s.thr && t != MAIN ensures t in y.s.thrtab[1..] { InTable(y.s, t); }
    RecycleReaps(y.s, tid);
    RecycleHistoryKeeps(y.s, y.birth, y.clock, made, y.s.thrtab[tid], Recycle(y.s, tid));
  }

  lemma HistoryStep(y: Sys, made: History, l: Label)
    requires Inv(y) && HistoryOk(y.s.thr, y.birth, y.clock, made) && Enabled(y, l)
    ensures var y' := Apply(y, l); HistoryOk(y'.s.thr, y'.birth, y'.clock, Noted(y, made, l))
  {
    hide Inv, HistoryOk, Recycle, SameShape, BirthsOk;
    InvPhase(y);
    if l.Spawn? {
      SpawnHistoryKeeps(y, made, l.child, l.tid);
    } else if l.JoinReap? {
      ReapHistory(y, made, l.tid);
    } else if l.Join? && y.s.thr[l.child].state == EXITED {
      ReapHistory(y, made, y.s.thr[l.child].id);
    } else {
      OtherSteps(y, l);
      SameHistory(y.s.thr, Apply(y, l).s.thr, y.birth, y.clock, made);
    }
  }

  lemma {:induction false} HistoryRun(y: Sys, made: History, run: seq<Label>)
    requires Inv(y) && HistoryOk(y.s.thr, y.birth, y.clock, made) && ValidRun(y, run)
    ensures var y' := After(y, run); HistoryOk(y'.s.thr, y'.birth, y'.clock, Recorded(y, made, run))
    decreases |run|
  {
    hide Inv, HistoryOk, Enabled, Apply, Noted;
    if run != [] {
      HistoryStep(y, made, run[0]);
      StepKeeps(y, run[0]);
      HistoryRun(Apply(y, run[0]), Noted(y, made, run[0]), run[1..]);
    }
  }

  lemma InitHistory()
    ensures HistoryOk(Init().s.thr, Init().birth, Init().clock, map[1 := 0])
  {
    var y := Init();
    assert y.birth[MAIN] in Live(y.s.thr, y.birth);
    assert y.s.thr[IDLE].parent == MAIN;
  }

  /** The n-th spawner above the thread born as b. */
  ghost function Climb(made: History, b: nat, n: nat): nat
    decreases n
  {
    if n == 0 || b !in made then b else Climb(made, made[b], n - 1)
  }

  ghost predicate IsLive(y: Sys, b: nat) {
    exists t :: t in y.s.thr && Born(y, t) == b
  }

  /** Climbing n steps from b meets the first live thread, p. */
  ghost predicate FirstLive(y: Sys, made: History, b: nat, n: nat, p: Ptr) {
    && n >= 1 && p in y.s.thr && Climb(made, b, n) == Born(y, p)
    && forall k: nat :: 1 <= k < n ==> !IsLive(y, Climb(made, b, k))
  }

  /** Nearest is what it says: the first live number on the climb. */
  lemma {:induction false} NearestIsFirst(made: History, live: set<nat>, b: nat) returns (n: nat)
    requires 0 in live && forall i :: 1 <= i <= b ==> i in made && made[i] < i
    ensures Climb(made, b, n) == Nearest(made, live, b) && Climb(made, b, n) in live
    ensures forall k: nat :: k < n ==> Climb(made, b, k) !in live
    decreases b
  {
    if b in live {
      n := 0;
    } else {
      var m := NearestIsFirst(made, live, made[b]);
      n := m + 1;
      forall k: nat | k < n ensures Climb(made, b, k) !in live {
        if k > 0 { assert Climb(made, b, k) == Climb(made, made[b], k - 1); }
      }
    }
  }

  /**
   In every run a live thread's parent is the thread that spawned it, or, once that one has been
   recycled, the nearest thread still in the table among its spawner's spawner and so on: n is how
   far up, and everybody in between is gone.
   */
  lemma ParentIsSpawner(run: seq<Label>, t: Ptr)
    requires ValidRun(Init(), run) && t in After(Init(), run).s.thr && t != MAIN
    ensures var y, made := After(Init(), run), SpawnHistory(run);
      && (exists n: nat :: FirstLive(y, made, Born(y, t), n, y.s.thr[t].parent))
      && (forall u :: u in y.s.thr && Born(y, t) in made && Born(y, u) == made[Born(y, t)] ==> y.s.thr[t].parent == u)
  {
    hide Inv, ValidRun, After, Recorded, FirstLive, HistoryOk;
    var y, made := After(Init(), run), SpawnHistory(run);
    ReachableInv(run);
    InitHistory();
    InitInv();
    HistoryRun(Init(), map[1 := 0], run);
    ParentClimb(y, made, t);
  }

  lemma ParentClimb(y: Sys, made: History, t: Ptr)
    requires HistoryOk(y.s.thr, y.birth, y.clock, made) && t in y.s.thr && t != MAIN
    ensures y.s.thr[t].parent in y.s.thr
    ensures exists n: nat :: FirstLive(y, made, Born(y, t), n, y.s.thr[t].parent)
    ensures forall u :: u in y.s.thr && Born(y, t) in made && Born(y, u) == made[Born(y, t)] ==> y.s.thr[t].parent == u
  {
    hide Nearest;
    var live, b := Live(y.s.thr, y.birth), y.birth[t];
    assert ParentOk(y.s.thr, y.birth, made, t) && y.birth[MAIN] in live;
    var m := NearestIsFirst(made, live, made[b]);
    var n := m + 1;
    assert Climb(made, b, n) == Climb(made, made[b], m);
    forall k: nat | 1 <= k < n ensures !IsLive(y, Climb(made, b, k)) {
      assert Climb(made, b, k) == Climb(made, made[b], k - 1);
      assert Climb(made, made[b], k - 1) !in live;
    }
    assert FirstLive(y, made, b, n, y.s.thr[t].parent);
    forall u | u in y.s.thr && Born(y, u) == made[b] ensures y.s.thr[t].parent == u {
      assert made[b] in live;
      NearestLive(made, live, made[b]);
    }
  }

  // ---------------------------------------------------------------- spawning and joining, step by step

  /** thread_spawn gives the caller a READY child in the lowest free slot and touches no other thread. */
  lemma SpawnMakesChild(y: Sys, child: Ptr, tid: nat)
    requires Enabled(y, Spawn(child, tid))
    ensures var s, s' := y.s, Apply(y, Spawn(child, tid)).s;
      && IsChild(s'.thr, child, s.cur) && s'.thr[child].state == READY && s'.thr[child].id == tid
      && s'.thrtab == s.thrtab[tid := child] && s.thrtab[tid] == NULL && (forall j :: 1 <= j < tid ==> s.thrtab[j] != NULL)
      && s'.thr.Keys == s.thr.Keys + {child} && (forall t :: t in s.thr ==> s'.thr[t] == s.thr[t])
      && s'.cur == s.cur && s'.queues == s.queues
  {
  }

  /** child is an exited child of t, and this step recycles it and nothing else. */
  ghost predicate Reaps(y: Sys, y': Sys, t: Ptr, child: Ptr) {
    && y.s.cur == t && IsExitedChild(y.s.thr, child, t) && y.s.thrtab != [] && Reaped(y.s, y'.s, child)
    && y'.s.queues == y.s.queues && y'.s.cur == y.s.cur && y'.phase == y.phase == InKernel
  }

  /**
   A join in progress ends only by recycling: thread_join's by recycling the child it named,
   thread_join_any's the first exited child in the table. Any other step leaves it in progress.
   */
  lemma JoinReturnsExactly(run: seq<Label>, l: Label, t: Ptr)
    requires ValidRun(Init(), run) && Enabled(After(Init(), run), l) && t in After(Init(), run).s.thr
    requires CallOf(After(Init(), run), t) != NoCall
    ensures var y := After(Init(), run); var y', call := Apply(y, l), CallOf(y, t);
      if CallOf(y', t) == NoCall then
        exists tid: nat :: tid < |y.s.thrtab| && Reaps(y, y', t, y.s.thrtab[tid])
          && (if call.Joining? then call.child == y.s.thrtab[tid] else FirstExited(y.s, tid))
      else CallOf(y', t) == call
  {
    hide ValidRun, After;
    var y := After(Init(), run);
    if CallOf(Apply(y, l), t) == NoCall {
      if l.JoinReap? {
        JoinReaps(y, l.tid);
      } else if l.Join? {
        assert y.s.thr[l.child].state == EXITED;
        JoinReaps(y, y.s.thr[l.child].id);
      }
    }
  }

  lemma JoinReaps(y: Sys, tid: nat)
    requires y.phase == InKernel && 0 < tid < |y.s.thrtab| && IsExitedChild(y.s.thr, y.s.thrtab[tid], y.s.cur)
    ensures Reaps(y, y.(s := Recycle(y.s, tid), call := y.call[y.s.cur := NoCall]), y.s.cur, y.s.thrtab[tid])
  {
    hide Reaped;
    RecycleReaps(y.s, tid);
  }

  /**
   thread_join on a child recycles it at once exactly if it has exited, and otherwise waits on the
   caller's own condition; thread_join_any recycles exactly the first exited child of the table.
   */
  lemma JoinStarts(y: Sys, l: Label)
    requires Enabled(y, l) && (l.Join? || l.JoinReap? || l.JoinWait?)
    ensures var y', me := Apply(y, l), y.s.cur;
      match l
      case Join(child) =>
        if y.s.thr[child].state == EXITED then Reaps(y, y', me, child) && CallOf(y', me) == NoCall
        else WaitsForChild(y', me) && CallOf(y', me) == Joining(child)
      case JoinReap(tid) => Reaps(y, y', me, y.s.thrtab[tid]) && CallOf(y', me) == NoCall && FirstExited(y.s, tid)
      case JoinWait => WaitsForChild(y', me) && CallOf(y', me) == JoiningAny
  {
    hide Reaped, Reaps, Recycle;
    if l.JoinReap? {
      JoinReaps(y, l.tid);
    } else if l.Join? && y.s.thr[l.child].state == EXITED {
      JoinReaps(y, y.s.thr[l.child].id);
    }
  }

  ghost predicate WaitsForChild(y: Sys, me: Ptr) {
    y.s.cur == me && me in y.s.thr && y.s.thr[me].state == WAITING && y.s.thr[me].waitCond == On(ChildExit(me))
  }
}
