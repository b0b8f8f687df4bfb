/**
 Cloning a memory space (src/kern/memory.c:327-388): the new space gets its own copy of every
 page user mode could reach, and stores through one space never show in the other.
 */
module Fork {
  import opened Sv39
  import opened PageTables
  import opened PagePool
  import opened Spaces
  import opened MapRange

  /** Nothing that was in use before has changed its use or its contents. */
  ghost predicate Untouched(s0: State, s: State) {
    && s.mainRoot == s0.mainRoot && s.mainPt1 == s0.mainPt1 && s.mem.Keys == s0.mem.Keys
    && forall p :: p in s0.mem && !RoleOf(s0.role, p).Free? ==> RoleOf(s.role, p) == RoleOf(s0.role, p) && PageKept(s0, s, p)
  }

  lemma OldSpaces(s0: State, s: State, r: nat)
    requires Valid(s0) && Untouched(s0, s) && IsRoot(s0.role, r)
    ensures SameSpace(s0.mem, s.mem, r) && IsRoot(s.role, r)
  {
    assert forall p :: p in s0.mem && TableOf(s0.role, p, r) ==> PageKept(s0, s, p);
    SpaceFrame(s0.mem, s0.role, s.mem, r);
  }

  // ---------------------------------------------------------------- the new root

  function RootWords(s: State, p: nat): seq<Word>
    requires p in s.mem && |s.mem[p]| == PTE_CNT && s.mainRoot in s.mem && |s.mem[s.mainRoot]| == PTE_CNT
  {
    var main := s.mem[s.mainRoot];
    s.mem[p][0 := main[0]][1 := main[1]][2 := PtabPte(s.mainPt1)]
  }

  function NewRoot(s: State): State
    requires s.free != [] && s.free[0] in s.mem && |s.mem[s.free[0]]| == PTE_CNT
    requires s.mainRoot in s.mem && |s.mem[s.mainRoot]| == PTE_CNT
  {
    var p := s.free[0];
    Take(s, Root).(mem := s.mem[p := RootWords(s, p)])
  }

  lemma NewRootKeeps(s: State)
    requires Ready(s) && s.free != []
    ensures s.free[0] in s.mem && |s.mem[s.free[0]]| == PTE_CNT && s.mainRoot in s.mem && |s.mem[s.mainRoot]| == PTE_CNT
    ensures var s' := NewRoot(s);
      var child := s.free[0];
      && Ready(s') && Untouched(s, s') && IsRoot(s'.role, child) && RoleOf(s.role, child).Free?
      && L1Of(s'.mem, child) == 0
      && s'.free == s.free[1..]
  {
    hide MemOk, FreeOk, SharedKernel, FreeClean, OwnersOk, PageClean, RootWords;
    FirstFree(s);
    NewRootMem(s);
    NewRootFree(s);
    NewRootClean(s);
    NewRootShared(s);
    OwnersKept(s.role, s.free[0], Root);
    RootEntry(s);
    var s' := NewRoot(s);
    assert forall q :: q in s.mem && q != s.free[0] ==> PageKept(s, s', q);
    assert Fits(s.mem);
  }

  lemma FirstFree(s: State)
    requires Ready(s) && s.free != []
    ensures var p := s.free[0]; p in s.mem && p in s.role && |s.mem[p]| == PTE_CNT && RoleOf(s.role, p).Free? && PageClean(s.mem, p)
    ensures s.mainRoot in s.mem && |s.mem[s.mainRoot]| == PTE_CNT && IsRoot(s.role, s.mainRoot)
  {
    assert s.free[0] in s.free;
  }

  /** The new space has no user tables. */
  lemma RootEntry(s: State)
    requires s.free != [] && s.free[0] in s.mem && |s.mem[s.free[0]]| == PTE_CNT && PageClean(s.mem, s.free[0])
    requires s.mainRoot in s.mem && |s.mem[s.mainRoot]| == PTE_CNT
    ensures L1Of(NewRoot(s).mem, s.free[0]) == 0
  {
    var p, s' := s.free[0], NewRoot(s);
    assert Index(3) && Clean(Entry(s.mem, p, 3)) && Entry(s'.mem, p, 3) == Entry(s.mem, p, 3);
  }

  lemma NewRootMem(s: State)
    requires Ready(s) && s.free != [] && s.free[0] in s.mem && RoleOf(s.role, s.free[0]).Free?
    requires s.mainRoot in s.mem && |s.mem[s.mainRoot]| == PTE_CNT
    ensures |s.mem[s.free[0]]| == PTE_CNT && MemOk(NewRoot(s).mem, NewRoot(s).role)
  {
    var p := s.free[0];
    var words := RootWords(s, p);
    FillKeeps(s.mem, s.role, p, words);
    var mem', role' := s.mem[p := words], s.role[p := Root];
    forall k | 0 <= k < PTE_CNT ensures WordOk(role', p, k, words[k]) {
      assert Index(k) && PageClean(s.mem, p) && Clean(Entry(s.mem, p, k));
      if k < 3 {
        assert WordOk(s.role, s.mainRoot, k, s.mem[s.mainRoot][k]);
        assert words[k] == Entry(s.mem, s.mainRoot, k);
      }
    }
    RetypeKeeps(mem', s.role, p, Root);
  }

  lemma NewRootFree(s: State)
    requires FreeOk(s.mem, s.role, s.freeList, s.free)
    requires s.free != [] && s.free[0] in s.role && s.free[0] in s.mem && |s.mem[s.free[0]]| == PTE_CNT
    requires s.mainRoot in s.mem && |s.mem[s.mainRoot]| == PTE_CNT
    ensures var s' := NewRoot(s); FreeOk(s'.mem, s'.role, s'.freeList, s'.free)
  {
    var p, s' := s.free[0], NewRoot(s);
    TakeFree(s, Root);
    hide RootWords;
    assert p !in s'.free;
    forall n | 0 <= n < |s'.free| ensures Entry(s'.mem, s'.free[n], 0) == Entry(s.mem, s'.free[n], 0) {}
  }

  lemma NewRootClean(s: State)
    requires FreeClean(s.mem, s.role)
    requires s.free != [] && s.free[0] in s.role && s.free[0] in s.mem && |s.mem[s.free[0]]| == PTE_CNT
    requires s.mainRoot in s.mem && |s.mem[s.mainRoot]| == PTE_CNT
    ensures FreeClean(NewRoot(s).mem, NewRoot(s).role)
  {
    var p, s' := s.free[0], NewRoot(s);
    hide RootWords;
    forall q | RoleOf(s'.role, q).Free? ensures PageClean(s'.mem, q) {
      assert RoleOf(s.role, q).Free? && PageClean(s.mem, q);
      assert forall k :: Index(k) ==> Entry(s'.mem, q, k) == Entry(s.mem, q, k);
    }
  }

  lemma NewRootShared(s: State)
    requires SharedKernel(s.mem, s.role, s.mainRoot, s.mainPt1)
    requires s.free != [] && RoleOf(s.role, s.free[0]).Free? && s.free[0] in s.mem && |s.mem[s.free[0]]| == PTE_CNT
    requires s.mainRoot in s.mem && |s.mem[s.mainRoot]| == PTE_CNT
    ensures var s' := NewRoot(s); SharedKernel(s'.mem, s'.role, s'.mainRoot, s'.mainPt1)
  {
    var p, s' := s.free[0], NewRoot(s);
    assert s.mainRoot != p;
    forall r, k | IsRoot(s'.role, r) && 0 <= k < KERNEL_WORDS ensures Entry(s'.mem, r, k) == Entry(s'.mem, s.mainRoot, k) {
      if r != p {
        assert IsRoot(s.role, r) && Entry(s.mem, r, k) == Entry(s.mem, s.mainRoot, k);
      }
    }
  }

  /** Beyond the direct map the space translates nothing. */
  ghost predicate Silent(mem: Mem, root: nat) {
    forall v2, v1, v0 :: Index(v2) && 3 <= v2 && Index(v1) && Index(v0) ==> Translate(mem, root, v2, v1, v0) == Fault
  }

  /** No word of the page from 3 on leads to a page. */
  ghost predicate LeadsNowhere(mem: Mem, p: nat) {
    forall v2, v1, v0 :: Index(v2) && 3 <= v2 && Index(v1) && Index(v0) ==> Level2Step(mem, Entry(mem, p, v2), v1, v0) == Fault
  }

  /** The walk takes the word for a pointer to the table. */
  predicate PointsTo(e: Word, table: nat) { !Faults(e) && !IsLeaf(e) && !BadPointer(e) && e.ppn == table }

  /** Nor back to the page itself, as the next table or the one after. */
  ghost predicate NoWayBack(mem: Mem, p: nat) {
    forall v2, v1 :: Index(v2) && 3 <= v2 && Index(v1) ==> !WayBack(mem, p, v2, v1)
  }

  ghost predicate WayBack(mem: Mem, p: nat, v2: nat, v1: nat) {
    var e := Entry(mem, p, v2);
    PointsTo(e, p) || (PointsTo(e, e.ppn) && e.ppn != p && PointsTo(Entry(mem, e.ppn, v1), p))
  }

  ghost predicate RootPage(s: State) {
    && s.free != [] && s.free[0] in s.mem && |s.mem[s.free[0]]| == PTE_CNT
    && s.mainRoot in s.mem && |s.mem[s.mainRoot]| == PTE_CNT && s.mainRoot != s.free[0]
  }

  lemma HasRootPage(s: State)
    requires Valid(s) && s.free != []
    ensures RootPage(s)
  {
    assert s.free[0] in s.free;
    assert IsRoot(s.role, s.mainRoot);
  }

  /** Only words 0 to 2 of the new root are written. */
  lemma RootWritten(s: State, q: nat, k: nat)
    requires RootPage(s)
    ensures !(q == s.free[0] && k < 3) ==> Entry(NewRoot(s).mem, q, k) == Entry(s.mem, q, k)
    ensures Entry(NewRoot(s).mem, s.free[0], 0) == Entry(s.mem, s.mainRoot, 0)
  {
  }

  /** Where no walk comes back to the page, it goes as in the old memory. */
  lemma WalksAsBefore(s: State, v2: nat, v1: nat, v0: nat)
    requires RootPage(s) && Index(v2) && 3 <= v2 && Index(v1) && Index(v0) && !WayBack(s.mem, s.free[0], v2, v1)
    ensures Translate(NewRoot(s).mem, s.free[0], v2, v1, v0) == Level2Step(s.mem, Entry(s.mem, s.free[0], v2), v1, v0)
  {
    var p := s.free[0];
    RootWritten(s, p, v2);
    var e := Entry(s.mem, p, v2);
    RootWritten(s, e.ppn, v1);
    var e1 := Entry(s.mem, e.ppn, v1);
    RootWritten(s, e1.ppn, v0);
    hide NewRoot, RootPage, Entry;
  }

  /** A walk that comes back finds the direct map and translates. */
  lemma WayBackShows(s: State, v2: nat, v1: nat)
    requires RootPage(s) && Gigapage0(s.mem, s.mainRoot) && Index(v2) && 3 <= v2 && Index(v1) && WayBack(s.mem, s.free[0], v2, v1)
    ensures !Silent(NewRoot(s).mem, s.free[0])
  {
    var p, mem' := s.free[0], NewRoot(s).mem;
    RootWritten(s, p, v2);
    var e := Entry(s.mem, p, v2);
    RootWritten(s, e.ppn, v1);
    RootWritten(s, p, 0);
    hide NewRoot, RootPage, Entry;
    assert Index(0);
    if PointsTo(e, p) {
      assert Translate(mem', p, v2, 0, 0) != Fault;
    } else {
      assert Translate(mem', p, v2, v1, 0) != Fault;
    }
  }

  /**
   A clone's root is not cleared either: the new space translates nothing beyond the direct map
   exactly when, before the call, no word of the page from 3 on leads to a page or back to the page.
   */
  lemma DirtyRoot(s: State)
    requires Valid(s) && s.free != []
    ensures RootPage(s)
    ensures Silent(NewRoot(s).mem, s.free[0]) <==> LeadsNowhere(s.mem, s.free[0]) && NoWayBack(s.mem, s.free[0])
  {
    assert Gigapage0(s.mem, s.mainRoot);
    hide Valid, NewRoot, RootPage, WayBack, Translate, Level2Step, Gigapage0;
    HasRootPage(s);
    var p, mem' := s.free[0], NewRoot(s).mem;
    if !NoWayBack(s.mem, p) {
      var v2, v1 :| Index(v2) && 3 <= v2 && Index(v1) && WayBack(s.mem, p, v2, v1);
      WayBackShows(s, v2, v1);
    } else {
      forall v2, v1, v0 | Index(v2) && 3 <= v2 && Index(v1) && Index(v0)
        ensures Translate(mem', p, v2, v1, v0) == Level2Step(s.mem, Entry(s.mem, p, v2), v1, v0)
      {
        WalksAsBefore(s, v2, v1, v0);
      }
      SilentOrNot(s, mem', p);
    }
  }

  lemma SilentOrNot(s: State, mem': Mem, p: nat)
    requires forall v2, v1, v0 {:trigger Translate(mem', p, v2, v1, v0)} :: Index(v2) && 3 <= v2 && Index(v1) && Index(v0) ==>
      Translate(mem', p, v2, v1, v0) == Level2Step(s.mem, Entry(s.mem, p, v2), v1, v0)
    ensures Silent(mem', p) <==> LeadsNowhere(s.mem, p)
  {
    hide Translate, Level2Step, Entry;
    if Silent(mem', p) {
      forall v2, v1, v0 | Index(v2) && 3 <= v2 && Index(v1) && Index(v0) ensures Level2Step(s.mem, Entry(s.mem, p, v2), v1, v0) == Fault {
        assert Translate(mem', p, v2, v1, v0) == Fault;
      }
    }
  }

  const STALE := Word(Flags(true, true, true, false, true, false, true, true), 0, 0, 0)   // a gigapage leaf

  /** The state after the kernel has taken a page, left a word in it and freed it again. */
  function Soiled(s: State): State
    requires s.free != [] && s.free[0] in s.mem && |s.mem[s.free[0]]| == PTE_CNT
  {
    Give(Put(Take(s, Kernel), s.free[0], 4, STALE), s.free[0])
  }

  /** It happens: a page freed with a leaf in word 4 makes the next clone translate an address nobody mapped. */
  lemma SoiledRootShows(s: State)
    requires Ready(s) && s.free != []
    ensures s.free[0] in s.mem && |s.mem[s.free[0]]| == PTE_CNT && Valid(Soiled(s)) && RootPage(Soiled(s)) && Soiled(s).free[0] == s.free[0]
    ensures Translate(NewRoot(Soiled(s)).mem, s.free[0], 4, 0, 0) == Mapped(0, STALE.f)
  {
    var p := s.free[0];
    FirstFree(s);
    TakeKeeps(s, Kernel);
    var s1 := Take(s, Kernel);
    assert RoleOf(s1.role, p) == Kernel;
    assert WordOk(s1.role, p, 4, STALE) && Index(4);
    hide MemOk, FreeOk, FreeClean, SharedKernel, OwnersOk;
    PutKeeps(s1, p, 4, STALE);
    GiveKeeps(Put(s1, p, 4, STALE), p);
    HasRootPage(Soiled(s));
    RootWritten(Soiled(s), p, 4);
    assert Entry(Soiled(s).mem, p, 4) == STALE;
    hide NewRoot, Valid;
  }

  // ---------------------------------------------------------------- copying one page

  ghost predicate Copyable(s: State, parent: nat, child: nat, i: nat, j: nat) {
    && Walkable(s, child, i) && Index(j) && IsRoot(s.role, parent)
    && ViewOf(s.mem, parent, i, j).Page?
    && Missing(s.mem, child, i) < |s.free|
  }

  function Copy(s: State, use: Role, words: seq<Word>): State
    requires s.free != []
  {
    Take(s, use).(mem := s.mem[s.free[0] := words])
  }

  /** Only a free page is taken and filled. */
  lemma CopyKeeps(s: State, child: nat, i: nat, j: nat, words: seq<Word>)
    requires Ready(s) && IsRoot(s.role, child) && s.free != [] && |words| == PTE_CNT
    ensures var s' := Copy(s, Data(child, i, j), words);
      && Ready(s') && Extends(s, s', child) && IsRoot(s'.role, child)
      && SameSpace(s.mem, s'.mem, child)
  {
    var p, use := s.free[0], Data(child, i, j);
    var s1, s' := Take(s, use), Copy(s, use, words);
    TakeKeeps(s, use);
    FillKeeps(s1.mem, s1.role, p, words);
    assert forall q :: q in s.mem && q != p ==> PageKept(s, s', q);
    forall q, k: nat | q != p ensures Entry(s'.mem, q, k) == Entry(s.mem, q, k) {}
    assert p !in s'.free by { assert s1.free == s'.free && RoleOf(s1.role, p) == use; }
    SpaceFrame(s.mem, s.role, s'.mem, child);
    CopyPool(s1, s', p);
    assert child != p;
  }

  lemma CopyPool(s: State, s': State, p: nat)
    requires Ready(s) && RoleOf(s.role, p).Data? && MemOk(s'.mem, s'.role) && s'.mem.Keys == s.mem.Keys
    requires s' == s.(mem := s'.mem) && forall q, k: nat :: q != p ==> Entry(s'.mem, q, k) == Entry(s.mem, q, k)
    ensures Ready(s')
  {
    hide MemOk, OwnersOk;
    assert p !in s.free && !IsRoot(s.role, p);
    forall r, k | IsRoot(s'.role, r) && 0 <= k < KERNEL_WORDS ensures Entry(s'.mem, r, k) == Entry(s'.mem, s.mainRoot, k) {
      assert Entry(s.mem, r, k) == Entry(s.mem, s.mainRoot, k);
    }
  }

  ghost function CopyPage(s: State, parent: nat, child: nat, i: nat, j: nat): State
    requires Copyable(s, parent, child, i, j)
  {
    var v, p := ViewOf(s.mem, parent, i, j), s.free[0];
    MappedIsData(s.mem, s.role, parent, i, j);
    CopyKeeps(s, child, i, j, s.mem[v.page]);
    var s1 := Copy(s, Data(child, i, j), s.mem[v.page]);
    WalkKeeps(s1, child, i);
    var s2 := Walk(s1, child, i);
    TablesAreTables(s2.mem, s2.role, child, i);
    var p0 := L0Of(s2.mem, child, i);
    Put(s2, p0, j, s2.mem[p0][j].(f := v.f, ppn := p))
  }

  lemma CopyPageKeeps(s: State, parent: nat, child: nat, i: nat, j: nat)
    requires Copyable(s, parent, child, i, j)
    ensures var s' := CopyPage(s, parent, child, i, j);
      var v := ViewOf(s.mem, parent, i, j);
      && Ready(s') && Extends(s, s', child) && IsRoot(s'.role, child)
      && s'.free == s.free[1 + Missing(s.mem, child, i)..]
      && L1Of(s'.mem, child) != 0 && L0Of(s'.mem, child, i) != 0
      && (forall i' :: Index(i') && i' != i ==> L0Of(s'.mem, child, i') == L0Of(s.mem, child, i'))
      && ViewOf(s'.mem, child, i, j) == Page(s.free[0], v.f)
      && OthersKept(s, s', child, i, j)
      && v.page in s.mem && s.free[0] in s'.mem && s'.mem[s.free[0]] == s.mem[v.page]
  {
    hide Extends, L1Of, L0Of, Walk, ViewOf, FreeClean, MemOk, FreeOk, SharedKernel, OwnersOk;
    var v, p := ViewOf(s.mem, parent, i, j), s.free[0];
    ParentPage(s, parent, i, j);
    CopyKeeps(s, child, i, j, s.mem[v.page]);
    var s1 := Copy(s, Data(child, i, j), s.mem[v.page]);
    WalkKeeps(s1, child, i);
    var s2 := Walk(s1, child, i);
    CopyLeaf(s1, s2, child, i, j, p, v.f);
    hide Ready, Put, Copy;
    ExtendsTrans(s, s1, s2, child);
    ExtendsTrans(s, s2, CopyPage(s, parent, child, i, j), child);
  }

  lemma ParentPage(s: State, parent: nat, i: nat, j: nat)
    requires Valid(s) && IsRoot(s.role, parent) && Index(i) && Index(j) && ViewOf(s.mem, parent, i, j).Page?
    ensures var v := ViewOf(s.mem, parent, i, j); v.f.v && v.page in s.mem && |s.mem[v.page]| == PTE_CNT
  {
    MappedIsData(s.mem, s.role, parent, i, j);
  }

  /** The copy's leaf: flags and page number replaced. */
  lemma CopyLeaf(s1: State, s2: State, child: nat, i: nat, j: nat, p: nat, f: Flags)
    requires Ready(s2) && Extends(s1, s2, child) && IsRoot(s2.role, child) && Index(i) && Index(j)
    requires L0Of(s2.mem, child, i) != 0 && f.v
    requires p in s1.mem && RoleOf(s1.role, p) == Data(child, i, j) && IsRoot(s1.role, child)
    ensures L0Of(s2.mem, child, i) in s2.mem && |s2.mem[L0Of(s2.mem, child, i)]| == PTE_CNT
    ensures var p0 := L0Of(s2.mem, child, i);
      var s' := Put(s2, p0, j, s2.mem[p0][j].(f := f, ppn := p));
      && Ready(s') && Extends(s2, s', child)
      && SameTables(s2.mem, s'.mem, child)
      && ViewOf(s'.mem, child, i, j) == Page(p, f)
      && OthersKept(s2, s', child, i, j)
      && p in s'.mem && s'.mem[p] == s1.mem[p]
  {
    TablesAreTables(s2.mem, s2.role, child, i);
    MappedIsData(s2.mem, s2.role, child, i, j);
    var p0 := L0Of(s2.mem, child, i);
    assert s2.mem[p0][j] == Entry(s2.mem, p0, j);
    var w := s2.mem[p0][j].(f := f, ppn := p);
    CopyKeptPage(s1, s2, child, i, j, p);
    LeafOnly(s2, child, i, j, w);
    hide Ready, Extends, SameTables, OthersKept, ViewOf;
  }

  /** The filled page stays as it is while tables are added and its leaf is written. */
  lemma CopyKeptPage(s1: State, s2: State, child: nat, i: nat, j: nat, p: nat)
    requires Valid(s2) && Extends(s1, s2, child) && IsRoot(s1.role, child) && IsRoot(s2.role, child) && Index(i) && L0Of(s2.mem, child, i) != 0
    requires p in s1.mem && RoleOf(s1.role, p) == Data(child, i, j)
    ensures PageKept(s1, s2, p) && RoleOf(s2.role, p) == Data(child, i, j) && p != L0Of(s2.mem, child, i)
  {
    TablesAreTables(s2.mem, s2.role, child, i);
    hide MemOk, FreeOk, SharedKernel, OwnersOk, L0Of;
  }

  // ---------------------------------------------------------------- the whole user range

  const CLONED := 65536   // user pages from USER_START_VMA to USER_END_VMA

  /** User page k is valid and user accessible. */
  predicate Copies(mem: Mem, parent: nat, k: nat) {
    var v := ViewOf(mem, parent, Hi(k), Lo(k));
    v.Page? && v.f.u
  }

  ghost predicate AnyCopied(mem: Mem, parent: nat, lo: nat, hi: nat) {
    exists k: nat :: lo <= k < hi && Copies(mem, parent, k)
  }

  /** Pages taken for the root, the first k user pages and the tables they need. */
  ghost function Cost(mem: Mem, parent: nat, k: nat): nat {
    if k == 0 then 1
    else Cost(mem, parent, k - 1) + if Copies(mem, parent, k - 1) then
      1 + (if AnyCopied(mem, parent, 0, k - 1) then 0 else 1) + (if AnyCopied(mem, parent, 512 * Hi(k - 1), k - 1) then 0 else 1)
    else 0
  }

  lemma {:induction false} CostGrows(mem: Mem, parent: nat, k: nat, n: nat)
    requires k <= n
    ensures Cost(mem, parent, k) <= Cost(mem, parent, n)
    decreases n
  {
    if k < n {
      CostGrows(mem, parent, k, n - 1);
    }
  }

  /** The child's page k is a private copy of the parent's, or absent. */
  ghost predicate CopyOf(s0: State, s: State, parent: nat, child: nat, k: nat) {
    var v, v' := ViewOf(s0.mem, parent, Hi(k), Lo(k)), ViewOf(s.mem, child, Hi(k), Lo(k));
    if Copies(s0.mem, parent, k) then
      && v'.Page? && v'.f == v.f && RoleOf(s0.role, v'.page).Free?
      && v.page in s0.mem && v'.page in s.mem && s.mem[v'.page] == s0.mem[v.page]
    else v' == Unmapped
  }

  ghost predicate Behind(s0: State, s: State, parent: nat, child: nat, k: nat) {
    forall n: nat :: n < k ==> CopyOf(s0, s, parent, child, n)
  }

  ghost predicate Ahead(mem: Mem, child: nat, k: nat) {
    forall n: nat :: k <= n < USER_PAGES ==> ViewOf(mem, child, Hi(n), Lo(n)) == Unmapped
  }

  function Upto(k: nat, i: nat): nat { if k < 512 * i + 512 then k else 512 * i + 512 }

  ghost predicate TablesMatch(mem0: Mem, mem: Mem, parent: nat, child: nat, k: nat) {
    && (L1Of(mem, child) != 0 <==> AnyCopied(mem0, parent, 0, k))
    && forall i: nat :: Index(i) ==> (L0Of(mem, child, i) != 0 <==> AnyCopied(mem0, parent, 512 * i, Upto(k, i)))
  }

  ghost predicate CloneInv(s0: State, s: State, parent: nat, child: nat, k: nat) {
    && Ready(s) && Untouched(s0, s) && IsRoot(s.role, child) && RoleOf(s0.role, child).Free?
    && Behind(s0, s, parent, child, k) && Ahead(s.mem, child, k) && TablesMatch(s0.mem, s.mem, parent, child, k)
    && Cost(s0.mem, parent, k) <= |s0.free| && s.free == s0.free[Cost(s0.mem, parent, k)..]
  }

  ghost predicate Source(s0: State, parent: nat) { Ready(s0) && IsRoot(s0.role, parent) }

  lemma CloneStart(s0: State, parent: nat)
    requires Source(s0, parent) && s0.free != []
    ensures s0.free[0] in s0.mem && |s0.mem[s0.free[0]]| == PTE_CNT && s0.mainRoot in s0.mem && |s0.mem[s0.mainRoot]| == PTE_CNT
    ensures CloneInv(s0, NewRoot(s0), parent, s0.free[0], 0)
  {
    NewRootKeeps(s0);
    hide NewRoot, Ready, Untouched, Ahead, TablesMatch, L1Of;
    NoTables(s0.mem, NewRoot(s0).mem, parent, s0.free[0]);
  }

  lemma NoTables(mem0: Mem, mem: Mem, parent: nat, child: nat)
    requires L1Of(mem, child) == 0
    ensures Ahead(mem, child, 0) && TablesMatch(mem0, mem, parent, child, 0)
  {
    forall i: nat | Index(i) ensures L0Of(mem, child, i) == 0 && !AnyCopied(mem0, parent, 512 * i, Upto(0, i)) {}
    forall n: nat | n < USER_PAGES ensures ViewOf(mem, child, Hi(n), Lo(n)) == Unmapped {}
  }

  lemma ParentSame(s0: State, s: State, parent: nat, child: nat, k: nat)
    requires Source(s0, parent) && CloneInv(s0, s, parent, child, k) && k < USER_PAGES
    ensures IsRoot(s.role, parent) && parent != child
    ensures ViewOf(s.mem, parent, Hi(k), Lo(k)) == ViewOf(s0.mem, parent, Hi(k), Lo(k))
    ensures ViewOf(s0.mem, parent, Hi(k), Lo(k)).Page? ==> var p := ViewOf(s0.mem, parent, Hi(k), Lo(k)).page;
      p in s0.mem && PageKept(s0, s, p)
  {
    HiLo(k);
    OldSpaces(s0, s, parent);
    MappedIsData(s0.mem, s0.role, parent, Hi(k), Lo(k));
  }

  lemma UntouchedStep(s0: State, s: State, s': State, child: nat)
    requires Valid(s0) && Untouched(s0, s) && Extends(s, s', child) && RoleOf(s0.role, child).Free?
    ensures Untouched(s0, s')
  {
    forall p | p in s0.mem && !RoleOf(s0.role, p).Free? ensures RoleOf(s'.role, p) == RoleOf(s0.role, p) && PageKept(s0, s', p) {
      assert PageKept(s0, s, p) && OwnerOk(s0.role, RoleOf(s0.role, p));
      assert !TableOf(s.role, p, child);
      assert PageKept(s, s', p);
    }
  }

  lemma BehindStep(s0: State, s: State, s': State, parent: nat, child: nat, k: nat)
    requires Valid(s) && IsRoot(s.role, child) && Extends(s, s', child) && k < USER_PAGES
    requires Behind(s0, s, parent, child, k) && OthersKept(s, s', child, Hi(k), Lo(k))
    ensures Behind(s0, s', parent, child, k)
  {
    forall n: nat | n < k ensures CopyOf(s0, s', parent, child, n) {
      assert CopyOf(s0, s, parent, child, n);
      HiLo(n);
      HiLo(k);
      CopyKept(s0, s, s', parent, child, n);
    }
  }

  lemma CopyKept(s0: State, s: State, s': State, parent: nat, child: nat, n: nat)
    requires Valid(s) && IsRoot(s.role, child) && Extends(s, s', child) && CopyOf(s0, s, parent, child, n)
    requires Index(Hi(n)) && Index(Lo(n))
    requires ViewOf(s'.mem, child, Hi(n), Lo(n)) == ViewOf(s.mem, child, Hi(n), Lo(n))
    ensures CopyOf(s0, s', parent, child, n)
  {
    hide Hi, Lo;
    MappedIsData(s.mem, s.role, child, Hi(n), Lo(n));
    hide ViewOf, MemOk, FreeOk, SharedKernel, OwnersOk;
    var v := ViewOf(s.mem, child, Hi(n), Lo(n));
    if v.Page? {
      assert v.page in s.mem && !TableOf(s.role, v.page, child) && PageKept(s, s', v.page);
    }
  }

  lemma AheadStep(s: State, s': State, child: nat, k: nat)
    requires Ahead(s.mem, child, k) && OthersKept(s, s', child, Hi(k), Lo(k)) && k < USER_PAGES
    ensures Ahead(s'.mem, child, k + 1)
  {
    HiLo(k);
    forall n: nat | k + 1 <= n < USER_PAGES ensures ViewOf(s'.mem, child, Hi(n), Lo(n)) == Unmapped {
      HiLo(n);
    }
  }

  lemma AnyStep(mem0: Mem, parent: nat, lo: nat, k: nat)
    requires lo <= k
    ensures AnyCopied(mem0, parent, lo, k + 1) <==> AnyCopied(mem0, parent, lo, k) || Copies(mem0, parent, k)
  {
    hide Copies;
  }

  lemma TablesSkip(mem0: Mem, mem: Mem, parent: nat, child: nat, k: nat)
    requires TablesMatch(mem0, mem, parent, child, k) && !Copies(mem0, parent, k)
    ensures TablesMatch(mem0, mem, parent, child, k + 1)
  {
    hide Copies, L1Of, L0Of;
    AnyStep(mem0, parent, 0, k);
    forall i: nat | Index(i)
      ensures AnyCopied(mem0, parent, 512 * i, Upto(k + 1, i)) <==> AnyCopied(mem0, parent, 512 * i, Upto(k, i))
    {
      if 512 * i <= k < 512 * i + 512 {
        AnyStep(mem0, parent, 512 * i, k);
      }
    }
  }

  lemma TablesCopy(mem0: Mem, mem: Mem, mem': Mem, parent: nat, child: nat, k: nat)
    requires TablesMatch(mem0, mem, parent, child, k) && Copies(mem0, parent, k) && k < USER_PAGES
    requires L1Of(mem', child) != 0 && L0Of(mem', child, Hi(k)) != 0
    requires forall i :: Index(i) && i != Hi(k) ==> L0Of(mem', child, i) == L0Of(mem, child, i)
    ensures TablesMatch(mem0, mem', parent, child, k + 1)
  {
    hide Copies, L1Of, L0Of;
    AnyStep(mem0, parent, 0, k);
    forall i: nat | Index(i)
      ensures L0Of(mem', child, i) != 0 <==> AnyCopied(mem0, parent, 512 * i, Upto(k + 1, i))
    {
      if i == Hi(k) {
        AnyStep(mem0, parent, 512 * i, k);
      } else {
        assert Upto(k + 1, i) == Upto(k, i) || (Upto(k, i) <= 512 * i && Upto(k + 1, i) <= 512 * i);
      }
    }
  }

  lemma MissingTables(mem0: Mem, mem: Mem, parent: nat, child: nat, k: nat)
    requires TablesMatch(mem0, mem, parent, child, k) && Copies(mem0, parent, k) && k < USER_PAGES
    ensures Cost(mem0, parent, k + 1) == Cost(mem0, parent, k) + 1 + Missing(mem, child, Hi(k))
  {
    HiLo(k);
    hide Copies, L1Of, L0Of;
    assert Upto(k, Hi(k)) == k;
  }

  lemma CloneSkip(s0: State, s: State, parent: nat, child: nat, k: nat)
    requires Source(s0, parent) && CloneInv(s0, s, parent, child, k) && k < CLONED && !Copies(s0.mem, parent, k)
    ensures CloneInv(s0, s, parent, child, k + 1)
  {
    TablesSkip(s0.mem, s.mem, parent, child, k);
    hide Ready, Untouched, TablesMatch, Copies, Hi, Lo, ViewOf;
    assert CopyOf(s0, s, parent, child, k);
    assert Behind(s0, s, parent, child, k + 1);
  }

  lemma CloneCopy(s0: State, s: State, parent: nat, child: nat, k: nat)
    requires Source(s0, parent) && CloneInv(s0, s, parent, child, k) && k < CLONED && Copies(s0.mem, parent, k)
    ensures Cost(s0.mem, parent, k + 1) <= |s0.free| <==> Copyable(s, parent, child, Hi(k), Lo(k))
    ensures Copyable(s, parent, child, Hi(k), Lo(k)) ==>
      CloneInv(s0, CopyPage(s, parent, child, Hi(k), Lo(k)), parent, child, k + 1)
  {
    hide AnyCopied, CopyOf, Hi, Lo, ViewOf, Missing, Cost, CopyPage, MemOk, FreeOk, FreeClean, SharedKernel, OwnersOk, Extends, OthersKept, Untouched, Ahead, Behind, TablesMatch;
    HiLo(k);
    ParentSame(s0, s, parent, child, k);
    MissingTables(s0.mem, s.mem, parent, child, k);
    if Copyable(s, parent, child, Hi(k), Lo(k)) {
      CopyPageKeeps(s, parent, child, Hi(k), Lo(k));
      var s' := CopyPage(s, parent, child, Hi(k), Lo(k));
      UntouchedStep(s0, s, s', child);
      BehindStep(s0, s, s', parent, child, k);
      AheadStep(s, s', child, k);
      TablesCopy(s0.mem, s.mem, s'.mem, parent, child, k);
      NewCopy(s0, s, s', parent, child, k);
      BehindNext(s0, s', parent, child, k);
    }
  }

  lemma BehindNext(s0: State, s: State, parent: nat, child: nat, k: nat)
    requires Behind(s0, s, parent, child, k) && CopyOf(s0, s, parent, child, k)
    ensures Behind(s0, s, parent, child, k + 1)
  {
  }

  lemma NewCopy(s0: State, s: State, s': State, parent: nat, child: nat, k: nat)
    requires CloneInv(s0, s, parent, child, k) && Copies(s0.mem, parent, k) && s.free != []
    requires var v := ViewOf(s0.mem, parent, Hi(k), Lo(k));
      && ViewOf(s'.mem, child, Hi(k), Lo(k)) == Page(s.free[0], v.f)
      && v.page in s0.mem && PageKept(s0, s, v.page) && s.free[0] in s'.mem && s'.mem[s.free[0]] == s.mem[v.page]
    requires FreeOk(s0.mem, s0.role, s0.freeList, s0.free)
    ensures CopyOf(s0, s', parent, child, k)
  {
    assert s.free[0] in s0.free;
  }
}
