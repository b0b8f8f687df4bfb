/**
 Growing the user half of a memory space: walk_pt with create set, and mapping a page
 (src/kern/memory.c:469-493, 741-783), as functions on the memory manager's state.

 The user range starts at 0xC0000000, under root index 3; a user page is named (i, j), its
 VPN1 and VPN0.
 */
module Spaces {
  import opened Sv39
  import opened PageTables
  import opened PagePool

  lemma PutKeeps(s: State, p: nat, k: nat, w: Word)
    requires Valid(s) && p in s.mem && Index(k) && WordOk(s.role, p, k, w)
    requires !RoleOf(s.role, p).Free? && (IsRoot(s.role, p) ==> k >= KERNEL_WORDS)
    ensures Valid(Put(s, p, k, w))
    ensures FreeClean(s.mem, s.role) ==> FreeClean(Put(s, p, k, w).mem, s.role)
  {
    var s' := Put(s, p, k, w);
    SetKeeps(s.mem, s.role, p, k, w);
    forall q, n | q != p ensures Entry(s'.mem, q, n) == Entry(s.mem, q, n) {}
    hide WordOk, MemOk;
    assert p !in s.free;
    assert forall n :: 0 <= n && n != k ==> Entry(s'.mem, p, n) == Entry(s.mem, p, n);
    assert FreeOk(s'.mem, s.role, s.freeList, s.free);
    assert SharedKernel(s'.mem, s.role, s.mainRoot, s.mainPt1) by {
      forall r, n | IsRoot(s.role, r) && 0 <= n < KERNEL_WORDS ensures Entry(s'.mem, r, n) == Entry(s'.mem, s.mainRoot, n) {
        assert Entry(s.mem, r, n) == Entry(s.mem, s.mainRoot, n);
      }
    }
  }

  // ---------------------------------------------------------------- frame

  ghost predicate PageKept(s: State, s': State, p: nat) {
    p in s'.mem && p in s.mem && s'.mem[p] == s.mem[p]
  }

  /** Only free pages change use, and besides them only root's own user tables change. */
  ghost predicate Extends(s: State, s': State, root: nat) {
    && s'.mainRoot == s.mainRoot && s'.mainPt1 == s.mainPt1
    && s'.mem.Keys == s.mem.Keys
    && (forall p :: p in s.mem && !RoleOf(s.role, p).Free? ==> RoleOf(s'.role, p) == RoleOf(s.role, p))
    && (forall p :: p in s.mem && !RoleOf(s.role, p).Free? && !TableOf(s.role, p, root) ==> PageKept(s, s', p))
    && (forall k :: Index(k) && k != 3 ==> Entry(s'.mem, root, k) == Entry(s.mem, root, k))
  }

  lemma ExtendsTrans(s: State, s': State, s'': State, root: nat)
    requires Extends(s, s', root) && Extends(s', s'', root)
    ensures Extends(s, s'', root)
  {
    forall p | p in s.mem && !RoleOf(s.role, p).Free? && !TableOf(s.role, p, root) ensures PageKept(s, s'', p) {
      assert PageKept(s, s', p);
    }
  }

  /** No other space notices. */
  lemma OtherSpaces(s: State, s': State, root: nat, r: nat)
    requires Valid(s) && Extends(s, s', root) && IsRoot(s.role, root) && IsRoot(s.role, r) && r != root
    ensures SameSpace(s.mem, s'.mem, r)
  {
    assert forall p :: p in s.mem && TableOf(s.role, p, r) ==> PageKept(s, s', p);
    SpaceFrame(s.mem, s.role, s'.mem, r);
  }

  ghost predicate KernelTablesKept(mem: Mem, role: Roles, mem': Mem) {
    forall p :: p in mem && RoleOf(role, p).KernelTable? ==> p in mem' && mem'[p] == mem[p]
  }

  lemma KernelEntry(mem: Mem, role: Roles, mem': Mem, p: nat, v: nat)
    requires MemOk(mem, role) && KernelTablesKept(mem, role, mem') && RoleOf(role, p).KernelTable? && v < PTE_CNT
    ensures Entry(mem', p, v) == Entry(mem, p, v) && KernelWord(role, Entry(mem, p, v))
  {
    assert WordOk(role, p, v, mem[p][v]);
  }

  /** The direct map is read only through root words 0 to 2 and the shared tables. */
  lemma KernelWalk(mem: Mem, role: Roles, mem': Mem, e: Word, v1: nat, v0: nat)
    requires MemOk(mem, role) && KernelTablesKept(mem, role, mem') && KernelWord(role, e)
    requires v1 < PTE_CNT && v0 < PTE_CNT
    ensures Level2Step(mem', e, v1, v0) == Level2Step(mem, e, v1, v0)
  {
    if RoleOf(role, e.ppn).KernelTable? {
      KernelEntry(mem, role, mem', e.ppn, v1);
      var e1 := Entry(mem, e.ppn, v1);
      if RoleOf(role, e1.ppn).KernelTable? {
        KernelEntry(mem, role, mem', e1.ppn, v0);
      }
    }
  }

  /** Addresses outside the user gigarange translate as before in every space. */
  lemma KernelAddresses(s: State, s': State, root: nat, r: nat, v2: nat, v1: nat, v0: nat)
    requires Valid(s) && Extends(s, s', root) && IsRoot(s.role, root) && IsRoot(s.role, r)
    requires v2 < PTE_CNT && v2 != 3 && v1 < PTE_CNT && v0 < PTE_CNT
    ensures Translate(s'.mem, r, v2, v1, v0) == Translate(s.mem, r, v2, v1, v0)
  {
    assert r in s.mem;
    var e := Entry(s.mem, r, v2);
    assert Entry(s'.mem, r, v2) == e by {
      if r == root { assert Index(v2); } else { assert PageKept(s, s', r); }
    }
    assert WordOk(s.role, r, v2, s.mem[r][v2]);
    assert KernelWord(s.role, e);
    assert KernelTablesKept(s.mem, s.role, s'.mem) by {
      forall p | p in s.mem && RoleOf(s.role, p).KernelTable? ensures p in s'.mem && s'.mem[p] == s.mem[p] {
        assert PageKept(s, s', p);
      }
    }
    KernelWalk(s.mem, s.role, s'.mem, e, v1, v0);
  }

  // ---------------------------------------------------------------- walk_pt with create

  function AddL1(s: State, root: nat): State
    requires s.free != [] && root in s.mem && |s.mem[root]| == PTE_CNT
  {
    Put(Take(s, Level1(root)), root, 3, PointerWord(s.mem[root][3], s.free[0]))
  }

  function AddL0(s: State, root: nat, i: nat): State
    requires s.free != [] && L1Of(s.mem, root) in s.mem && |s.mem[L1Of(s.mem, root)]| == PTE_CNT && Index(i)
  {
    var p1 := L1Of(s.mem, root);
    Put(Take(s, Level0(root, i)), p1, i, PointerWord(s.mem[p1][i], s.free[0]))
  }

  lemma AddL1Keeps(s: State, root: nat)
    requires Ready(s) && IsRoot(s.role, root) && L1Of(s.mem, root) == 0 && s.free != []
    ensures root in s.mem && |s.mem[root]| == PTE_CNT
    ensures var s' := AddL1(s, root);
      && Ready(s') && Extends(s, s', root) && IsRoot(s'.role, root)
      && L1Of(s'.mem, root) == s.free[0] != 0
      && (forall i :: Index(i) ==> L0Of(s'.mem, root, i) == L0Of(s.mem, root, i))
      && (forall i, j :: Index(i) && Index(j) ==> ViewOf(s'.mem, root, i, j) == ViewOf(s.mem, root, i, j))
  {
    var p := s.free[0];
    var s1 := Take(s, Level1(root));
    TakeKeeps(s, Level1(root));
    assert PageClean(s.mem, p);
    assert RoleOf(s1.role, p) == Level1(root) && IsRoot(s1.role, root);
    LinkL1(s1.mem, s1.role, root, p);
    var w := PointerWord(s1.mem[root][3], p);
    assert WordOk(s1.role, root, 3, s1.mem[root][3]);
    PutKeeps(s1, root, 3, w);
    AddFrame(s, Level1(root), root, 3, w, root);
    assert root != p;
  }

  lemma AddL0Keeps(s: State, root: nat, i: nat)
    requires Ready(s) && IsRoot(s.role, root) && Index(i) && s.free != []
    requires L1Of(s.mem, root) != 0 && L0Of(s.mem, root, i) == 0
    ensures L1Of(s.mem, root) in s.mem && |s.mem[L1Of(s.mem, root)]| == PTE_CNT
    ensures var s' := AddL0(s, root, i);
      && Ready(s') && Extends(s, s', root) && IsRoot(s'.role, root)
      && L1Of(s'.mem, root) == L1Of(s.mem, root) && L0Of(s'.mem, root, i) == s.free[0] != 0
      && (forall i' :: Index(i') && i' != i ==> L0Of(s'.mem, root, i') == L0Of(s.mem, root, i'))
      && (forall i', j :: Index(i') && Index(j) ==> ViewOf(s'.mem, root, i', j) == ViewOf(s.mem, root, i', j))
  {
    TablesAreTables(s.mem, s.role, root, i);
    var p, p1 := s.free[0], L1Of(s.mem, root);
    var s1 := Take(s, Level0(root, i));
    TakeKeeps(s, Level0(root, i));
    assert PageClean(s.mem, p);
    assert RoleOf(s1.role, p) == Level0(root, i) && IsRoot(s1.role, root) && RoleOf(s1.role, p1) == Level1(root);
    LinkL0(s1.mem, s1.role, root, i, p);
    var w := PointerWord(s1.mem[p1][i], p);
    assert WordOk(s1.role, p1, i, s1.mem[p1][i]);
    PutKeeps(s1, p1, i, w);
    AddFrame(s, Level0(root, i), p1, i, w, root);
  }

  /** Taking a page and then writing one word of root's tables. */
  lemma AddFrame(s: State, use: Role, p: nat, k: nat, w: Word, root: nat)
    requires Valid(s) && s.free != [] && p in s.mem && Index(k) && IsRoot(s.role, root)
    requires TableOf(s.role, p, root) && (p == root ==> k == 3)
    ensures Extends(s, Put(Take(s, use), p, k, w), root)
  {
    var s' := Put(Take(s, use), p, k, w);
    assert s.free[0] in s.free;
    assert RoleOf(s.role, s.free[0]).Free?;
    assert forall q :: q in s.mem && q != p ==> PageKept(s, s', q);
  }

  function Missing(mem: Mem, root: nat, i: nat): nat {
    (if L1Of(mem, root) == 0 then 1 else 0) + (if L0Of(mem, root, i) == 0 then 1 else 0)
  }

  ghost predicate Walkable(s: State, root: nat, i: nat) {
    Ready(s) && IsRoot(s.role, root) && Index(i)
  }

  ghost function WalkFirst(s: State, root: nat): (s': State)
    requires Walkable(s, root, 0) && (L1Of(s.mem, root) == 0 ==> s.free != [])
  {
    if L1Of(s.mem, root) == 0 then AddL1Keeps(s, root); AddL1(s, root) else s
  }

  lemma WalkFirstKeeps(s: State, root: nat)
    requires Walkable(s, root, 0) && (L1Of(s.mem, root) == 0 ==> s.free != [])
    ensures var s' := WalkFirst(s, root);
      && Ready(s') && Extends(s, s', root) && IsRoot(s'.role, root) && L1Of(s'.mem, root) != 0
      && s'.free == (if L1Of(s.mem, root) == 0 then s.free[1..] else s.free)
      && (forall i :: Index(i) ==> L0Of(s'.mem, root, i) == L0Of(s.mem, root, i))
      && (forall i, j :: Index(i) && Index(j) ==> ViewOf(s'.mem, root, i, j) == ViewOf(s.mem, root, i, j))
  {
    if L1Of(s.mem, root) == 0 {
      AddL1Keeps(s, root);
    } else {
      assert Extends(s, s, root);
    }
  }

  /** The state in which walk_pt with create leaves the tables of page (i, _) in place. */
  ghost function Walk(s: State, root: nat, i: nat): (s': State)
    requires Walkable(s, root, i) && Missing(s.mem, root, i) <= |s.free|
  {
    WalkFirstKeeps(s, root);
    var s1 := WalkFirst(s, root);
    if L0Of(s1.mem, root, i) == 0 then AddL0Keeps(s1, root, i); AddL0(s1, root, i) else s1
  }

  /** Walking creates the missing tables, and no page looks different in any space. */
  lemma WalkKeeps(s: State, root: nat, i: nat)
    requires Walkable(s, root, i) && Missing(s.mem, root, i) <= |s.free|
    ensures var s' := Walk(s, root, i);
      && Ready(s') && Extends(s, s', root) && IsRoot(s'.role, root)
      && s'.free == s.free[Missing(s.mem, root, i)..]
      && L1Of(s'.mem, root) != 0 && L0Of(s'.mem, root, i) != 0
      && (L0Of(s.mem, root, i) != 0 ==> L0Of(s'.mem, root, i) == L0Of(s.mem, root, i))
      && (forall i' :: Index(i') && i' != i ==> L0Of(s'.mem, root, i') == L0Of(s.mem, root, i'))
      && (forall i', j :: Index(i') && Index(j) ==> ViewOf(s'.mem, root, i', j) == ViewOf(s.mem, root, i', j))
  {
    WalkFirstKeeps(s, root);
    var s1 := WalkFirst(s, root);
    hide Ready, Extends, L1Of, ViewOf;
    if L0Of(s1.mem, root, i) == 0 {
      AddL0Keeps(s1, root, i);
      ExtendsTrans(s, s1, AddL0(s1, root, i), root);
    }
  }

  // ---------------------------------------------------------------- mapping one page

  function NewFlags(was: Flags, f: Flags): Flags { Or(was, Or(V_ONLY.(a := true, d := true), f)) }

  /** g is valid, accessed and dirty, and has each other right exactly if it is asked for or was there. */
  predicate Granted(g: Flags, was: Flags, f: Flags) {
    && g.v && g.a && g.d
    && g.r == (was.r || f.r) && g.w == (was.w || f.w) && g.x == (was.x || f.x)
    && g.u == (was.u || f.u) && g.g == (was.g || f.g)
  }

  /** Those rights make a leaf: something can be read or executed, and nothing only written. */
  predicate Usable(was: Flags, f: Flags) {
    (was.r || f.r || was.x || f.x) && (was.w || f.w ==> was.r || f.r)
  }

  lemma GrantedExactly(g: Flags, was: Flags, f: Flags)
    ensures Granted(g, was, f) <==> g == NewFlags(was, f)
    ensures LeafFlags(NewFlags(was, f)) <==> Usable(was, f)
  {
  }

  /** The new leaf: ppn replaced, flags added to what was there. */
  function LeafWord(w: Word, p: nat, f: Flags): Word { w.(f := NewFlags(w.f, f), ppn := p) }

  /** The flags page (i, j) had, none when it was unmapped. */
  function FlagsOf(mem: Mem, r: nat, i: nat, j: nat): Flags {
    var v := ViewOf(mem, r, i, j);
    if v.Page? then v.f else NO_FLAGS
  }

  ghost predicate OthersKept(s: State, s': State, root: nat, i: nat, j: nat) {
    forall i', j' :: Index(i') && Index(j') && (i' != i || j' != j) ==> ViewOf(s'.mem, root, i', j') == ViewOf(s.mem, root, i', j')
  }

  ghost predicate Mappable(s: State, root: nat, i: nat, j: nat) {
    Walkable(s, root, i) && Index(j) && Missing(s.mem, root, i) < |s.free|
  }

  /** What memory_alloc_and_map_page makes of the state. */
  ghost function MapPage(s: State, root: nat, i: nat, j: nat, f: Flags): State
    requires Mappable(s, root, i, j)
  {
    WalkKeeps(s, root, i);
    var s1 := Walk(s, root, i);
    TablesAreTables(s1.mem, s1.role, root, i);
    var p0 := L0Of(s1.mem, root, i);
    Put(Take(s1, Data(root, i, j)), p0, j, LeafWord(s1.mem[p0][j], s1.free[0], f))
  }

  /** Writing a leaf for a page already set aside for (i, j). */
  lemma LeafOnly(s: State, root: nat, i: nat, j: nat, w: Word)
    requires Ready(s) && IsRoot(s.role, root) && Index(i) && Index(j) && L0Of(s.mem, root, i) != 0
    requires w.f.v && w.hi == 0 && RoleOf(s.role, w.ppn) == Data(root, i, j)
    ensures L0Of(s.mem, root, i) in s.mem && |s.mem[L0Of(s.mem, root, i)]| == PTE_CNT
    ensures var s' := Put(s, L0Of(s.mem, root, i), j, w);
      && Ready(s') && Extends(s, s', root)
      && SameTables(s.mem, s'.mem, root)
      && ViewOf(s'.mem, root, i, j) == Page(w.ppn, w.f)
      && OthersKept(s, s', root, i, j)
  {
    TablesAreTables(s.mem, s.role, root, i);
    var p0 := L0Of(s.mem, root, i);
    SetLeaf(s.mem, s.role, root, i, j, w);
    PutKeeps(s, p0, j, w);
    assert forall q :: q in s.mem && q != p0 ==> PageKept(s, Put(s, p0, j, w), q);
  }

  /** The entry for page (i, j), valid or not, names a page set aside for that address. */
  ghost predicate Meant(s: State, root: nat, i: nat, j: nat) {
    RoleOf(s.role, Entry(s.mem, L0Of(s.mem, root, i), j).ppn) == Data(root, i, j)
  }

  lemma TakeExtends(s: State, use: Role, root: nat)
    requires Valid(s) && s.free != [] && IsRoot(s.role, root)
    ensures Extends(s, Take(s, use), root)
  {
    assert s.free[0] in s.free;
    assert forall p :: p in s.mem ==> PageKept(s, Take(s, use), p);
  }

  lemma LeafStep(s: State, root: nat, i: nat, j: nat, w: Word)
    requires Ready(s) && IsRoot(s.role, root) && Index(i) && Index(j) && s.free != []
    requires L0Of(s.mem, root, i) != 0 && w.f.v && w.hi == 0 && w.ppn == s.free[0]
    ensures L0Of(s.mem, root, i) in s.mem && |s.mem[L0Of(s.mem, root, i)]| == PTE_CNT
    ensures var s' := Put(Take(s, Data(root, i, j)), L0Of(s.mem, root, i), j, w);
      && Ready(s') && Extends(s, s', root) && IsRoot(s'.role, root)
      && SameTables(s.mem, s'.mem, root)
      && ViewOf(s'.mem, root, i, j) == Page(w.ppn, w.f)
      && OthersKept(s, s', root, i, j)
  {
    var use := Data(root, i, j);
    var s1 := Take(s, use);
    TakeKeeps(s, use);
    TakeExtends(s, use, root);
    assert RoleOf(s1.role, s.free[0]) == use && IsRoot(s1.role, root);
    LeafOnly(s1, root, i, j, w);
    hide Extends, Ready, ViewOf, L0Of;
    ExtendsTrans(s, s1, Put(s1, L0Of(s.mem, root, i), j, w), root);
  }

  ghost predicate SameTables(mem: Mem, mem': Mem, root: nat) {
    L1Of(mem', root) == L1Of(mem, root) && forall i :: Index(i) ==> L0Of(mem', root, i) == L0Of(mem, root, i)
  }

  lemma NewLeaf(mem: Mem, role: Roles, root: nat, i: nat, j: nat, p: nat, f: Flags)
    requires MemOk(mem, role) && IsRoot(role, root) && Index(i) && Index(j) && L0Of(mem, root, i) != 0
    ensures L0Of(mem, root, i) in mem && |mem[L0Of(mem, root, i)]| == PTE_CNT
    ensures var w := LeafWord(mem[L0Of(mem, root, i)][j], p, f);
      w.f.v && w.hi == 0 && w.ppn == p && w.f == NewFlags(FlagsOf(mem, root, i, j), f)
  {
    TablesAreTables(mem, role, root, i);
    MappedIsData(mem, role, root, i, j);
    var p0 := L0Of(mem, root, i);
    assert mem[p0][j] == Entry(mem, p0, j);
  }

  /** Page (i, j) is physical page p, with what was asked for and what was there before. */
  ghost predicate GrantedPage(mem: Mem, root: nat, i: nat, j: nat, p: nat, was: Flags, f: Flags) {
    var v := ViewOf(mem, root, i, j);
    v.Page? && v.page == p && Granted(v.f, was, f)
  }

  /** Mapping takes the next free page after any new tables; page (i, j) is that page, no other changes. */
  lemma MapPageKeeps(s: State, root: nat, i: nat, j: nat, f: Flags)
    requires Mappable(s, root, i, j)
    ensures var s' := MapPage(s, root, i, j, f);
      var n := Missing(s.mem, root, i);
      && Ready(s') && Extends(s, s', root) && IsRoot(s'.role, root)
      && s'.free == s.free[n + 1..]
      && L1Of(s'.mem, root) != 0 && L0Of(s'.mem, root, i) != 0
      && (forall i' :: Index(i') && i' != i ==> L0Of(s'.mem, root, i') == L0Of(s.mem, root, i'))
      && GrantedPage(s'.mem, root, i, j, s.free[n], FlagsOf(s.mem, root, i, j), f)
      && OthersKept(s, s', root, i, j)
  {
    GrantedExactly(NewFlags(FlagsOf(s.mem, root, i, j), f), FlagsOf(s.mem, root, i, j), f);
    hide Extends, LeafWord, Granted, NewFlags, L1Of, L0Of, Walk, ViewOf, FreeClean, MemOk, FreeOk, SharedKernel, OwnersOk;
    WalkKeeps(s, root, i);
    var s1 := Walk(s, root, i);
    NewLeaf(s1.mem, s1.role, root, i, j, s1.free[0], f);
    LeafStep(s1, root, i, j, LeafWord(s1.mem[L0Of(s1.mem, root, i)][j], s1.free[0], f));
    hide Ready, Take, Put;
    ExtendsTrans(s, s1, MapPage(s, root, i, j, f), root);
    assert ViewOf(s1.mem, root, i, j) == ViewOf(s.mem, root, i, j);
  }
}
