/**
 The memory manager (src/kern/memory.c). Its methods update page contents in place and panic, shown
 as ok being false, when the free list is empty.
 */
module Memory {
  import opened Sv39
  import opened PageTables
  import opened PagePool
  import opened Spaces
  import opened MapRange
  import opened Fork

  const PAGE_SIZE := 4096
  const USER_GIGA := 0xC000_0000       // root index 3 begins, as does the user range
  const USER_GIGA_END := 0x1_0000_0000
  const SATP_SV39 := 0x8000_0000_0000_0000
  const PPN_SPAN := 0x1000_0000_0000

  function VPN2(vma: nat): nat { vma / 0x4000_0000 % 512 }
  function VPN1(vma: nat): nat { vma / 0x20_0000 % 512 }
  function VPN0(vma: nat): nat { vma / 0x1000 % 512 }

  /** The page number of the root table: a tag's low 44 bits. */
  function RootOf(mtag: nat): nat { mtag % PPN_SPAN }

  /** The tag memory_space_create builds (src/kern/memory.c:309): mode, address-space identifier, root page. */
  function SpaceTag(asid: nat, root: nat): nat { SATP_SV39 + asid * PPN_SPAN + root }

  predicate UserVma(vma: nat) { USER_GIGA <= vma < USER_GIGA_END }

  function PageIndex(vma: nat): nat
    requires UserVma(vma)
  {
    (vma - USER_GIGA) / PAGE_SIZE
  }

  /** Addresses of the user gigarange split into root index 3 and the two page indices. */
  lemma UserVpns(vma: nat)
    requires UserVma(vma)
    ensures VPN2(vma) == 3 && Index(VPN1(vma)) && Index(VPN0(vma))
    ensures PageIndex(vma) < USER_PAGES && VPN1(vma) == Hi(PageIndex(vma)) && VPN0(vma) == Lo(PageIndex(vma))
  {
  }

  /** The indices and the offset in the page make up the address. */
  lemma UserAddress(vma: nat)
    requires UserVma(vma)
    ensures vma == 0xC000_0000 + VPN1(vma) * 0x20_0000 + VPN0(vma) * 0x1000 + vma % 0x1000
  {
    var page := vma / 0x1000;
    assert page / 512 == vma / 0x20_0000;
    assert vma / 0x20_0000 == 1536 + VPN1(vma);
    assert page == vma / 0x20_0000 * 512 + VPN0(vma);
  }

  lemma RangeVma(vma: nat, t: nat)
    requires UserVma(vma) && vma + t * PAGE_SIZE < USER_GIGA_END
    ensures UserVma(vma + t * PAGE_SIZE) && PageIndex(vma + t * PAGE_SIZE) == PageIndex(vma) + t
  {
  }

  lemma RangeFits(vma: nat, n: nat)
    requires UserVma(vma) && vma + n * PAGE_SIZE <= USER_GIGA_END
    ensures PageIndex(vma) + n <= USER_PAGES
  {
  }

  lemma RootWalkable(s: State, root: nat)
    requires Ready(s) && IsRoot(s.role, root)
    ensures Walkable(s, root, 0)
  {
  }

  lemma RetypeTake(s: State, use: Role)
    requires s.free != []
    ensures Take(s, Kernel).(role := Take(s, Kernel).role[s.free[0] := use]) == Take(s, use)
  {
    assert s.role[s.free[0] := Kernel][s.free[0] := use] == s.role[s.free[0] := use];
  }

  /** What a walk reads. */
  lemma WalkReads(s: State, root: nat, i: nat)
    requires Ready(s) && IsRoot(s.role, root) && Index(i)
    ensures root in s.mem && |s.mem[root]| == PTE_CNT
    ensures var e := s.mem[root][3]; var p1 := L1Of(s.mem, root);
      if e.f.v then e.ppn == p1 && p1 != 0 else p1 == 0 && L0Of(s.mem, root, i) == 0
    ensures var p1 := L1Of(s.mem, root);
      p1 != 0 ==> p1 in s.mem && |s.mem[p1]| == PTE_CNT
    ensures var p1, p0 := L1Of(s.mem, root), L0Of(s.mem, root, i);
      p1 != 0 ==> if s.mem[p1][i].f.v then s.mem[p1][i].ppn == p0 && p0 != 0 else p0 == 0
  {
    TablesAreTables(s.mem, s.role, root, i);
  }

  class MemoryManager {
    var mem: Mem
    var freeList: nat
    var satp: nat
    var mainRoot: nat
    var mainPt1: nat
    ghost var role: Roles
    ghost var free: seq<nat>

    ghost function S(): State
      reads this
    {
      State(mem, role, freeList, free, mainRoot, mainPt1)
    }

    ghost predicate Active()
      reads this
    {
      Ready(S()) && IsRoot(role, RootOf(satp))
    }

    constructor (ram: Mem, pt2: nat, pt1: nat)
      ensures mem == ram && mainRoot == pt2 && mainPt1 == pt1 && satp == SATP_SV39 + pt2
    {
      mem, freeList, satp, mainRoot, mainPt1, role, free := ram, 0, SATP_SV39 + pt2, pt2, pt1, map[], [];
    }

    /** memory_alloc_page */
    method AllocPage() returns (ok: bool, page: nat)
      requires Valid(S())
      modifies this`freeList, this`role, this`free
      ensures ok <==> old(free) != []
      ensures if ok then page == old(free)[0] && S() == Take(old(S()), Kernel) else S() == old(S())
      ensures Valid(S()) && (old(FreeClean(mem, role)) ==> FreeClean(mem, role))
    {
      if freeList == 0 {
        assert free == [] by {
          if free != [] { TakeKeeps(S(), Kernel); }
        }
        return false, 0;
      }
      TakeKeeps(S(), Kernel);
      page := freeList;
      assert page in mem && |mem[page]| == PTE_CNT;
      freeList := LinkTarget(mem[page][0]);
      role, free := role[page := Kernel], free[1..];
      ok := true;
    }

    /** memory_free_page, for a page obtained from AllocPage that nothing maps */
    method FreePage(page: nat)
      requires Valid(S()) && page in mem && RoleOf(role, page) == Kernel
      modifies this`mem, this`freeList, this`role, this`free
      ensures S() == Give(old(S()), page) && Valid(S())
      ensures old(FreeClean(mem, role)) ==> (FreeClean(mem, role) <==> old(RestClean(mem, page)))
    {
      GiveKeeps(S(), page);
      mem := SetWord(mem, page, 0, LinkWord(freeList));
      freeList := page;
      role, free := role[page := Free], [page] + free;
    }

    /** The first half of walk_pt: the level-1 table behind root index k2, or 0 */
    method WalkRoot(root: nat, k2: nat, create: bool) returns (ok: bool, pt1: nat)
      requires Ready(S()) && IsRoot(role, root) && k2 == 3
      modifies this`mem, this`freeList, this`role, this`free
      ensures !create ==> ok && S() == old(S()) && pt1 == L1Of(mem, root)
      ensures create ==> (ok <==> old(L1Of(mem, root) != 0 || free != []))
      ensures create && ok ==> old(Walkable(S(), root, 0)) && S() == WalkFirst(old(S()), root) && pt1 == L1Of(mem, root)
    {
      hide MemOk, FreeOk, FreeClean, SharedKernel, OwnersOk, Extends, L0Of, L1Of, ViewOf;
      ghost var s0 := S();
      WalkReads(s0, root, 0);
      pt1 := mem[root][k2].ppn;
      if !mem[root][k2].f.v {
        if !create {
          return true, 0;
        }
        ok, pt1 := AllocPage();
        if !ok {
          return false, 0;
        }
        RetypeTake(s0, Level1(root));
        AddL1Keeps(s0, root);
        hide Ready;
        role := role[pt1 := Level1(root)];
        mem := SetWord(mem, root, k2, mem[root][k2].(ppn := pt1, f := V_ONLY));
        assert S() == AddL1(s0, root);
      }
      ok := true;
    }

    /** walk_pt: the level-0 table for vma, or 0 */
    method WalkPt(root: nat, vma: nat, create: bool) returns (ok: bool, pt0: nat)
      requires Ready(S()) && IsRoot(role, root) && UserVma(vma)
      modifies this`mem, this`freeList, this`role, this`free
      ensures !create ==> ok && S() == old(S()) && pt0 == L0Of(mem, root, VPN1(vma))
      ensures create ==> (ok <==> old(Missing(mem, root, VPN1(vma)) <= |free|))
      ensures create && ok ==> old(Walkable(S(), root, VPN1(vma))) && S() == Walk(old(S()), root, VPN1(vma)) && pt0 == L0Of(mem, root, VPN1(vma))
    {
      hide VPN1, VPN2, MemOk, FreeOk, FreeClean, SharedKernel, OwnersOk, Extends, ViewOf, L1Of, L0Of;
      UserVpns(vma);
      ghost var s0 := S();
      var k1, pt1 := VPN1(vma), 0;
      WalkReads(s0, root, k1);
      ok, pt1 := WalkRoot(root, VPN2(vma), create);
      if !ok {
        return false, 0;
      }
      ghost var s1 := S();
      if create {
        WalkFirstKeeps(s0, root);
      } else if pt1 == 0 {
        return true, 0;
      }
      WalkReads(s1, root, k1);
      pt0 := mem[pt1][k1].ppn;
      if !mem[pt1][k1].f.v {
        if !create {
          return true, 0;
        }
        ok, pt0 := AllocPage();
        if !ok {
          return false, 0;
        }
        RetypeTake(s1, Level0(root, k1));
        AddL0Keeps(s1, root, k1);
        hide Ready;
        role := role[pt0 := Level0(root, k1)];
        mem := SetWord(mem, pt1, k1, mem[pt1][k1].(ppn := pt0, f := V_ONLY));
        assert S() == AddL0(s1, root, k1);
      }
      ok := true;
    }

    /** memory_alloc_and_map_page */
    method AllocAndMapPage(vma: nat, f: Flags) returns (ok: bool, pma: nat)
      requires Active() && UserVma(vma)
      modifies this`mem, this`freeList, this`role, this`free
      ensures ok <==> old(Missing(mem, RootOf(satp), VPN1(vma)) < |free|)
      ensures ok ==> old(Mappable(S(), RootOf(satp), VPN1(vma), VPN0(vma)))
      ensures ok ==> S() == MapPage(old(S()), RootOf(satp), VPN1(vma), VPN0(vma), f) && Active()
      ensures ok ==> pma == old(free[Missing(mem, RootOf(satp), VPN1(vma))]) * PAGE_SIZE + vma % PAGE_SIZE
      ensures ok ==> GrantedPage(mem, RootOf(satp), VPN1(vma), VPN0(vma), pma / PAGE_SIZE, old(FlagsOf(mem, RootOf(satp), VPN1(vma), VPN0(vma))), f)
    {
      hide VPN1, VPN2, VPN0, MemOk, FreeOk, FreeClean, SharedKernel, OwnersOk, Extends, ViewOf, L1Of, L0Of, LeafWord, NewFlags, Walk;
      UserVpns(vma);
      var root, i, j := RootOf(satp), VPN1(vma), VPN0(vma);
      ghost var s0 := S();
      var pt0, page;
      ok, pt0 := WalkPt(root, vma, true);
      if !ok {
        return false, 0;
      }
      WalkKeeps(s0, root, i);
      ghost var s1 := S();
      NewLeaf(mem, role, root, i, j, 0, f);
      ok, page := AllocPage();
      if !ok {
        return false, 0;
      }
      MapPageKeeps(s0, root, i, j, f);
      RetypeTake(s1, Data(root, i, j));
      hide Ready;
      role := role[page := Data(root, i, j)];
      mem := SetWord(mem, pt0, j, mem[pt0][j].(ppn := page));
      mem := SetWord(mem, pt0, j, mem[pt0][j].(f := NewFlags(mem[pt0][j].f, f)));
      TwoWrites(s1.mem, pt0, j, page, f);
      assert S() == MapPage(s0, root, i, j, f);
      pma := page * PAGE_SIZE + vma % PAGE_SIZE;
    }

    /** memory_alloc_and_map_range */
    method AllocAndMapRange(vma: nat, size: nat, f: Flags) returns (ok: bool)
      requires Active() && UserVma(vma) && vma + size <= USER_GIGA_END
      modifies this`mem, this`freeList, this`role, this`free
      ensures ok <==> size % PAGE_SIZE == 0 && old(RangeNeed(mem, RootOf(satp), PageIndex(vma), size / PAGE_SIZE) <= |free|)
      ensures ok ==> PageIndex(vma) + size / PAGE_SIZE <= USER_PAGES && old(Walkable(S(), RootOf(satp), 0))
      ensures ok ==> MapPages(old(S()), RootOf(satp), PageIndex(vma), size / PAGE_SIZE, f) == Done(S())
      ensures ok ==> RangeMapped(old(S()), S(), RootOf(satp), PageIndex(vma), size / PAGE_SIZE, f)
    {
      hide VPN1, VPN0, Hi, Lo, PageIndex, RootOf, Ready, Walkable, IsRoot, MapPages, MapPage, Mappable, RangeNeed, Missing, L1Of, L0Of;
      if size % PAGE_SIZE != 0 {
        return false;
      }
      ghost var s0, root, q, n := S(), RootOf(satp), PageIndex(vma), size / PAGE_SIZE;
      RangeFits(vma, n);
      RootWalkable(s0, root);
      MapPagesNeed(s0, root, q, n, f);
      var i := 0;
      ghost var t := 0;
      while i < size
        invariant 0 <= t <= n && i == t * PAGE_SIZE
        invariant Active() && satp == old(satp) && Walkable(S(), root, 0)
        invariant MapPages(s0, root, q, n, f) == MapPages(S(), root, q + t, n - t, f)
      {
        RangeVma(vma, t);
        UserVpns(vma + i);
        MapPagesNext(S(), root, q + t, n - t, f);
        var pma;
        ok, pma := AllocAndMapPage(vma + i, f);
        if !ok {
          return false;
        }
        i, t := i + PAGE_SIZE, t + 1;
      }
      NoPages(S(), root, q + n, f);
      MapPagesKeeps(s0, root, q, n, f);
      ok := true;
    }

    /**
     memory_set_page_flags, which checks nothing. A mapped page gets exactly the new flags. An entry that
     was not valid becomes so, for whatever page its stale word names, and the tables stay as they
     should be exactly if that page was set aside for this very address. The failure result stands
     for a store through NULL, at byte 8 * VPN0 of physical address 0, when there is no table.
     */
    method SetPageFlags(vma: nat, f: Flags) returns (ok: bool)
      requires Active() && UserVma(vma)
      modifies this`mem, this`freeList, this`role, this`free
      ensures role == old(role) && free == old(free) && freeList == old(freeList)
      ensures ok <==> old(L0Of(mem, RootOf(satp), VPN1(vma))) != 0
      ensures !ok ==> mem == old(mem)
      ensures var stale := old(Entry(mem, L0Of(mem, RootOf(satp), VPN1(vma)), VPN0(vma)).ppn);
        ok ==> GrantedPage(mem, RootOf(satp), VPN1(vma), VPN0(vma), stale, NO_FLAGS, f)
      ensures OthersKept(old(S()), S(), RootOf(satp), VPN1(vma), VPN0(vma))
      ensures ok ==> (Active() <==> Meant(old(S()), RootOf(satp), VPN1(vma), VPN0(vma)))
      ensures ok && Active() ==> Extends(old(S()), S(), RootOf(satp))
      ensures old(ViewOf(mem, RootOf(satp), VPN1(vma), VPN0(vma))).Page? ==> ok && Active()
    {
      hide VPN1, VPN2, VPN0, MemOk, FreeOk, FreeClean, SharedKernel, OwnersOk, Extends;
      UserVpns(vma);
      var root, i, j := RootOf(satp), VPN1(vma), VPN0(vma);
      var _, pt0 := WalkPt(root, vma, false);
      ghost var s := S();
      TablesOf(s, root, i);
      if pt0 == 0 {
        return false;
      }
      ghost var w := mem[pt0][j].(f := NewFlags(NO_FLAGS, f));
      GrantedExactly(w.f, NO_FLAGS, f);
      FlagWrite(s, root, i, j, w);
      FlagLeaf(s, root, i, j, w);
      hide Ready, ViewOf, OthersKept, L0Of, Meant;
      mem := SetWord(mem, pt0, j, mem[pt0][j].(f := NewFlags(NO_FLAGS, f)));
      ok := true;
    }

    /** Copying one mapped user page of the active space into the space of root. */
    method CopyMapped(root: nat, vma: nat, entry: nat) returns (ok: bool)
      requires Ready(S()) && IsRoot(role, root) && IsRoot(role, RootOf(satp)) && UserVma(vma) && root != RootOf(satp)
      requires ViewOf(mem, RootOf(satp), VPN1(vma), VPN0(vma)).Page? && entry == L0Of(mem, RootOf(satp), VPN1(vma))
      modifies this`mem, this`freeList, this`role, this`free
      ensures ok <==> old(Copyable(S(), RootOf(satp), root, VPN1(vma), VPN0(vma)))
      ensures ok ==> S() == CopyPage(old(S()), RootOf(satp), root, VPN1(vma), VPN0(vma))
    {
      hide VPN1, VPN2, VPN0, RootOf, MemOk, FreeOk, FreeClean, SharedKernel, OwnersOk, Extends, ViewOf, L1Of, L0Of, Walk;
      UserVpns(vma);
      var i, j := VPN1(vma), VPN0(vma);
      ghost var s0, parent := S(), RootOf(satp);
      ViewEntry(s0, parent, i, j);
      var e := mem[entry][j];
      var pp, pt0;
      ok, pp := AllocPage();
      if !ok {
        return false;
      }
      CopyKeeps(s0, root, i, j, mem[e.ppn]);
      RetypeTake(s0, Data(root, i, j));
      role := role[pp := Data(root, i, j)];
      mem := mem[pp := mem[e.ppn]];
      ghost var s1 := S();
      assert s1 == Copy(s0, Data(root, i, j), s0.mem[e.ppn]);
      assert Missing(mem, root, i) == Missing(s0.mem, root, i);
      ok, pt0 := WalkPt(root, vma, true);
      if !ok {
        return false;
      }
      WalkKeeps(s1, root, i);
      CopyLeaf(s1, S(), root, i, j, pp, e.f);
      hide Ready;
      mem := SetWord(mem, pt0, j, mem[pt0][j].(f := e.f, ppn := pp));
    }

    /** The body of the loop of memory_space_clone, for user page k. */
    method ClonePage(root: nat, k: nat, ghost s0: State, ghost parent: nat) returns (ok: bool)
      requires Source(s0, parent) && CloneInv(s0, S(), parent, root, k) && k < CLONED && parent == RootOf(satp)
      modifies this`mem, this`freeList, this`role, this`free
      ensures ok <==> Cost(s0.mem, parent, k + 1) <= |s0.free|
      ensures ok ==> CloneInv(s0, S(), parent, root, k + 1)
    {
      hide VPN1, VPN2, VPN0, RootOf, PageIndex, Hi, Lo, Ready, IsRoot, CloneInv, ViewOf, Copies, L0Of, Cost, Copyable;
      var vma := USER_GIGA + k * PAGE_SIZE;
      RangeVma(USER_GIGA, k);
      FirstIndex();
      UserVpns(vma);
      ghost var s := S();
      CloneReads(s0, s, parent, root, k);
      var j := VPN0(vma);
      var _, entry := WalkPt(RootOf(satp), vma, false);
      if entry == 0 || !mem[entry][j].f.v || !mem[entry][j].f.u {
        CloneSkip(s0, s, parent, root, k);
        CloneAfford(s0, s, parent, root, k + 1);
        return true;
      }
      CloneCopy(s0, s, parent, root, k);
      ok := CopyMapped(root, vma, entry);
    }

    /** memory_space_clone; the asid argument does not enter the tag, so the tag is as if it were 0 */
    method SpaceClone(asid: nat) returns (ok: bool, mtag: nat)
      requires Active()
      modifies this`mem, this`freeList, this`role, this`free
      ensures ok <==> old(Cost(mem, RootOf(satp), CLONED) <= |free|)
      ensures ok ==> old(Source(S(), RootOf(satp))) && CloneInv(old(S()), S(), RootOf(satp), RootOf(mtag), CLONED)
      ensures ok ==> mtag == SpaceTag(0, RootOf(mtag)) && (mtag == SpaceTag(asid, RootOf(mtag)) <==> asid == 0)
    {
      ghost var s0, parent := S(), RootOf(satp);
      hide RootOf, Ready, Cost, CloneInv;
      var root;
      ok, root := NewSpace();
      if !ok {
        CostGrows(s0.mem, parent, 0, CLONED);
        CostFirst(s0.mem, parent);
        return false, 0;
      }
      CloneStart(s0, parent);
      mtag := SATP_SV39 + root;
      RootOfTag(root);
      var k := 0;
      while k < CLONED
        invariant 0 <= k <= CLONED && satp == old(satp)
        invariant CloneInv(s0, S(), parent, root, k)
      {
        ok := ClonePage(root, k, s0, parent);
        if !ok {
          CostGrows(s0.mem, parent, k + 1, CLONED);
          return false, 0;
        }
        k := k + 1;
      }
      CloneAfford(s0, S(), parent, root, CLONED);
      ok := true;
    }

    /** A root table with the main space's direct map and no user pages. */
    method NewSpace() returns (ok: bool, root: nat)
      requires Ready(S())
      modifies this`mem, this`freeList, this`role, this`free
      ensures ok <==> old(free) != []
      ensures ok ==> root == old(free)[0] && root in old(mem) && |old(mem)[root]| == PTE_CNT
      ensures ok ==> mainRoot in old(mem) && |old(mem)[mainRoot]| == PTE_CNT
      ensures ok ==> S() == NewRoot(old(S())) && root < MAX_PAGE
    {
      ghost var s0 := S();
      ok, root := AllocPage();
      if !ok {
        return false, 0;
      }
      FirstFree(s0);
      assert root < MAX_PAGE && root != mainRoot;
      RetypeTake(s0, Root);
      hide Ready, Valid, FreeClean;
      CopyDirectMap(root);
      role := role[root := Root];
    }

    method CopyDirectMap(root: nat)
      requires root in mem && |mem[root]| == PTE_CNT && mainRoot in mem && |mem[mainRoot]| == PTE_CNT && root != mainRoot
      modifies this`mem
      ensures mem == old(mem)[root := RootWords(old(S()), root)]
    {
      ghost var was := mem[root];
      var k := 0;
      while k < 2
        invariant 0 <= k <= 2 && root in mem && |mem[root]| == PTE_CNT
        invariant mem == old(mem)[root := mem[root]]
        invariant forall n :: 0 <= n < PTE_CNT ==> mem[root][n] == if n < k then mem[mainRoot][n] else was[n]
      {
        mem := SetWord(mem, root, k, mem[mainRoot][k]);
        k := k + 1;
      }
      mem := SetWord(mem, root, 2, PtabPte(mainPt1));
      mem := SetWord(mem, root, 0, mem[mainRoot][0]);
      assert mem[root] == RootWords(old(S()), root);
    }
  }

  lemma RootOfTag(root: nat)
    requires root < MAX_PAGE
    ensures RootOf(SATP_SV39 + root) == root
  {
  }

  lemma CostFirst(mem: Mem, parent: nat)
    ensures Cost(mem, parent, 0) == 1
  {
  }

  lemma CloneAfford(s0: State, s: State, parent: nat, child: nat, k: nat)
    requires CloneInv(s0, s, parent, child, k)
    ensures Cost(s0.mem, parent, k) <= |s0.free|
  {
  }

  /** The entry a mapped page is read from. */
  lemma ViewEntry(s: State, r: nat, i: nat, j: nat)
    requires Valid(s) && IsRoot(s.role, r) && Index(i) && Index(j) && ViewOf(s.mem, r, i, j).Page?
    ensures var p0 := L0Of(s.mem, r, i); p0 in s.mem && |s.mem[p0]| == PTE_CNT
    ensures var e := s.mem[L0Of(s.mem, r, i)][j];
      ViewOf(s.mem, r, i, j) == Page(e.ppn, e.f) && e.f.v && e.ppn in s.mem && |s.mem[e.ppn]| == PTE_CNT
  {
    TablesAreTables(s.mem, s.role, r, i);
    MappedIsData(s.mem, s.role, r, i, j);
  }

  lemma FirstIndex()
    ensures PageIndex(USER_GIGA) == 0
  {
  }

  /** What the clone loop reads of the parent decides whether page k is copied. */
  lemma CloneReads(s0: State, s: State, parent: nat, child: nat, k: nat)
    requires Source(s0, parent) && CloneInv(s0, s, parent, child, k) && k < CLONED
    ensures Ready(s) && IsRoot(s.role, child) && IsRoot(s.role, parent) && parent != child
    ensures var p0 := L0Of(s.mem, parent, Hi(k)); p0 != 0 ==> p0 in s.mem && |s.mem[p0]| == PTE_CNT && Lo(k) < PTE_CNT
    ensures var p0 := L0Of(s.mem, parent, Hi(k));
      Copies(s0.mem, parent, k) <==> p0 != 0 && s.mem[p0][Lo(k)].f.v && s.mem[p0][Lo(k)].f.u
    ensures Copies(s0.mem, parent, k) ==> ViewOf(s.mem, parent, Hi(k), Lo(k)).Page?
  {
    hide Hi, Lo, MemOk, FreeOk, FreeClean, SharedKernel, OwnersOk, Untouched, Behind, Ahead, TablesMatch, L0Of, Cost;
    HiLo(k);
    ParentSame(s0, s, parent, child, k);
    TablesOf(s, parent, Hi(k));
  }

  /** Writing a word of a level-0 table, whatever it says, decides that user page and no other of the space. */
  lemma FlagWrite(s: State, r: nat, i: nat, j: nat, w: Word)
    requires Valid(s) && IsRoot(s.role, r) && Index(i) && Index(j) && L0Of(s.mem, r, i) != 0 && w.f.v
    ensures L0Of(s.mem, r, i) in s.mem && |s.mem[L0Of(s.mem, r, i)]| == PTE_CNT
    ensures var s' := Put(s, L0Of(s.mem, r, i), j, w);
      ViewOf(s'.mem, r, i, j) == Page(w.ppn, w.f) && OthersKept(s, s', r, i, j)
  {
    TablesAreTables(s.mem, s.role, r, i);
    var p1, p0 := L1Of(s.mem, r), L0Of(s.mem, r, i);
    var mem' := SetWord(s.mem, p0, j, w);
    assert L1Of(mem', r) == p1;
    forall i', j' | Index(i') && Index(j') && (i' != i || j' != j) ensures ViewOf(mem', r, i', j') == ViewOf(s.mem, r, i', j') {
      TablesAreTables(s.mem, s.role, r, i');
      assert Entry(mem', p1, i') == Entry(s.mem, p1, i');
    }
    assert L0Of(mem', r, i) == p0;
  }

  /** Making an entry valid keeps the state ready exactly if its page is meant for the address; a mapped one is. */
  lemma FlagLeaf(s: State, r: nat, i: nat, j: nat, w: Word)
    requires Ready(s) && IsRoot(s.role, r) && Index(i) && Index(j) && L0Of(s.mem, r, i) != 0
    requires L0Of(s.mem, r, i) in s.mem && |s.mem[L0Of(s.mem, r, i)]| == PTE_CNT && w.f.v
    requires w.ppn == s.mem[L0Of(s.mem, r, i)][j].ppn && w.hi == s.mem[L0Of(s.mem, r, i)][j].hi
    ensures var s' := Put(s, L0Of(s.mem, r, i), j, w);
      (Ready(s') <==> Meant(s, r, i, j)) && (Ready(s') ==> Extends(s, s', r))
    ensures ViewOf(s.mem, r, i, j).Page? ==> Meant(s, r, i, j)
  {
    MappedIsData(s.mem, s.role, r, i, j);
    TablesAreTables(s.mem, s.role, r, i);
    var p0 := L0Of(s.mem, r, i);
    assert s.mem[p0][j] == Entry(s.mem, p0, j);
    if Meant(s, r, i, j) {
      LeafOnly(s, r, i, j, w);
    } else {
      StrayLeaf(Put(s, p0, j, w), p0, r, i, j);
    }
  }

  lemma StrayLeaf(s: State, p0: nat, r: nat, i: nat, j: nat)
    requires p0 in s.mem && |s.mem[p0]| == PTE_CNT && Index(j) && RoleOf(s.role, p0) == Level0(r, i)
    requires s.mem[p0][j].f.v && RoleOf(s.role, s.mem[p0][j].ppn) != Data(r, i, j)
    ensures !MemOk(s.mem, s.role)
  {
    assert !WordOk(s.role, p0, j, s.mem[p0][j]);
  }

  lemma TablesOf(s: State, r: nat, i: nat)
    requires Valid(s) && IsRoot(s.role, r) && Index(i)
    ensures L0Of(s.mem, r, i) != 0 ==> L0Of(s.mem, r, i) in s.mem && |s.mem[L0Of(s.mem, r, i)]| == PTE_CNT
  {
    TablesAreTables(s.mem, s.role, r, i);
  }

  lemma TwoWrites(mem: Mem, p: nat, j: nat, page: nat, f: Flags)
    requires p in mem && j < |mem[p]|
    ensures var m := SetWord(mem, p, j, mem[p][j].(ppn := page));
      SetWord(m, p, j, m[p][j].(f := NewFlags(m[p][j].f, f))) == SetWord(mem, p, j, LeafWord(mem[p][j], page, f))
  {
    var m := SetWord(mem, p, j, mem[p][j].(ppn := page));
    assert m[p][j := LeafWord(mem[p][j], page, f)] == mem[p][j := LeafWord(mem[p][j], page, f)];
  }
}
