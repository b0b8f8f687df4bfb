/**
 memory_init (src/kern/memory.c:141-274): the direct map and the boot free list. RAM begins at
 0x80000000 and is as large as the kernel was configured for; the loader has put the kernel image at
 its beginning, with the three page tables in zeroed .bss.
 */
module Boot {
  import opened Sv39
  import opened PageTables
  import opened PagePool
  import opened Spaces
  import opened Memory
  import C = Chains

  const RAM_START := 0x80000     // a page number
  const MEGA_PAGES := 512
  const HEAP_INIT_MIN := 256

  /** Page numbers of the image's parts, the address where it ends, and the page number where RAM ends. */
  datatype Image = Image(pt2: nat, pt1: nat, pt0: nat, textStart: nat, textEnd: nat, rodataStart: nat, rodataEnd: nat,
                         dataStart: nat, kimgEnd: nat, ramEnd: nat)

  function RoundUp(n: nat): nat { (n + PAGE_SIZE - 1) / PAGE_SIZE * PAGE_SIZE }

  /** Where the initial heap ends: the page boundary after the image, or one page later if that leaves too little. */
  function HeapEndAddr(kimgEnd: nat): nat {
    var end := RoundUp(kimgEnd);
    if end - kimgEnd < HEAP_INIT_MIN then end + RoundUp(HEAP_INIT_MIN - (end - kimgEnd)) else end
  }

  /** The first page after the initial heap. */
  function HeapEnd(img: Image): nat { HeapEndAddr(img.kimgEnd) / PAGE_SIZE }

  lemma HeapEndIs(img: Image)
    ensures HeapEndAddr(img.kimgEnd) == HeapEnd(img) * PAGE_SIZE
    ensures img.kimgEnd + HEAP_INIT_MIN <= HeapEnd(img) * PAGE_SIZE < img.kimgEnd + HEAP_INIT_MIN + PAGE_SIZE
  {
  }

  predicate Layout(img: Image) {
    && RAM_START <= img.textStart <= img.textEnd <= img.rodataStart <= img.rodataEnd <= img.dataStart
    && img.dataStart * PAGE_SIZE <= img.kimgEnd
  }

  /** The table is inside the image. */
  predicate InImage(img: Image, p: nat) { RAM_START <= p && (p + 1) * PAGE_SIZE <= img.kimgEnd }

  ghost predicate Linked(img: Image, ram: Mem) {
    && Layout(img)
    && InImage(img, img.pt2) && InImage(img, img.pt1) && InImage(img, img.pt0)
    && img.pt2 != img.pt1 && img.pt2 != img.pt0 && img.pt1 != img.pt0
    && img.kimgEnd <= img.ramEnd * PAGE_SIZE && RAM_START < img.ramEnd <= RAM_START + MEGA_PAGES * MEGA_PAGES
    && (forall p :: p in ram <==> RAM_START <= p < img.ramEnd)
    && (forall p :: p in ram ==> |ram[p]| == PTE_CNT)
    && Zeroed(ram, img.pt2) && Zeroed(ram, img.pt1) && Zeroed(ram, img.pt0)
    && (forall p :: HeapEnd(img) <= p < img.ramEnd ==> Zeroed(ram, p))
  }

  /** The checks for "Kernel too large" and "Not enough memory". */
  predicate FitsMega(img: Image) { img.kimgEnd <= (RAM_START + MEGA_PAGES) * PAGE_SIZE }

  predicate FitsRam(img: Image) { HeapEndAddr(img.kimgEnd) <= img.ramEnd * PAGE_SIZE }

  lemma FitsExactly(img: Image)
    ensures FitsRam(img) <==> img.kimgEnd + HEAP_INIT_MIN <= img.ramEnd * PAGE_SIZE
  {
    HeapEndIs(img);
    hide HeapEnd, HeapEndAddr;
  }

  /** What memory_init relies on once both checks have passed. */
  ghost predicate Booting(img: Image, ram: Mem) {
    && Linked(img, ram) && HeapEnd(img) <= img.ramEnd && img.dataStart <= RAM_START + MEGA_PAGES
    && img.pt2 < HeapEnd(img) && img.pt1 < HeapEnd(img) && img.pt0 < HeapEnd(img)
  }

  lemma ChecksPassed(img: Image, ram: Mem)
    requires Linked(img, ram) && FitsMega(img)
    ensures FitsRam(img) <==> HeapEnd(img) <= img.ramEnd
    ensures FitsRam(img) ==> Booting(img, ram)
  {
    HeapEndIs(img);
  }

  ghost predicate Zeroed(ram: Mem, p: nat) { forall k :: Index(k) ==> Entry(ram, p, k) == ZERO }

  function LeafPte(p: nat, f: Flags): Word { Word(Or(f, NO_FLAGS.(a := true, d := true, v := true)), 0, p, 0) }

  const RWG := NO_FLAGS.(r := true, w := true, g := true)
  const RXG := NO_FLAGS.(r := true, x := true, g := true)
  const RG := NO_FLAGS.(r := true, g := true)

  // ---------------------------------------------------------------- what the tables hold

  function Word2(img: Image, k: nat): Word {
    if k < 2 then LeafPte(k * MEGA_PAGES * MEGA_PAGES, RWG) else if k == 2 then PtabPte(img.pt1) else ZERO
  }

  function Word1(img: Image, k: nat): Word {
    if k == 0 then PtabPte(img.pt0)
    else if RAM_START + k * MEGA_PAGES < img.ramEnd then LeafPte(RAM_START + k * MEGA_PAGES, RWG)
    else ZERO
  }

  function Word0(img: Image, k: nat): Word {
    var p := RAM_START + k;
    if img.textStart <= p < img.textEnd then LeafPte(p, RXG)
    else if img.rodataStart <= p < img.rodataEnd then LeafPte(p, RG)
    else if img.dataStart <= p then LeafPte(p, RWG)
    else ZERO
  }

  ghost predicate Tables(img: Image, mem: Mem) {
    && img.pt2 in mem && img.pt1 in mem && img.pt0 in mem
    && |mem[img.pt2]| == |mem[img.pt1]| == |mem[img.pt0]| == PTE_CNT
    && (forall k :: Index(k) ==> Entry(mem, img.pt2, k) == Word2(img, k))
    && (forall k :: Index(k) ==> Entry(mem, img.pt1, k) == Word1(img, k))
    && (forall k :: Index(k) ==> Entry(mem, img.pt0, k) == Word0(img, k))
  }

  /** Where the direct map sends a physical page number below the end of RAM to itself, and with what rights. */
  function DirectRights(img: Image, p: nat): Mapping {
    if p < RAM_START then Mapped(p, LeafPte(p, RWG).f)
    else if p < RAM_START + MEGA_PAGES then
      if img.textStart <= p < img.textEnd then Mapped(p, LeafPte(p, RXG).f)
      else if img.rodataStart <= p < img.rodataEnd then Mapped(p, LeafPte(p, RG).f)
      else if img.dataStart <= p then Mapped(p, LeafPte(p, RWG).f)
      else Fault
    else Mapped(p, LeafPte(p, RWG).f)
  }

  /** Page p is mapped to itself for the kernel alone, readable, and writable or executable as told. */
  predicate MapsSelf(t: Mapping, p: nat, writable: bool, executable: bool) {
    && t.Mapped? && t.page == p
    && t.f.v && t.f.r && t.f.w == writable && t.f.x == executable && !t.f.u && t.f.g && t.f.a && t.f.d
  }

  /**
   Devices and RAM are mapped at their own addresses: kernel text can be executed and not written,
   read-only data neither, and everything else that is mapped can be written and not executed.
   Between and before the sections nothing is mapped.
   */
  lemma DirectMap(img: Image, mem: Mem, p: nat)
    requires Tables(img, mem) && p < img.ramEnd <= RAM_START + MEGA_PAGES * MEGA_PAGES
    ensures var t := Translate(mem, img.pt2, p / 0x40000, p / 0x200 % 0x200, p % 0x200);
      if p < RAM_START || RAM_START + MEGA_PAGES <= p then MapsSelf(t, p, true, false)
      else if img.textStart <= p < img.textEnd then MapsSelf(t, p, false, true)
      else if img.rodataStart <= p < img.rodataEnd then MapsSelf(t, p, false, false)
      else if img.dataStart <= p then MapsSelf(t, p, true, false)
      else t == Fault
  {
    hide Translate;
    DirectWords(img, mem, p);
  }

  /** Through a gigapage, a page or a megapage. */
  lemma DirectWords(img: Image, mem: Mem, p: nat)
    requires Tables(img, mem) && p < img.ramEnd <= RAM_START + MEGA_PAGES * MEGA_PAGES
    ensures Translate(mem, img.pt2, p / 0x40000, p / 0x200 % 0x200, p % 0x200) == DirectRights(img, p)
  {
    var v2, v1, v0 := p / 0x40000, p / 0x200 % 0x200, p % 0x200;
    assert Index(v2) && Index(v1) && Index(v0);
    var e2, e1, e0 := Entry(mem, img.pt2, v2), Entry(mem, img.pt1, v1), Entry(mem, img.pt0, v0);
    assert e2 == Word2(img, v2) && e1 == Word1(img, v1) && e0 == Word0(img, v0);
    hide Tables;
    if p < RAM_START {
      Gigapage(img, mem, p, v2, v1, v0);
    } else {
      hide Level0Step;
      assert e2 == PtabPte(img.pt1) && Translate(mem, img.pt2, v2, v1, v0) == Level1Step(mem, e1, v0);
      hide Level2Step;
      BelowGigapage(img, mem, p, v1, v0);
    }
  }

  lemma Gigapage(img: Image, mem: Mem, p: nat, v2: nat, v1: nat, v0: nat)
    requires p == v2 * 0x40000 + v1 * 0x200 + v0 && v2 < 2 && v1 < 0x200 && v0 < 0x200 && Entry(mem, img.pt2, v2) == Word2(img, v2)
    ensures Translate(mem, img.pt2, v2, v1, v0) == DirectRights(img, p)
  {
  }

  lemma BelowGigapage(img: Image, mem: Mem, p: nat, v1: nat, v0: nat)
    requires p == RAM_START + v1 * 0x200 + v0 && v1 < 0x200 && v0 < 0x200 && p < img.ramEnd
    requires Entry(mem, img.pt1, v1) == Word1(img, v1) && Entry(mem, img.pt0, v0) == Word0(img, v0)
    ensures Level1Step(mem, Entry(mem, img.pt1, v1), v0) == DirectRights(img, p)
  {
  }

  // ---------------------------------------------------------------- the invariant at boot

  ghost function BootRole(img: Image, p: nat): Role {
    if p == img.pt2 then Root
    else if p == img.pt1 || p == img.pt0 then KernelTable
    else if HeapEnd(img) <= p then Free
    else Kernel
  }

  ghost function BootRoles(img: Image, ram: Mem): Roles {
    map p | p in ram :: BootRole(img, p)
  }

  ghost predicate BootPool(img: Image, mem: Mem, freeList: nat, free: seq<nat>) {
    && HeapEnd(img) <= img.ramEnd && |free| == img.ramEnd - HeapEnd(img)
    && (forall i :: 0 <= i < |free| ==> free[i] == HeapEnd(img) + i)
    && (forall i :: 0 <= i < |free| ==> Entry(mem, free[i], 0) == LinkWord(C.At(free, i + 1)))
    && (forall p, k :: HeapEnd(img) <= p < img.ramEnd && Index(k) && k > 0 ==> Entry(mem, p, k) == ZERO)
    && freeList == HeapEnd(img)
  }

  ghost predicate BootPages(img: Image, mem: Mem) {
    && (forall p :: p in mem <==> RAM_START <= p < img.ramEnd)
    && (forall p :: p in mem ==> |mem[p]| == PTE_CNT)
  }

  lemma BootMem(img: Image, ram: Mem, mem: Mem)
    requires Booting(img, ram) && BootPages(img, mem) && Tables(img, mem)
    ensures MemOk(mem, BootRoles(img, ram))
  {
    var role := BootRoles(img, ram);
    forall p, k | p in mem && 0 <= k < PTE_CNT ensures WordOk(role, p, k, mem[p][k]) {
      assert Index(k) && mem[p][k] == Entry(mem, p, k);
      assert RoleOf(role, p) == BootRole(img, p);
      assert RoleOf(role, img.pt1) == RoleOf(role, img.pt0) == KernelTable;
    }
  }

  /** The list is well formed unless no page is left for it, when free_list is not NULL. */
  lemma BootFree(img: Image, ram: Mem, mem: Mem, freeList: nat, free: seq<nat>)
    requires Booting(img, ram) && BootPages(img, mem) && BootPool(img, mem, freeList, free)
    ensures FreeOk(mem, BootRoles(img, ram), freeList, free) <==> HeapEnd(img) < img.ramEnd
  {
    var role := BootRoles(img, ram);
    forall p: nat ensures p in free <==> RoleOf(role, p).Free? {
      if RoleOf(role, p).Free? {
        assert free[p - HeapEnd(img)] == p;
      }
    }
    assert C.Distinct(free);
  }

  lemma BootClean(img: Image, ram: Mem, mem: Mem, freeList: nat, free: seq<nat>)
    requires Booting(img, ram) && BootPages(img, mem) && BootPool(img, mem, freeList, free)
    ensures FreeClean(mem, BootRoles(img, ram))
  {
    var role := BootRoles(img, ram);
    forall p: nat | RoleOf(role, p).Free? ensures PageClean(mem, p) {
      assert free[p - HeapEnd(img)] == p;
      assert Entry(mem, p, 0) == LinkWord(C.At(free, p - HeapEnd(img) + 1));
    }
  }

  // ---------------------------------------------------------------- memory_init

  ghost predicate OnlyPage(mem: Mem, mem': Mem, t: nat) {
    && mem'.Keys == mem.Keys && t in mem && |mem'[t]| == |mem[t]|
    && forall p :: p in mem && p != t ==> mem'[p] == mem[p]
  }

  /** A table word after a run of leaves was written over words from, ..., upto - 1. */
  function RunWord(was: Word, k: nat, from: nat, upto: nat, page: nat, step: nat, f: Flags): Word {
    if from <= k < upto then LeafPte(page + k * step, f) else was
  }

  /** One of the loops that map a run of pages, or of step pages each, at their own addresses. */
  method MapRun(m: MemoryManager, t: nat, from: nat, upto: nat, page: nat, step: nat, f: Flags)
    requires t in m.mem && |m.mem[t]| == PTE_CNT && from <= upto <= PTE_CNT
    modifies m`mem
    ensures OnlyPage(old(m.mem), m.mem, t)
    ensures forall k: nat :: Index(k) ==> Entry(m.mem, t, k) == RunWord(Entry(old(m.mem), t, k), k, from, upto, page, step, f)
  {
    var k := from;
    while k < upto
      invariant from <= k <= upto && OnlyPage(old(m.mem), m.mem, t)
      invariant forall n: nat :: Index(n) ==> Entry(m.mem, t, n) == RunWord(Entry(old(m.mem), t, n), n, from, k, page, step, f)
    {
      ghost var was := m.mem;
      m.mem := SetWord(m.mem, t, k, LeafPte(page + k * step, f));
      assert forall n: nat :: Entry(m.mem, t, n) == if n == k then LeafPte(page + k * step, f) else Entry(was, t, n);
      k := k + 1;
    }
  }

  method MapGigapages(m: MemoryManager, img: Image)
    requires img.pt2 in m.mem && |m.mem[img.pt2]| == PTE_CNT && Zeroed(m.mem, img.pt2)
    modifies m`mem
    ensures OnlyPage(old(m.mem), m.mem, img.pt2)
    ensures forall k :: Index(k) ==> Entry(m.mem, img.pt2, k) == Word2(img, k)
  {
    MapRun(m, img.pt2, 0, 2, 0, MEGA_PAGES * MEGA_PAGES, RWG);
    m.mem := SetWord(m.mem, img.pt2, 2, PtabPte(img.pt1));
  }

  method MapMegapages(m: MemoryManager, img: Image)
    requires img.pt1 in m.mem && |m.mem[img.pt1]| == PTE_CNT && Zeroed(m.mem, img.pt1)
    requires RAM_START < img.ramEnd <= RAM_START + MEGA_PAGES * MEGA_PAGES
    modifies m`mem
    ensures OnlyPage(old(m.mem), m.mem, img.pt1)
    ensures forall k :: Index(k) ==> Entry(m.mem, img.pt1, k) == Word1(img, k)
  {
    m.mem := SetWord(m.mem, img.pt1, 0, PtabPte(img.pt0));
    MapRun(m, img.pt1, 1, (img.ramEnd - RAM_START + MEGA_PAGES - 1) / MEGA_PAGES, RAM_START, MEGA_PAGES, RWG);
  }

  method MapImage(m: MemoryManager, img: Image)
    requires Layout(img) && img.dataStart <= RAM_START + MEGA_PAGES && img.pt0 in m.mem && |m.mem[img.pt0]| == PTE_CNT && Zeroed(m.mem, img.pt0)
    modifies m`mem
    ensures OnlyPage(old(m.mem), m.mem, img.pt0)
    ensures forall k :: Index(k) ==> Entry(m.mem, img.pt0, k) == Word0(img, k)
  {
    MapRun(m, img.pt0, img.textStart - RAM_START, img.textEnd - RAM_START, RAM_START, 1, RXG);
    MapRun(m, img.pt0, img.rodataStart - RAM_START, img.rodataEnd - RAM_START, RAM_START, 1, RG);
    MapRun(m, img.pt0, img.dataStart - RAM_START, MEGA_PAGES, RAM_START, 1, RWG);
  }

  method MapKernel(m: MemoryManager, img: Image)
    requires Booting(img, m.mem)
    modifies m`mem
    ensures Tables(img, m.mem) && BootPages(img, m.mem)
    ensures forall p :: HeapEnd(img) <= p < img.ramEnd ==> Zeroed(m.mem, p)
  {
    MapGigapages(m, img);
    ghost var mem2 := m.mem;
    assert Zeroed(mem2, img.pt1) && Zeroed(mem2, img.pt0);
    MapMegapages(m, img);
    ghost var mem1 := m.mem;
    assert Zeroed(mem1, img.pt0);
    MapImage(m, img);
    hide Word0, Word1, Word2;
    assert forall k :: Index(k) ==> Entry(m.mem, img.pt1, k) == Entry(mem1, img.pt1, k);
    assert forall k :: Index(k) ==> Entry(m.mem, img.pt2, k) == Entry(mem2, img.pt2, k);
    forall p | HeapEnd(img) <= p < img.ramEnd ensures Zeroed(m.mem, p) {
      assert m.mem[p] == old(m.mem)[p] && Zeroed(old(m.mem), p);
    }
  }

  lemma LinkWrite(mem: Mem, page: nat, link: Word)
    requires page in mem && |mem[page]| == PTE_CNT
    ensures var mem' := SetWord(mem, page, 0, link);
      && mem'.Keys == mem.Keys && Entry(mem', page, 0) == link
      && (forall p :: p in mem && p != page ==> mem'[p] == mem[p]) && |mem'[page]| == |mem[page]|
      && (forall p, k :: p != page || k > 0 ==> Entry(mem', p, k) == Entry(mem, p, k))
  {
  }

  /** The loop that links the pages from first on into the free list. */
  method LinkFreePages(m: MemoryManager, first: nat, cnt: nat) returns (ghost pages: seq<nat>)
    requires forall p :: first <= p < first + cnt ==> p in m.mem && |m.mem[p]| == PTE_CNT
    modifies m`mem, m`freeList
    ensures m.freeList == first && m.mem.Keys == old(m.mem.Keys)
    ensures |pages| == cnt && forall i :: 0 <= i < cnt ==> pages[i] == first + i
    ensures forall i :: 0 <= i < cnt ==> Entry(m.mem, pages[i], 0) == LinkWord(C.At(pages, i + 1))
    ensures forall p :: p in m.mem && !(first <= p < first + cnt) ==> m.mem[p] == old(m.mem)[p]
    ensures forall p :: p in m.mem ==> |m.mem[p]| == |old(m.mem)[p]|
    ensures forall p, k :: p in m.mem && Index(k) && k > 0 ==> Entry(m.mem, p, k) == Entry(old(m.mem), p, k)
  {
    pages := seq(cnt, i requires 0 <= i => first + i);
    m.freeList := first;
    var i := 0;
    while i < cnt
      invariant 0 <= i <= cnt && m.freeList == first && m.mem.Keys == old(m.mem.Keys)
      invariant forall p :: p in m.mem ==> |m.mem[p]| == |old(m.mem)[p]|
      invariant forall n :: 0 <= n < i ==> Entry(m.mem, pages[n], 0) == LinkWord(C.At(pages, n + 1))
      invariant forall p :: p in m.mem && !(first <= p < first + i) ==> m.mem[p] == old(m.mem)[p]
      invariant forall p, k :: p in m.mem && Index(k) && k > 0 ==> Entry(m.mem, p, k) == Entry(old(m.mem), p, k)
    {
      var page := m.freeList + i;
      var link := LinkWord(if i != cnt - 1 then page + 1 else 0);
      LinkWrite(m.mem, page, link);
      hide SetWord, Entry, LinkWord;
      m.mem := SetWord(m.mem, page, 0, link);
      i := i + 1;
    }
  }

  /**
   The kernel panics exactly if the image is larger than a megapage or the initial heap does not fit
   in RAM. Otherwise every page past the heap is free, and the manager is ready if there is one.
   */
  method MemoryInit(img: Image, ram: Mem) returns (ok: bool, m: MemoryManager?)
    requires Linked(img, ram)
    ensures ok <==> img.kimgEnd <= 0x80000000 + 0x200000 && img.kimgEnd + HEAP_INIT_MIN <= img.ramEnd * PAGE_SIZE
    ensures ok ==> m != null && fresh(m) && Tables(img, m.mem) && BootPool(img, m.mem, m.freeList, m.free)
    ensures ok ==> m.role == BootRoles(img, ram) && RootOf(m.satp) == img.pt2
    ensures ok ==> (m.Active() <==> HeapEnd(img) < img.ramEnd)
  {
    FitsExactly(img);
    hide HeapEnd, HeapEndAddr, Linked, FitsRam;
    if !FitsMega(img) {
      return false, null;
    }
    ChecksPassed(img, ram);
    if !FitsRam(img) {
      return false, null;
    }
    m := BuildManager(img, ram);
    ok := true;
  }

  method BuildManager(img: Image, ram: Mem) returns (m: MemoryManager)
    requires Booting(img, ram)
    ensures fresh(m) && Tables(img, m.mem) && BootPool(img, m.mem, m.freeList, m.free)
    ensures m.role == BootRoles(img, ram) && RootOf(m.satp) == img.pt2
    ensures m.Active() <==> HeapEnd(img) < img.ramEnd
  {
    hide HeapEnd, Booting, BootPages, Tables;
    TablesBelow(img, ram);
    m := new MemoryManager(ram, img.pt2, img.pt1);
    MapKernel(m, img);
    ghost var mem1 := m.mem;
    var first := HeapEnd(img);
    PagesThere(img, mem1);
    ghost var pages := LinkFreePages(m, first, img.ramEnd - first);
    m.role, m.free := BootRoles(img, ram), pages;
    TablesKept(img, mem1, m.mem);
    PoolBuilt(img, mem1, m.mem, first, pages);
    hide BootPool, BootRoles;
    BootReady(img, ram, m.mem, m.freeList, m.free);
    hide Ready;
    TagOfRoot(img);
  }

  lemma TablesBelow(img: Image, ram: Mem)
    requires Booting(img, ram)
    ensures HeapEnd(img) <= img.ramEnd <= RAM_START + MEGA_PAGES * MEGA_PAGES
    ensures RAM_START <= img.pt2 < HeapEnd(img) && RAM_START <= img.pt1 < HeapEnd(img) && RAM_START <= img.pt0 < HeapEnd(img)
  {
    hide HeapEnd;
  }

  lemma PagesThere(img: Image, mem: Mem)
    requires BootPages(img, mem)
    ensures forall p :: RAM_START <= p < img.ramEnd ==> p in mem && |mem[p]| == PTE_CNT
  {
  }

  lemma TagOfRoot(img: Image)
    requires img.pt2 < img.ramEnd <= RAM_START + MEGA_PAGES * MEGA_PAGES
    ensures RootOf(SATP_SV39 + img.pt2) == img.pt2
  {
  }

  lemma PoolBuilt(img: Image, mem1: Mem, mem: Mem, first: nat, pages: seq<nat>)
    requires first == HeapEnd(img) <= img.ramEnd && |pages| == img.ramEnd - first
    requires BootPages(img, mem1) && mem.Keys == mem1.Keys && RAM_START <= first
    requires forall p :: first <= p < img.ramEnd ==> Zeroed(mem1, p)
    requires forall i :: 0 <= i < |pages| ==> pages[i] == first + i
    requires forall i :: 0 <= i < |pages| ==> Entry(mem, pages[i], 0) == LinkWord(C.At(pages, i + 1))
    requires forall p, k :: p in mem && Index(k) && k > 0 ==> Entry(mem, p, k) == Entry(mem1, p, k)
    ensures BootPool(img, mem, first, pages)
  {
    hide HeapEnd;
    forall p: nat, k | first <= p < img.ramEnd && Index(k) && k > 0 ensures Entry(mem, p, k) == ZERO {
      assert Zeroed(mem1, p);
    }
  }

  lemma BootReady(img: Image, ram: Mem, mem: Mem, freeList: nat, free: seq<nat>)
    requires Booting(img, ram) && BootPages(img, mem) && Tables(img, mem) && BootPool(img, mem, freeList, free)
    ensures Ready(State(mem, BootRoles(img, ram), freeList, free, img.pt2, img.pt1)) <==> HeapEnd(img) < img.ramEnd
    ensures IsRoot(BootRoles(img, ram), img.pt2) && img.pt2 < img.ramEnd
  {
    hide MemOk, FreeOk, FreeClean, SharedKernel, OwnersOk;
    BootMem(img, ram, mem);
    BootFree(img, ram, mem, freeList, free);
    BootClean(img, ram, mem, freeList, free);
    BootShared(img, ram, mem);
  }

  /** With three pages left for the list, any user page can be mapped right after boot. */
  lemma BootMappable(img: Image, ram: Mem, mem: Mem, freeList: nat, free: seq<nat>, i: nat, j: nat)
    requires Booting(img, ram) && BootPages(img, mem) && Tables(img, mem) && BootPool(img, mem, freeList, free)
    requires HeapEnd(img) + 3 <= img.ramEnd && Index(i) && Index(j)
    ensures Mappable(State(mem, BootRoles(img, ram), freeList, free, img.pt2, img.pt1), img.pt2, i, j)
  {
    hide Ready, Booting, Tables, BootRoles, BootPages;
    BootReady(img, ram, mem, freeList, free);
  }

  lemma TablesKept(img: Image, mem: Mem, mem': Mem)
    requires Tables(img, mem) && BootPages(img, mem) && mem'.Keys == mem.Keys
    requires forall p :: p in mem' ==> |mem'[p]| == |mem[p]|
    requires mem'[img.pt2] == mem[img.pt2] && mem'[img.pt1] == mem[img.pt1] && mem'[img.pt0] == mem[img.pt0]
    ensures Tables(img, mem') && BootPages(img, mem')
  {
  }

  lemma BootShared(img: Image, ram: Mem, mem: Mem)
    requires Booting(img, ram) && BootPages(img, mem) && Tables(img, mem)
    ensures SharedKernel(mem, BootRoles(img, ram), img.pt2, img.pt1) && OwnersOk(BootRoles(img, ram)) && Fits(mem)
    ensures IsRoot(BootRoles(img, ram), img.pt2)
  {
  }
}
