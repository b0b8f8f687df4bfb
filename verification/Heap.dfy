/**
 The kernel heap (src/kern/ezheap.c:39-82): blocks are cut from the top of the current arena, and
 whole pages are taken from the page allocator when it is too small.
 */
module Heap {
  import opened Sv39
  import opened PageTables
  import opened PagePool
  import opened Memory
  import C = Chains

  const SIZE_SPAN := 0x1_0000_0000_0000_0000

  datatype Arena = Arena(start: nat, end: nat)

  function Room(a: Arena): int { a.end - a.start }

  /** The size actually cut, computed in 64 bits. */
  function Rounded(size: nat): nat { (size + 15) % SIZE_SPAN / 16 * 16 }

  datatype Reply = Refused | Served(a: Arena, addr: nat, tookPage: bool)

  /** kmalloc, given the page the page allocator would hand out next. */
  function Request(a: Arena, free: seq<nat>, size: nat): Reply {
    var n := Rounded(size);
    if n > PAGE_SIZE then Refused
    else if n <= Room(a) then Served(a.(end := a.end - n), a.end - n, false)
    else if free == [] then Refused
    else
      var page := free[0] * PAGE_SIZE;
      if Room(a) < PAGE_SIZE - n then Served(Arena(page, page + PAGE_SIZE - n), page + PAGE_SIZE - n, true)
      else Served(a, page, true)
  }

  /** A block holds what was asked for exactly when rounding the size up does not wrap. */
  lemma HoldsRequest(size: nat)
    requires size < SIZE_SPAN
    ensures Rounded(size) % 16 == 0
    ensures Rounded(size) >= size <==> size <= SIZE_SPAN - 16
    ensures size <= SIZE_SPAN - 16 ==> Rounded(size) < size + 16
    ensures size > SIZE_SPAN - 16 ==> Rounded(size) == 0
  {
  }

  /** Of the old and the new remainder the heap keeps the larger. */
  lemma KeepsLarger(a: Arena, free: seq<nat>, size: nat)
    requires Request(a, free, size).Served? && Request(a, free, size).tookPage && a.start <= a.end
    ensures var rest := PAGE_SIZE - Rounded(size);
      Room(Request(a, free, size).a) == if Room(a) < rest then rest else Room(a)
  {
  }

  /**
   When kmalloc refuses, when it takes a page and where the block and the arena then lie: it refuses
   exactly if the size is over a page, without wrapping, or neither the arena nor the page allocator
   has room; it takes a page exactly if the arena has no room; and it moves to the new page exactly if
   more is left there.
   */
  lemma RequestExactly(a: Arena, free: seq<nat>, size: nat)
    requires size < SIZE_SPAN && a.start <= a.end
    ensures var r, n := Request(a, free, size), Rounded(size);
      && (r.Refused? <==> PAGE_SIZE < size <= SIZE_SPAN - 16 || (a.end - a.start < n && free == []))
      && (r.Served? ==>
            && (r.tookPage <==> a.end - a.start < n)
            && (!r.tookPage ==> r.a.start == a.start && r.a.end == r.addr && r.addr + n == a.end)
            && (r.tookPage ==>
                  var page := free[0] * PAGE_SIZE;
                  if a.end - a.start < PAGE_SIZE - n
                  then r.a.start == page && r.a.end == r.addr && r.addr + n == page + PAGE_SIZE
                  else r.a == a && r.addr == page))
  {
  }

  ghost function PagesAfter(s: State, took: bool): State { if took && s.free != [] then Take(s, Kernel) else s }

  class EzHeap {
    var heapStart: nat
    var heapEnd: nat
    const m: MemoryManager

    ghost function A(): Arena
      reads this
    {
      Arena(heapStart, heapEnd)
    }

    /** heap_init */
    constructor (start: nat, end: nat, pages: MemoryManager)
      requires start < end
      ensures A() == Arena(start, end) && m == pages
    {
      heapStart, heapEnd, m := start, end, pages;
    }

    method Kmalloc(size: nat) returns (ok: bool, addr: nat)
      requires Valid(m.S()) && heapStart <= heapEnd
      modifies this, m`freeList, m`role, m`free
      ensures var r := Request(old(A()), old(m.free), size);
        && (ok <==> r.Served?)
        && (ok ==> A() == r.a && addr == r.addr && m.S() == PagesAfter(old(m.S()), r.tookPage))
      ensures size < SIZE_SPAN ==> (ok <==>
        !(PAGE_SIZE < size <= SIZE_SPAN - 16) && (Rounded(size) <= old(heapEnd - heapStart) || old(m.free) != []))
      ensures Valid(m.S()) && heapStart <= heapEnd
    {
      if size < SIZE_SPAN { RequestExactly(A(), m.free, size); }
      hide Valid, Rounded;
      var n := Rounded(size);
      if n > PAGE_SIZE {
        return false, 0;
      }
      if n <= heapEnd - heapStart {
        heapEnd := heapEnd - n;
        return true, heapEnd;
      }
      var page;
      ok, page := m.AllocPage();
      if !ok {
        return false, 0;
      }
      addr := page * PAGE_SIZE;
      if heapEnd - heapStart < PAGE_SIZE - n {
        heapStart := addr;
        heapEnd := addr + PAGE_SIZE - n;
        addr := heapEnd;
      }
    }
  }

  // ---------------------------------------------------------------- whole runs

  datatype Block = Block(addr: nat, len: nat)

  /** The initial heap and the page pool above it. */
  datatype Ground = Ground(lo: nat, hi: nat, pool: set<nat>)

  ghost predicate GroundOk(g: Ground) {
    g.lo < g.hi && g.hi % 16 == 0 && forall p :: p in g.pool ==> g.hi <= p * PAGE_SIZE
  }

  datatype Heap = Heap(a: Arena, free: seq<nat>, owned: set<nat>, others: set<nat>, blocks: seq<Block>)

  /** What may happen: kmalloc, and pages taken and given back by the rest of the kernel. */
  datatype Event = Malloc(size: nat) | PageAlloc | PageFree(page: nat)

  predicate Enabled(h: Heap, e: Event) {
    match e
    case Malloc(size) => Request(h.a, h.free, size).Served?
    case PageAlloc => h.free != []
    case PageFree(page) => page in h.others
  }

  function Step(h: Heap, e: Event): Heap
    requires Enabled(h, e)
  {
    match e
    case Malloc(size) =>
      var r := Request(h.a, h.free, size);
      var h' := h.(a := r.a, blocks := h.blocks + [Block(r.addr, Rounded(size))]);
      if r.tookPage then h'.(free := h.free[1..], owned := h.owned + {h.free[0]}) else h'
    case PageAlloc => h.(free := h.free[1..], others := h.others + {h.free[0]})
    case PageFree(page) => h.(free := [page] + h.free, others := h.others - {page})
  }

  ghost predicate Run(h: Heap, es: seq<Event>, h': Heap)
    decreases |es|
  {
    if es == [] then h' == h else Enabled(h, es[0]) && Run(Step(h, es[0]), es[1..], h')
  }

  function Initial(g: Ground, free: seq<nat>): Heap { Heap(Arena(g.lo, g.hi), free, {}, {}, []) }

  /** Free, heap-owned and otherwise allocated pages partition the pool. */
  ghost predicate PoolOk(g: Ground, free: seq<nat>, owned: set<nat>, others: set<nat>) {
    && C.Distinct(free)
    && (forall p :: p in g.pool <==> p in free || p in owned || p in others)
    && (forall p :: p in free ==> p !in owned && p !in others)
    && (forall p :: p in owned ==> p !in others)
  }

  predicate InPage(from: nat, upto: nat, p: nat) { p * PAGE_SIZE <= from && upto <= (p + 1) * PAGE_SIZE }

  ghost predicate Inside(g: Ground, owned: set<nat>, from: nat, upto: nat) {
    (g.lo <= from && upto <= g.hi) || exists p :: p in owned && InPage(from, upto, p)
  }

  predicate Apart(from: nat, upto: nat, from': nat, upto': nat) { upto <= from' || upto' <= from }

  ghost predicate BlockOk(g: Ground, a: Arena, owned: set<nat>, b: Block) {
    && b.addr % 16 == 0
    && Inside(g, owned, b.addr, b.addr + b.len)
    && Apart(b.addr, b.addr + b.len, a.start, a.end)
  }

  ghost predicate PairwiseApart(blocks: seq<Block>) {
    forall i, j :: 0 <= i < j < |blocks| ==> Apart(blocks[i].addr, blocks[i].addr + blocks[i].len, blocks[j].addr, blocks[j].addr + blocks[j].len)
  }

  ghost predicate HeapOk(g: Ground, h: Heap) {
    && h.a.start <= h.a.end && h.a.end % 16 == 0 && Inside(g, h.owned, h.a.start, h.a.end)
    && (forall b :: b in h.blocks ==> BlockOk(g, h.a, h.owned, b))
    && PairwiseApart(h.blocks)
  }

  ghost predicate Inv(g: Ground, h: Heap) { GroundOk(g) && PoolOk(g, h.free, h.owned, h.others) && HeapOk(g, h) }

  /** Ranges inside what the heap owns keep clear of any other page of the pool. */
  lemma InsideApart(g: Ground, owned: set<nat>, from: nat, upto: nat, p: nat)
    requires GroundOk(g) && Inside(g, owned, from, upto) && p in g.pool && p !in owned
    ensures Apart(from, upto, p * PAGE_SIZE, (p + 1) * PAGE_SIZE)
  {
    if !(g.lo <= from && upto <= g.hi) {
      var q :| q in owned && InPage(from, upto, q);
      assert q < p || p < q;
    }
  }

  lemma InsideMore(g: Ground, owned: set<nat>, more: set<nat>, from: nat, upto: nat)
    requires Inside(g, owned, from, upto) && owned <= more
    ensures Inside(g, more, from, upto)
  {
  }

  lemma AppendApart(blocks: seq<Block>, b: Block)
    requires PairwiseApart(blocks)
    requires forall c :: c in blocks ==> Apart(c.addr, c.addr + c.len, b.addr, b.addr + b.len)
    ensures PairwiseApart(blocks + [b])
  {
    var bs := blocks + [b];
    forall i, j | 0 <= i < j < |bs| ensures Apart(bs[i].addr, bs[i].addr + bs[i].len, bs[j].addr, bs[j].addr + bs[j].len) {
      assert bs[i] in blocks;
    }
  }

  lemma PoolStep(g: Ground, h: Heap, e: Event)
    requires PoolOk(g, h.free, h.owned, h.others) && Enabled(h, e)
    ensures var h' := Step(h, e); PoolOk(g, h'.free, h'.owned, h'.others)
  {
    if h.free != [] {
      assert h.free == [h.free[0]] + h.free[1..];
    }
  }

  lemma CutKeeps(g: Ground, h: Heap, size: nat)
    requires Inv(g, h) && Enabled(h, Malloc(size)) && !Request(h.a, h.free, size).tookPage
    ensures HeapOk(g, Step(h, Malloc(size)))
  {
    var r, h' := Request(h.a, h.free, size), Step(h, Malloc(size));
    var b := Block(r.addr, Rounded(size));
    assert r.addr == h.a.end - Rounded(size);
    hide PoolOk, Rounded, Inside, InPage, GroundOk;
    RoundedBy16(size);
    Sub16(h.a.end, Rounded(size));
    assert Inside(g, h.owned, b.addr, b.addr + b.len) && Inside(g, h.owned, r.a.start, r.a.end) by {
      CutInside(g, h.owned, h.a, b.addr);
    }
    forall c | c in h.blocks ensures BlockOk(g, h'.a, h.owned, c) && Apart(c.addr, c.addr + c.len, b.addr, b.addr + b.len) {
      assert BlockOk(g, h.a, h.owned, c);
    }
    AppendApart(h.blocks, b);
  }

  lemma RoundedBy16(size: nat)
    ensures Rounded(size) % 16 == 0
  {
  }

  lemma CutInside(g: Ground, owned: set<nat>, a: Arena, at: nat)
    requires Inside(g, owned, a.start, a.end) && a.start <= at <= a.end
    ensures Inside(g, owned, at, a.end) && Inside(g, owned, a.start, at)
  {
    if !(g.lo <= a.start && a.end <= g.hi) {
      var p :| p in owned && InPage(a.start, a.end, p);
      assert InPage(at, a.end, p) && InPage(a.start, at, p);
    }
  }

  lemma FreshPageKeeps(g: Ground, h: Heap, size: nat)
    requires Inv(g, h) && Enabled(h, Malloc(size)) && Request(h.a, h.free, size).tookPage
    ensures HeapOk(g, Step(h, Malloc(size)))
  {
    var r, h', p := Request(h.a, h.free, size), Step(h, Malloc(size)), h.free[0];
    var b := Block(r.addr, Rounded(size));
    assert p in h.free;
    assert p in g.pool && p !in h.owned && p in h'.owned;
    FreshPlaces(h.a, h.free, size);
    hide PoolOk, Rounded, Request, Inside;
    InsideApart(g, h.owned, h.a.start, h.a.end, p);
    InsideMore(g, h.owned, h'.owned, h.a.start, h.a.end);
    InsidePage(g, h'.owned, b.addr, b.addr + b.len, p);
    if r.a != h.a {
      InsidePage(g, h'.owned, r.a.start, r.a.end, p);
    }
    forall c | c in h.blocks ensures BlockOk(g, h'.a, h'.owned, c) && Apart(c.addr, c.addr + c.len, b.addr, b.addr + b.len) {
      assert BlockOk(g, h.a, h.owned, c);
      InsideApart(g, h.owned, c.addr, c.addr + c.len, p);
      InsideMore(g, h.owned, h'.owned, c.addr, c.addr + c.len);
    }
    AppendApart(h.blocks, b);
  }

  lemma InsidePage(g: Ground, owned: set<nat>, from: nat, upto: nat, p: nat)
    requires p in owned && InPage(from, upto, p)
    ensures Inside(g, owned, from, upto)
  {
  }

  /** A block from a fresh page, and the arena if it moves there, lie on the page and apart. */
  lemma FreshPlaces(a: Arena, free: seq<nat>, size: nat)
    requires Request(a, free, size).Served? && Request(a, free, size).tookPage && a.end % 16 == 0 && a.start <= a.end
    ensures free != []
    ensures var r, p := Request(a, free, size), free[0];
      && r.addr % 16 == 0 && r.a.start <= r.a.end && r.a.end % 16 == 0
      && InPage(r.addr, r.addr + Rounded(size), p)
      && (r.a == a || (InPage(r.a.start, r.a.end, p) && r.a.end <= r.addr))
  {
    hide Rounded;
    RoundedBy16(size);
    var n, p := Rounded(size), free[0];
    OnPage(p, n);
    hide InPage;
  }

  /** The top n bytes of a page, the rest, and the bottom n bytes. */
  lemma OnPage(p: nat, n: nat)
    requires n <= PAGE_SIZE && n % 16 == 0
    ensures var page := p * PAGE_SIZE;
      && page % 16 == 0 && (page + PAGE_SIZE - n) % 16 == 0
      && InPage(page + PAGE_SIZE - n, page + PAGE_SIZE - n + n, p) && InPage(page, page + n, p) && InPage(page, page + PAGE_SIZE - n, p)
  {
    Multiple(256 * p);
    Sub16(16 * (256 * p) + PAGE_SIZE, n);
  }

  lemma Multiple(k: nat)
    ensures (16 * k) % 16 == 0 && (16 * k + PAGE_SIZE) % 16 == 0
  {
  }

  lemma Sub16(x: nat, y: nat)
    requires x % 16 == 0 && y % 16 == 0 && y <= x
    ensures (x - y) % 16 == 0
  {
  }

  lemma StepKeeps(g: Ground, h: Heap, e: Event)
    requires Inv(g, h) && Enabled(h, e)
    ensures Inv(g, Step(h, e))
  {
    PoolStep(g, h, e);
    if e.Malloc? {
      if Request(h.a, h.free, e.size).tookPage { FreshPageKeeps(g, h, e.size); } else { CutKeeps(g, h, e.size); }
    }
  }

  lemma {:induction false} RunKeeps(g: Ground, h: Heap, es: seq<Event>, h': Heap)
    requires Inv(g, h) && Run(h, es, h')
    ensures Inv(g, h')
    decreases |es|
  {
    if es != [] {
      StepKeeps(g, h, es[0]);
      RunKeeps(g, Step(h, es[0]), es[1..], h');
    }
  }

  /** Whatever the run, blocks are aligned, disjoint, on heap memory and clear of every page the heap does not own. */
  lemma BlocksSafe(g: Ground, free: seq<nat>, es: seq<Event>, h: Heap)
    requires GroundOk(g) && C.Distinct(free) && (forall p :: p in free <==> p in g.pool)
    requires Run(Initial(g, free), es, h)
    ensures PoolOk(g, h.free, h.owned, h.others)
    ensures forall b :: b in h.blocks ==> b.addr % 16 == 0 && Inside(g, h.owned, b.addr, b.addr + b.len)
    ensures PairwiseApart(h.blocks)
    ensures forall b, p :: b in h.blocks && p in g.pool && p !in h.owned ==> Apart(b.addr, b.addr + b.len, p * PAGE_SIZE, (p + 1) * PAGE_SIZE)
  {
    RunKeeps(g, Initial(g, free), es, h);
    forall b, p | b in h.blocks && p in g.pool && p !in h.owned
      ensures Apart(b.addr, b.addr + b.len, p * PAGE_SIZE, (p + 1) * PAGE_SIZE)
    {
      assert BlockOk(g, h.a, h.owned, b);
      InsideApart(g, h.owned, b.addr, b.addr + b.len, p);
    }
  }

  // ---------------------------------------------------------------- the code takes these steps

  /** The heap object and its page allocator hold what the run says; pages in use are kernel pages. */
  ghost predicate Holds(h: EzHeap, x: Heap)
    reads h, h.m
  {
    && Valid(h.m.S()) && h.A() == x.a && h.m.free == x.free
    && forall p :: p in x.owned || p in x.others ==> p in h.m.mem && RoleOf(h.m.role, p) == Kernel
  }

  method PerformHeap(h: EzHeap, e: Event, ghost g: Ground, ghost x: Heap) returns (addr: nat)
    requires Holds(h, x) && Inv(g, x) && Enabled(x, e)
    modifies h, h.m
    ensures Holds(h, Step(x, e))
    ensures e.Malloc? ==> addr == Step(x, e).blocks[|x.blocks|].addr
  {
    hide Valid, HeapOk, Rounded, Request;
    addr := 0;
    match e
    case Malloc(size) =>
      FirstPage(h.m.S());
      ArenaOrder(g, x);
      TookAPage(x.a, x.free, size);
      var ok;
      ok, addr := h.Kmalloc(size);
    case PageAlloc =>
      FirstPage(h.m.S());
      var ok, page := h.m.AllocPage();
    case PageFree(page) => h.m.FreePage(page);
  }

  lemma FirstPage(s: State)
    requires Valid(s)
    ensures s.free != [] ==> s.free[0] in s.mem
  {
    if s.free != [] {
      assert s.free[0] in s.free;
    }
  }

  lemma TookAPage(a: Arena, free: seq<nat>, size: nat)
    ensures var r := Request(a, free, size); r.Served? && r.tookPage ==> free != []
  {
  }

  lemma ArenaOrder(g: Ground, x: Heap)
    requires Inv(g, x)
    ensures x.a.start <= x.a.end
  {
  }
}
