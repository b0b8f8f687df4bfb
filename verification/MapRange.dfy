/**
 Mapping pages and ranges of pages (src/kern/memory.c:469-521): what every address translates to
 afterwards, and exactly when memory suffices.
 */
module MapRange {
  import opened Sv39
  import opened PageTables
  import opened PagePool
  import opened Spaces

  /** Mapping a page decides that one translation and leaves every other address, in every space, alone. */
  lemma MapTranslates(s: State, root: nat, i: nat, j: nat, f: Flags, r: nat, v2: nat, v1: nat, v0: nat)
    requires Mappable(s, root, i, j)
    requires IsRoot(s.role, r) && v2 < PTE_CNT && v1 < PTE_CNT && v0 < PTE_CNT
    ensures var s' := MapPage(s, root, i, j, f);
      var was, t := FlagsOf(s.mem, root, i, j), Translate(s'.mem, r, v2, v1, v0);
      if r == root && v2 == 3 && v1 == i && v0 == j then
        if Usable(was, f) then t.Mapped? && t.page == s.free[Missing(s.mem, root, i)] && Granted(t.f, was, f) else t == Fault
      else t == Translate(s.mem, r, v2, v1, v0)
  {
    MapPageKeeps(s, root, i, j, f);
    var s' := MapPage(s, root, i, j, f);
    GrantedExactly(FlagsOf(s'.mem, root, i, j), FlagsOf(s.mem, root, i, j), f);
    if v2 != 3 {
      KernelAddresses(s, s', root, r, v2, v1, v0);
    } else {
      assert IsRoot(s'.role, r);
      TranslateUser(s.mem, s.role, r, v1, v0);
      TranslateUser(s'.mem, s'.role, r, v1, v0);
      if r != root {
        OtherSpaces(s, s', root, r);
      }
      assert Index(v1) && Index(v0);
    }
  }

  /** No physical page is mapped at two user pages, of one space or of two. */
  lemma MappedOnce(s: State, r: nat, i: nat, j: nat, r': nat, i': nat, j': nat)
    requires Valid(s) && IsRoot(s.role, r) && IsRoot(s.role, r') && Index(i) && Index(j) && Index(i') && Index(j')
    requires var v, v' := ViewOf(s.mem, r, i, j), ViewOf(s.mem, r', i', j'); v.Page? && v'.Page? && v.page == v'.page
    ensures r == r' && i == i' && j == j'
  {
    MappedIsData(s.mem, s.role, r, i, j);
    MappedIsData(s.mem, s.role, r', i', j');
  }

  // ---------------------------------------------------------------- ranges

  const USER_PAGES := 262144   // pages under root index 3

  function Hi(q: nat): nat { q / 512 }
  function Lo(q: nat): nat { q % 512 }

  lemma HiLo(q: nat)
    requires q < USER_PAGES
    ensures Index(Hi(q)) && Index(Lo(q)) && q == Hi(q) * 512 + Lo(q)
    ensures Hi(q + 1) == Hi(q) || Hi(q + 1) == Hi(q) + 1
  {
  }

  datatype Outcome = Panic | Done(s: State)

  /** memory_alloc_and_map_page over user pages q, q + 1, ..., q + n - 1, counted from 0xC0000000. */
  ghost function MapPages(s: State, root: nat, q: nat, n: nat, f: Flags): Outcome
    requires Walkable(s, root, 0) && q + n <= USER_PAGES
    decreases n
  {
    if n == 0 then Done(s)
    else
      var i, j := Hi(q), Lo(q);
      if Missing(s.mem, root, i) < |s.free| then
        MapPageKeeps(s, root, i, j, f);
        MapPages(MapPage(s, root, i, j, f), root, q + 1, n - 1, f)
      else Panic
  }

  lemma MapPagesNext(s: State, root: nat, q: nat, n: nat, f: Flags)
    requires Walkable(s, root, 0) && q + n <= USER_PAGES && n > 0
    ensures if Missing(s.mem, root, Hi(q)) < |s.free|
      then && Mappable(s, root, Hi(q), Lo(q)) && Walkable(MapPage(s, root, Hi(q), Lo(q), f), root, 0)
           && MapPages(s, root, q, n, f) == MapPages(MapPage(s, root, Hi(q), Lo(q), f), root, q + 1, n - 1, f)
      else MapPages(s, root, q, n, f) == Panic
  {
    if Missing(s.mem, root, Hi(q)) < |s.free| {
      MapPageKeeps(s, root, Hi(q), Lo(q), f);
    }
  }

  ghost predicate InRange(q: nat, n: nat, i: nat, j: nat) { q <= i * 512 + j < q + n }

  ghost predicate RangeView(s: State, s': State, root: nat, q: nat, n: nat, f: Flags, i: nat, j: nat) {
    var v, v' := ViewOf(s.mem, root, i, j), ViewOf(s'.mem, root, i, j);
    if InRange(q, n, i, j) then
      v'.Page? && Granted(v'.f, FlagsOf(s.mem, root, i, j), f) && RoleOf(s.role, v'.page).Free?
    else v' == v
  }

  ghost predicate RangeMapped(s: State, s': State, root: nat, q: nat, n: nat, f: Flags) {
    forall i, j :: Index(i) && Index(j) ==> RangeView(s, s', root, q, n, f, i, j)
  }

  lemma {:induction false} MapPagesKeeps(s: State, root: nat, q: nat, n: nat, f: Flags)
    requires Walkable(s, root, 0) && q + n <= USER_PAGES
    requires MapPages(s, root, q, n, f).Done?
    ensures var s' := MapPages(s, root, q, n, f).s;
      Walkable(s', root, 0) && Extends(s, s', root) && RangeMapped(s, s', root, q, n, f)
    decreases n
  {
    hide Ready, Walkable, MapPages, MapPage, Mappable, Missing, Extends, OthersKept, RangeView, RangeMapped, Hi, Lo;
    if n == 0 {
      NoPages(s, root, q, f);
    } else {
      MapPagesNext(s, root, q, n, f);
      FirstPage(s, root, q, f);
      var s1 := MapPage(s, root, Hi(q), Lo(q), f);
      MapPagesKeeps(s1, root, q + 1, n - 1, f);
      var s' := MapPages(s1, root, q + 1, n - 1, f).s;
      ExtendsTrans(s, s1, s', root);
      RangeSteps(s, s1, s', root, q, n, f);
    }
  }

  lemma NoPages(s: State, root: nat, q: nat, f: Flags)
    requires Walkable(s, root, 0) && q <= USER_PAGES
    ensures MapPages(s, root, q, 0, f) == Done(s) && Extends(s, s, root) && RangeMapped(s, s, root, q, 0, f)
    ensures RangeNeed(s.mem, root, q, 0) == 0
  {
  }

  lemma RangeSteps(s: State, s1: State, s': State, root: nat, q: nat, n: nat, f: Flags)
    requires n > 0 && q < USER_PAGES && RangeMapped(s1, s', root, q + 1, n - 1, f)
    requires OthersKept(s, s1, root, Hi(q), Lo(q))
    requires RangeView(s, s1, root, q, 1, f, Hi(q), Lo(q))
    requires forall p :: RoleOf(s1.role, p).Free? ==> RoleOf(s.role, p).Free?
    ensures RangeMapped(s, s', root, q, n, f)
  {
    forall i, j | Index(i) && Index(j) ensures RangeView(s, s', root, q, n, f, i, j) {
      RangeStep(s, s1, s', root, q, n, f, i, j);
    }
  }

  lemma RangeStep(s: State, s1: State, s': State, root: nat, q: nat, n: nat, f: Flags, i': nat, j': nat)
    requires n > 0 && Index(i') && Index(j') && RangeView(s1, s', root, q + 1, n - 1, f, i', j')
    requires OthersKept(s, s1, root, Hi(q), Lo(q))
    requires RangeView(s, s1, root, q, 1, f, Hi(q), Lo(q))
    requires forall p :: RoleOf(s1.role, p).Free? ==> RoleOf(s.role, p).Free?
    ensures RangeView(s, s', root, q, n, f, i', j')
  {
    var i, j := Hi(q), Lo(q);
    hide ViewOf, Granted;
    if i' * 512 + j' == q {
      assert i' == i && j' == j;
    } else {
      assert i' != i || j' != j;
    }
  }

  /** The same, for the first page of the range. */
  lemma FirstPage(s: State, root: nat, q: nat, f: Flags)
    requires q < USER_PAGES && Mappable(s, root, Hi(q), Lo(q))
    ensures var s1 := MapPage(s, root, Hi(q), Lo(q), f);
      && Walkable(s1, root, 0) && Extends(s, s1, root)
      && OthersKept(s, s1, root, Hi(q), Lo(q))
      && RangeView(s, s1, root, q, 1, f, Hi(q), Lo(q))
      && (forall p :: RoleOf(s1.role, p).Free? ==> RoleOf(s.role, p).Free?)
  {
    var i, j := Hi(q), Lo(q);
    MapPageKeeps(s, root, i, j, f);
    FreeBefore(s, MapPage(s, root, i, j, f), root);
    hide MapPage, ViewOf, L0Of, L1Of, Granted, MemOk, SharedKernel, FreeClean, Extends, OthersKept;
    assert s.free[Missing(s.mem, root, i)] in s.free;
  }

  lemma FreeBefore(s: State, s': State, root: nat)
    requires Valid(s) && Valid(s') && Extends(s, s', root)
    ensures forall p :: RoleOf(s'.role, p).Free? ==> RoleOf(s.role, p).Free?
  {
  }

  /** Level-0 tables absent among lo, ..., hi - 1. */
  function Absent(mem: Mem, root: nat, lo: nat, hi: nat): nat
    decreases hi - lo
  {
    if lo >= hi then 0 else (if L0Of(mem, root, lo) == 0 then 1 else 0) + Absent(mem, root, lo + 1, hi)
  }

  /** Pages a range mapping takes: the range itself and each table not there yet. */
  function RangeNeed(mem: Mem, root: nat, q: nat, n: nat): nat {
    if n == 0 then 0
    else n + (if L1Of(mem, root) == 0 then 1 else 0) + Absent(mem, root, Hi(q), Hi(q + n - 1) + 1)
  }

  lemma {:induction false} AbsentFrame(mem: Mem, mem': Mem, root: nat, lo: nat, hi: nat)
    requires hi <= PTE_CNT
    requires forall i :: Index(i) && lo <= i ==> L0Of(mem', root, i) == L0Of(mem, root, i)
    ensures Absent(mem', root, lo, hi) == Absent(mem, root, lo, hi)
    decreases hi - lo
  {
    if lo < hi {
      assert Index(lo);
      AbsentFrame(mem, mem', root, lo + 1, hi);
    }
  }

  /** The range is mapped exactly when that many pages are free; otherwise the kernel panics. */
  lemma {:induction false} MapPagesNeed(s: State, root: nat, q: nat, n: nat, f: Flags)
    requires Walkable(s, root, 0) && q + n <= USER_PAGES
    ensures MapPages(s, root, q, n, f).Done? <==> RangeNeed(s.mem, root, q, n) <= |s.free|
    ensures var o := MapPages(s, root, q, n, f); o.Done? ==> o.s.free == s.free[RangeNeed(s.mem, root, q, n)..]
    decreases n
  {
    hide Ready, Walkable, MapPages, MapPage, Mappable, Missing, Extends, OthersKept, L1Of, L0Of, ViewOf, RangeNeed, Hi, Lo;
    if n == 0 {
      NoPages(s, root, q, f);
    } else {
      HiLo(q);
      MapPagesNext(s, root, q, n, f);
      if Missing(s.mem, root, Hi(q)) < |s.free| {
        var s1 := MapPage(s, root, Hi(q), Lo(q), f);
        MapPageKeeps(s, root, Hi(q), Lo(q), f);
        MapPagesNeed(s1, root, q + 1, n - 1, f);
        NeedStep(s, s1, root, q, n);
      } else {
        NeedFirst(s, root, q, n);
      }
    }
  }

  lemma NeedFirst(s: State, root: nat, q: nat, n: nat)
    requires n > 0 && q + n <= USER_PAGES
    ensures RangeNeed(s.mem, root, q, n) > Missing(s.mem, root, Hi(q))
  {
    hide L0Of, L1Of;
    assert Absent(s.mem, root, Hi(q), Hi(q + n - 1) + 1) >= if L0Of(s.mem, root, Hi(q)) == 0 then 1 else 0;
  }

  lemma NeedStep(s: State, s1: State, root: nat, q: nat, n: nat)
    requires n > 0 && q + n <= USER_PAGES
    requires L1Of(s1.mem, root) != 0 && L0Of(s1.mem, root, Hi(q)) != 0
    requires forall i :: Index(i) && i != Hi(q) ==> L0Of(s1.mem, root, i) == L0Of(s.mem, root, i)
    ensures RangeNeed(s.mem, root, q, n) == 1 + Missing(s.mem, root, Hi(q)) + RangeNeed(s1.mem, root, q + 1, n - 1)
  {
    var i, hi := Hi(q), Hi(q + n - 1) + 1;
    AbsentFrame(s.mem, s1.mem, root, i + 1, hi);
    hide L1Of, L0Of;
    assert Absent(s.mem, root, i, hi) == (if L0Of(s.mem, root, i) == 0 then 1 else 0) + Absent(s.mem, root, i + 1, hi);
    assert Absent(s1.mem, root, i, hi) == Absent(s1.mem, root, i + 1, hi);
    if n > 1 {
      assert Hi(q + 1) == i || Hi(q + 1) == i + 1;
    } else {
      assert hi == i + 1;
    }
  }

  /** Every address of every space after a range was mapped. */
  lemma RangeTranslates(s: State, root: nat, q: nat, n: nat, f: Flags, r: nat, v2: nat, v1: nat, v0: nat)
    requires Walkable(s, root, 0) && q + n <= USER_PAGES && RangeNeed(s.mem, root, q, n) <= |s.free|
    requires IsRoot(s.role, r) && v2 < PTE_CNT && v1 < PTE_CNT && v0 < PTE_CNT
    ensures MapPages(s, root, q, n, f).Done?
    ensures var s' := MapPages(s, root, q, n, f).s;
      var was, t := FlagsOf(s.mem, root, v1, v0), Translate(s'.mem, r, v2, v1, v0);
      if r == root && v2 == 3 && InRange(q, n, v1, v0) then
        if Usable(was, f) then t.Mapped? && Granted(t.f, was, f) && RoleOf(s.role, t.page).Free? else t == Fault
      else t == Translate(s.mem, r, v2, v1, v0)
  {
    MapPagesNeed(s, root, q, n, f);
    MapPagesKeeps(s, root, q, n, f);
    var s' := MapPages(s, root, q, n, f).s;
    if v2 != 3 {
      KernelAddresses(s, s', root, r, v2, v1, v0);
    } else {
      assert IsRoot(s'.role, r);
      TranslateUser(s.mem, s.role, r, v1, v0);
      TranslateUser(s'.mem, s'.role, r, v1, v0);
      if r != root {
        OtherSpaces(s, s', root, r);
      }
      GrantedExactly(FlagsOf(s'.mem, root, v1, v0), FlagsOf(s.mem, root, v1, v0), f);
      hide MapPages, ViewOf, Translate, NewFlags, Granted, LeafFlags, Usable, Extends, Ready;
      assert Index(v1) && Index(v0);
      assert r == root ==> RangeView(s, s', root, q, n, f, v1, v0);
    }
  }
}
