/**
 Sv39 address translation (section 4.4 of the RISC-V Privileged Architecture manual, version
 20211203, with the walk of its section 4.3.2), and what the kernel's page tables keep.

 Physical memory is a map from page number to the page's 512 words. A word is given by the
 bit-fields struct pte names (src/kern/memory.c:58-65): every 64-bit value is exactly one of them.
 */
module Sv39 {

  const PTE_CNT := 512

  datatype Flags = Flags(v: bool, r: bool, w: bool, x: bool, u: bool, g: bool, a: bool, d: bool)

  /** flags:8, rsw:2, ppn:44, and the ten bits above (reserved:7, pbmt:2, n:1) as hi. */
  datatype Word = Word(f: Flags, rsw: nat, ppn: nat, hi: nat)

  const NO_FLAGS := Flags(false, false, false, false, false, false, false, false)
  const V_ONLY := NO_FLAGS.(v := true)
  const ZERO := Word(NO_FLAGS, 0, 0, 0)

  function Or(f: Flags, g: Flags): Flags {
    Flags(f.v || g.v, f.r || g.r, f.w || g.w, f.x || g.x, f.u || g.u, f.g || g.g, f.a || g.a, f.d || g.d)
  }

  type Mem = map<nat, seq<Word>>

  function Entry(mem: Mem, table: nat, i: nat): Word {
    if table in mem && i < |mem[table]| then mem[table][i] else ZERO
  }

  function SetWord(mem: Mem, p: nat, k: nat, w: Word): Mem
    requires p in mem && k < |mem[p]|
  {
    mem[p := mem[p][k := w]]
  }

  // ---------------------------------------------------------------- translation

  datatype Mapping = Fault | Mapped(page: nat, f: Flags)

  predicate IsLeaf(w: Word) { w.f.r || w.f.x }

  /** Step 3 of the walk: not valid, or a reserved encoding or bit. */
  predicate Faults(w: Word) { !w.f.v || (!w.f.r && w.f.w) || w.hi != 0 }

  /** A, D and U are reserved in a pointer to the next level. */
  predicate BadPointer(w: Word) { w.f.a || w.f.d || w.f.u }

  /** The last level: no pointers. */
  function Level0Step(e: Word): Mapping {
    if Faults(e) || !IsLeaf(e) then Fault else Mapped(e.ppn, e.f)
  }

  /** A megapage leaf must be aligned to its size. */
  function Level1Step(mem: Mem, e: Word, v0: nat): Mapping {
    if Faults(e) then Fault
    else if IsLeaf(e) then if e.ppn % PTE_CNT != 0 then Fault else Mapped(e.ppn + v0, e.f)
    else if BadPointer(e) then Fault
    else Level0Step(Entry(mem, e.ppn, v0))
  }

  /** And so must a gigapage leaf. */
  function Level2Step(mem: Mem, e: Word, v1: nat, v0: nat): Mapping {
    if Faults(e) then Fault
    else if IsLeaf(e) then
      if e.ppn % (PTE_CNT * PTE_CNT) != 0 then Fault else Mapped(e.ppn + v1 * PTE_CNT + v0, e.f)
    else if BadPointer(e) then Fault
    else Level1Step(mem, Entry(mem, e.ppn, v1), v0)
  }

  /** The physical page and permissions of the virtual page (v2, v1, v0). */
  function Translate(mem: Mem, root: nat, v2: nat, v1: nat, v0: nat): Mapping {
    Level2Step(mem, Entry(mem, root, v2), v1, v0)
  }

  // ---------------------------------------------------------------- page roles

  /** What each page of memory is in use for. */
  datatype Role =
    | Free
    | Kernel                            // image, heap, stacks
    | KernelTable                       // tables of the direct map, shared by all spaces
    | Root
    | Level1(root: nat)
    | Level0(root: nat, i: nat)
    | Data(root: nat, i: nat, j: nat)   // mapped at user page (3, i, j) of the space

  type Roles = map<nat, Role>

  function RoleOf(role: Roles, p: nat): Role { if p in role then role[p] else Kernel }

  /** A word a fresh table may hold without meaning anything; a free page's link word is one. */
  predicate Clean(w: Word) { w.f == NO_FLAGS && w.hi == 0 }

  ghost predicate PointerTo(role: Roles, w: Word, target: Role) {
    if w.f.v then w.f == V_ONLY && w.hi == 0 && RoleOf(role, w.ppn) == target else Clean(w)
  }

  ghost predicate LeafTo(role: Roles, w: Word, target: Role) {
    if w.f.v then w.hi == 0 && RoleOf(role, w.ppn) == target else Clean(w)
  }

  /** The direct map: shared tables, and leaves closed to user mode. */
  ghost predicate KernelWord(role: Roles, w: Word) {
    w.f.v ==> if IsLeaf(w) then !w.f.u else RoleOf(role, w.ppn) == KernelTable
  }

  ghost predicate WordOk(role: Roles, p: nat, k: nat, w: Word) {
    match RoleOf(role, p)
    case Root =>
      if k == 3 then PointerTo(role, w, Level1(p))
      else if k > 3 then !w.f.v
      else KernelWord(role, w)
    case KernelTable => KernelWord(role, w)
    case Level1(r) => PointerTo(role, w, Level0(r, k))
    case Level0(r, i) => LeafTo(role, w, Data(r, i, k))
    case _ => true
  }

  /** The tables form trees, disjoint from each other, from mapped pages and from free pages. */
  ghost predicate MemOk(mem: Mem, role: Roles) {
    && 0 !in mem
    && (forall p :: p in mem <==> p in role)
    && (forall p :: p in mem ==> |mem[p]| == PTE_CNT)
    && (forall p, k :: p in mem && 0 <= k < PTE_CNT ==> WordOk(role, p, k, mem[p][k]))
  }

  // ---------------------------------------------------------------- the user half of a space

  /** The level-1 table behind root index 3, or 0. */
  function L1Of(mem: Mem, r: nat): nat {
    if Entry(mem, r, 3).f.v then Entry(mem, r, 3).ppn else 0
  }

  function L0Of(mem: Mem, r: nat, i: nat): nat {
    if L1Of(mem, r) != 0 && Entry(mem, L1Of(mem, r), i).f.v then Entry(mem, L1Of(mem, r), i).ppn else 0
  }

  datatype View = Unmapped | Page(page: nat, f: Flags)

  /** What the tables say about user page (3, i, j). */
  function ViewOf(mem: Mem, r: nat, i: nat, j: nat): View {
    var p := L0Of(mem, r, i);
    if p != 0 && Entry(mem, p, j).f.v then Page(Entry(mem, p, j).ppn, Entry(mem, p, j).f) else Unmapped
  }

  lemma TablesAreTables(mem: Mem, role: Roles, r: nat, i: nat)
    requires MemOk(mem, role) && r in mem && role[r] == Root && i < PTE_CNT
    ensures L1Of(mem, r) != 0 ==> RoleOf(role, L1Of(mem, r)) == Level1(r) && L1Of(mem, r) in mem
    ensures L0Of(mem, r, i) != 0 ==> RoleOf(role, L0Of(mem, r, i)) == Level0(r, i) && L0Of(mem, r, i) in mem
    ensures Entry(mem, r, 3).f.v <==> L1Of(mem, r) != 0
    ensures L1Of(mem, r) != 0 ==> (Entry(mem, L1Of(mem, r), i).f.v <==> L0Of(mem, r, i) != 0)
  {
    assert WordOk(role, r, 3, mem[r][3]);
    var p1 := L1Of(mem, r);
    if p1 != 0 {
      assert p1 in mem;
      assert WordOk(role, p1, i, mem[p1][i]);
    }
  }

  lemma MappedIsData(mem: Mem, role: Roles, r: nat, i: nat, j: nat)
    requires MemOk(mem, role) && r in mem && role[r] == Root && i < PTE_CNT && j < PTE_CNT
    ensures var v := ViewOf(mem, r, i, j); v.Page? ==> v.page in mem && RoleOf(role, v.page) == Data(r, i, j)
    ensures var p := L0Of(mem, r, i); p != 0 ==> Entry(mem, p, j).hi == 0 && (Entry(mem, p, j).f.v || Clean(Entry(mem, p, j)))
  {
    TablesAreTables(mem, role, r, i);
    var p := L0Of(mem, r, i);
    if p != 0 {
      assert WordOk(role, p, j, mem[p][j]);
    }
  }

  /** A leaf encoding the architecture accepts. */
  predicate LeafFlags(f: Flags) { (f.r || f.x) && (f.r || !f.w) }

  /** For user pages the architecture's walk sees exactly the view, where the flags encode a leaf. */
  lemma TranslateUser(mem: Mem, role: Roles, r: nat, i: nat, j: nat)
    requires MemOk(mem, role) && r in mem && role[r] == Root && i < PTE_CNT && j < PTE_CNT
    ensures var v := ViewOf(mem, r, i, j);
      Translate(mem, r, 3, i, j) == if v.Page? && LeafFlags(v.f) then Mapped(v.page, v.f) else Fault
  {
    TablesAreTables(mem, role, r, i);
    MappedIsData(mem, role, r, i, j);
    assert WordOk(role, r, 3, mem[r][3]);
    var p1 := L1Of(mem, r);
    if p1 != 0 {
      assert WordOk(role, p1, i, mem[p1][i]);
    }
  }
}
