/**
 The memory manager's state as a value: page contents, page uses, and the list of free pages
 threaded through the first word of each (src/kern/memory.c:53-56, 112), with what every
 operation keeps of it.
 */
module PagePool {
  import opened Sv39
  import opened PageTables
  import C = Chains

  const MAX_PAGE := 0x400_0000_0000   // physical page numbers fit the ppn of a link word

  /** A page address read as a table word: page aligned, so no flag is set. */
  function LinkWord(p: nat): Word { Word(NO_FLAGS, 0, 4 * p, 0) }

  function LinkTarget(w: Word): nat { w.hi * MAX_PAGE + w.ppn / 4 }

  datatype State = State(mem: Mem, role: Roles, freeList: nat, free: seq<nat>, mainRoot: nat, mainPt1: nat)

  /** free_list visits exactly the free pages, once each. */
  ghost predicate FreeOk(mem: Mem, role: Roles, freeList: nat, free: seq<nat>) {
    && C.Distinct(free)
    && freeList == C.At(free, 0)
    && (forall i :: 0 <= i < |free| ==> Entry(mem, free[i], 0) == LinkWord(C.At(free, i + 1)))
    && (forall p :: p in free <==> RoleOf(role, p).Free?)
  }

  /**
   Free pages hold no word with a flag set or with its top bits set, as in the boot list over zeroed
   RAM. An invalid word with other flags would not do: mapping a page adds flags to those there.
   */
  ghost predicate FreeClean(mem: Mem, role: Roles) {
    forall p :: RoleOf(role, p).Free? ==> PageClean(mem, p)
  }

  const KERNEL_WORDS := 3

  /** Word 0 of the direct map is a gigapage, as memory_init makes it. */
  predicate Gigapage0(mem: Mem, mainRoot: nat) {
    var e := Entry(mem, mainRoot, 0);
    !Faults(e) && IsLeaf(e) && e.ppn % (PTE_CNT * PTE_CNT) == 0
  }

  /** Every space has the main space's direct map. */
  ghost predicate SharedKernel(mem: Mem, role: Roles, mainRoot: nat, mainPt1: nat) {
    && IsRoot(role, mainRoot) && RoleOf(role, mainPt1) == KernelTable
    && Entry(mem, mainRoot, 2) == PtabPte(mainPt1) && Gigapage0(mem, mainRoot)
    && forall r, k :: IsRoot(role, r) && 0 <= k < KERNEL_WORDS ==> Entry(mem, r, k) == Entry(mem, mainRoot, k)
  }

  function PtabPte(p: nat): Word { Word(V_ONLY.(g := true), 0, p, 0) }

  /** Tables and mapped pages belong to spaces that exist. */
  ghost predicate OwnersOk(role: Roles) {
    forall p :: OwnerOk(role, RoleOf(role, p))
  }

  ghost predicate OwnerOk(role: Roles, use: Role) {
    use.Level1? || use.Level0? || use.Data? ==> IsRoot(role, use.root)
  }

  /** Putting a page to use that was not a root. */
  lemma OwnersKept(role: Roles, p: nat, use: Role)
    requires OwnersOk(role) && !IsRoot(role, p) && OwnerOk(role, use)
    ensures OwnersOk(role[p := use])
  {
    var role' := role[p := use];
    forall q ensures OwnerOk(role', RoleOf(role', q)) {
      assert OwnerOk(role, RoleOf(role, q));
    }
  }

  ghost predicate Fits(mem: Mem) { forall p :: p in mem ==> p < MAX_PAGE }

  ghost predicate Valid(s: State) {
    && Fits(s.mem)
    && MemOk(s.mem, s.role)
    && FreeOk(s.mem, s.role, s.freeList, s.free)
    && SharedKernel(s.mem, s.role, s.mainRoot, s.mainPt1)
    && OwnersOk(s.role)
  }

  ghost predicate Ready(s: State) { Valid(s) && FreeClean(s.mem, s.role) }

  // ---------------------------------------------------------------- single steps

  function Take(s: State, use: Role): State
    requires s.free != []
  {
    s.(role := s.role[s.free[0] := use], freeList := C.At(s.free, 1), free := s.free[1..])
  }

  function Put(s: State, p: nat, k: nat, w: Word): State
    requires p in s.mem && k < |s.mem[p]|
  {
    s.(mem := SetWord(s.mem, p, k, w))
  }

  function Give(s: State, p: nat): State
    requires p in s.mem && 0 < |s.mem[p]|
  {
    s.(mem := SetWord(s.mem, p, 0, LinkWord(s.freeList)), role := s.role[p := Free], freeList := p, free := [p] + s.free)
  }

  lemma TakeKeeps(s: State, use: Role)
    requires Valid(s) && s.free != []
    requires OwnerOk(s.role, use)
    requires use.Kernel? || use.Data? || ((use.Level1? || use.Level0?) && FreeClean(s.mem, s.role))
    ensures Valid(Take(s, use))
    ensures FreeClean(s.mem, s.role) ==> FreeClean(s.mem, Take(s, use).role)
    ensures s.free[0] in s.mem && RoleOf(s.role, s.free[0]).Free? && s.free[0] != 0
    ensures LinkTarget(Entry(s.mem, s.free[0], 0)) == C.At(s.free, 1)
  {
    var p := s.free[0];
    assert p in s.free;
    assert RoleOf(s.role, p).Free?;
    assert Fits(s.mem);
    forall k | 0 <= k < PTE_CNT ensures WordOk(s.role[p := use], p, k, s.mem[p][k]) {
      if use.Level1? || use.Level0? {
        CleanFits(s.mem, s.role, p, use);
      }
    }
    RetypeKeeps(s.mem, s.role, p, use);
    TakeFree(s, use);
    OwnersKept(s.role, p, use);
    hide OwnersOk, OwnerOk, MemOk, FreeOk;
    assert IsRoot(s.role, s.mainRoot);
  }

  lemma TakeFree(s: State, use: Role)
    requires FreeOk(s.mem, s.role, s.freeList, s.free) && s.free != [] && !use.Free? && s.free[0] in s.role
    ensures var s' := Take(s, use); FreeOk(s'.mem, s'.role, s'.freeList, s'.free)
  {
    var s' := Take(s, use);
    forall i | 0 <= i < |s'.free| ensures Entry(s'.mem, s'.free[i], 0) == LinkWord(C.At(s'.free, i + 1)) {
      assert s'.free[i] == s.free[i + 1] && C.At(s'.free, i + 1) == C.At(s.free, i + 2);
    }
    forall q ensures q in s'.free <==> RoleOf(s'.role, q).Free? {
      assert q in s.free <==> RoleOf(s.role, q).Free?;
      assert s.free == [s.free[0]] + s'.free;
    }
  }

  /** A freed page keeps its old contents but for the link. */
  ghost predicate RestClean(mem: Mem, p: nat) {
    forall k :: Index(k) && k > 0 ==> Clean(Entry(mem, p, k))
  }

  lemma GiveKeeps(s: State, p: nat)
    requires Valid(s) && p in s.mem && RoleOf(s.role, p).Kernel?
    ensures Valid(Give(s, p))
    ensures FreeClean(s.mem, s.role) ==> (FreeClean(Give(s, p).mem, Give(s, p).role) <==> RestClean(s.mem, p))
  {
    GiveMem(s, p);
    GiveFree(s, p);
    GiveShared(s, p);
    OwnersKept(s.role, p, Free);
    if FreeClean(s.mem, s.role) {
      GiveClean(s, p);
    }
    hide MemOk, FreeOk, FreeClean, RestClean, SharedKernel, OwnersOk;
    assert Fits(s.mem);
  }

  lemma GiveMem(s: State, p: nat)
    requires MemOk(s.mem, s.role) && p in s.mem && RoleOf(s.role, p).Kernel?
    ensures MemOk(Give(s, p).mem, Give(s, p).role)
  {
    var s' := Give(s, p);
    SetKeeps(s.mem, s.role, p, 0, LinkWord(s.freeList));
    forall k | 0 <= k < PTE_CNT ensures WordOk(s'.role, p, k, s'.mem[p][k]) {}
    hide WordOk;
    RetypeKeeps(s'.mem, s.role, p, Free);
  }

  lemma GiveShared(s: State, p: nat)
    requires SharedKernel(s.mem, s.role, s.mainRoot, s.mainPt1) && p in s.mem && 0 < |s.mem[p]| && RoleOf(s.role, p).Kernel?
    ensures var s' := Give(s, p); SharedKernel(s'.mem, s'.role, s'.mainRoot, s'.mainPt1)
  {
    var s' := Give(s, p);
    forall r, k | IsRoot(s'.role, r) && 0 <= k < KERNEL_WORDS ensures Entry(s'.mem, r, k) == Entry(s'.mem, s.mainRoot, k) {
      assert IsRoot(s.role, r);
      assert Entry(s.mem, r, k) == Entry(s.mem, s.mainRoot, k);
    }
  }

  lemma GiveClean(s: State, p: nat)
    requires MemOk(s.mem, s.role) && FreeClean(s.mem, s.role) && p in s.mem && RoleOf(s.role, p).Kernel?
    ensures FreeClean(Give(s, p).mem, Give(s, p).role) <==> RestClean(s.mem, p)
  {
    var s' := Give(s, p);
    assert forall k :: Index(k) && k > 0 ==> Entry(s'.mem, p, k) == Entry(s.mem, p, k);
    assert Clean(Entry(s'.mem, p, 0));
    assert RoleOf(s'.role, p).Free?;
    assert PageClean(s'.mem, p) <==> RestClean(s.mem, p);
    forall q | RoleOf(s.role, q).Free? ensures PageClean(s'.mem, q) && RoleOf(s'.role, q).Free? {
      assert PageClean(s.mem, q);
      assert forall k :: Entry(s'.mem, q, k) == Entry(s.mem, q, k);
    }
  }

  lemma GiveFree(s: State, p: nat)
    requires MemOk(s.mem, s.role) && FreeOk(s.mem, s.role, s.freeList, s.free) && p in s.mem && RoleOf(s.role, p).Kernel?
    ensures var s' := Give(s, p); FreeOk(s'.mem, s'.role, s'.freeList, s'.free)
  {
  }
}
