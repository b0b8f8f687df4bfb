/**
 What single writes to page memory keep: changing one table word, giving a page a new use, and
 the three writes that grow the user half of a space. Every lemma says which user pages look
 different afterwards.
 */
module PageTables {
  import opened Sv39

  predicate Index(k: nat) { k < PTE_CNT }

  ghost predicate IsRoot(role: Roles, r: nat) { RoleOf(role, r) == Root }

  ghost predicate PageClean(mem: Mem, p: nat) {
    forall k :: Index(k) ==> Clean(Entry(mem, p, k))
  }

  // ---------------------------------------------------------------- the invariant

  lemma SetKeeps(mem: Mem, role: Roles, p: nat, k: nat, w: Word)
    requires MemOk(mem, role) && p in mem && k < PTE_CNT && WordOk(role, p, k, w)
    ensures MemOk(SetWord(mem, p, k, w), role)
  {
    hide WordOk;
  }

  /** Pages that are not tables may hold anything. */
  lemma FillKeeps(mem: Mem, role: Roles, p: nat, words: seq<Word>)
    requires MemOk(mem, role) && p in mem && |words| == PTE_CNT
    requires role[p].Free? || role[p].Kernel? || role[p].Data?
    ensures MemOk(mem[p := words], role)
  {
    forall k | 0 <= k < PTE_CNT ensures WordOk(role, p, k, words[k]) {}
    hide WordOk;
  }

  /** A page no table refers to may be put to another use once its words fit that use. */
  lemma RetypeKeeps(mem: Mem, role: Roles, p: nat, use: Role)
    requires MemOk(mem, role) && p in mem && (role[p].Free? || role[p].Kernel?)
    requires forall k :: 0 <= k < PTE_CNT ==> WordOk(role[p := use], p, k, mem[p][k])
    ensures MemOk(mem, role[p := use])
  {
    var role' := role[p := use];
    forall q, k | q in mem && 0 <= k < PTE_CNT ensures WordOk(role', q, k, mem[q][k]) {
      if q != p {
        RetypeWord(role, p, use, q, k, mem[q][k]);
      }
    }
    hide WordOk;
  }

  lemma RetypeWord(role: Roles, p: nat, use: Role, q: nat, k: nat, w: Word)
    requires p in role && (role[p].Free? || role[p].Kernel?) && q != p && q in role && WordOk(role, q, k, w)
    ensures WordOk(role[p := use], q, k, w)
  {
  }

  lemma CleanFits(mem: Mem, role: Roles, p: nat, use: Role)
    requires MemOk(mem, role) && p in mem && PageClean(mem, p)
    ensures forall k :: 0 <= k < PTE_CNT ==> WordOk(role[p := use], p, k, mem[p][k])
  {
    forall k | 0 <= k < PTE_CNT ensures WordOk(role[p := use], p, k, mem[p][k]) {
      assert Index(k) && Clean(Entry(mem, p, k));
    }
  }

  // ---------------------------------------------------------------- frames

  predicate TableOf(role: Roles, p: nat, r: nat) {
    var use := RoleOf(role, p);
    p == r || use == Level1(r) || (use.Level0? && use.root == r)
  }

  ghost predicate SameSpace(mem: Mem, mem': Mem, r: nat) {
    && L1Of(mem', r) == L1Of(mem, r)
    && (forall i :: Index(i) ==> L0Of(mem', r, i) == L0Of(mem, r, i))
    && (forall i, j :: Index(i) && Index(j) ==> ViewOf(mem', r, i, j) == ViewOf(mem, r, i, j))
  }

  /** A space looks the same as long as its own tables do. */
  lemma SpaceFrame(mem: Mem, role: Roles, mem': Mem, r: nat)
    requires MemOk(mem, role) && IsRoot(role, r)
    requires forall p :: p in mem && TableOf(role, p, r) ==> p in mem' && mem'[p] == mem[p]
    ensures SameSpace(mem, mem', r)
  {
    assert r in mem && TableOf(role, r, r);
    TablesAreTables(mem, role, r, 0);
    forall i | Index(i)
      ensures L0Of(mem', r, i) == L0Of(mem, r, i)
      ensures forall j :: Index(j) ==> ViewOf(mem', r, i, j) == ViewOf(mem, r, i, j)
    {
      SpaceFrameAt(mem, role, mem', r, i);
    }
  }

  lemma SpaceFrameAt(mem: Mem, role: Roles, mem': Mem, r: nat, i: nat)
    requires MemOk(mem, role) && IsRoot(role, r) && Index(i)
    requires forall p :: p in mem && TableOf(role, p, r) ==> p in mem' && mem'[p] == mem[p]
    ensures L1Of(mem', r) == L1Of(mem, r) && L0Of(mem', r, i) == L0Of(mem, r, i)
    ensures forall j :: Index(j) ==> ViewOf(mem', r, i, j) == ViewOf(mem, r, i, j)
  {
    assert r in mem && TableOf(role, r, r);
    TablesAreTables(mem, role, r, i);
    hide MemOk;
    var p1, p0 := L1Of(mem, r), L0Of(mem, r, i);
    assert p1 != 0 ==> TableOf(role, p1, r);
    assert p0 != 0 ==> TableOf(role, p0, r);
  }

  // ---------------------------------------------------------------- growing a space

  function PointerWord(w: Word, p: nat): Word { w.(f := V_ONLY, ppn := p) }

  /** Root word 3 is pointed at a clean level-1 table. */
  lemma LinkL1(mem: Mem, role: Roles, r: nat, p: nat)
    requires MemOk(mem, role) && IsRoot(role, r) && L1Of(mem, r) == 0
    requires RoleOf(role, p) == Level1(r) && PageClean(mem, p)
    ensures r in mem && |mem[r]| == PTE_CNT
    ensures var mem' := SetWord(mem, r, 3, PointerWord(mem[r][3], p));
      && MemOk(mem', role)
      && L1Of(mem', r) == p
      && (forall i :: Index(i) ==> L0Of(mem', r, i) == L0Of(mem, r, i))
      && (forall i, j :: Index(i) && Index(j) ==> ViewOf(mem', r, i, j) == ViewOf(mem, r, i, j))
  {
    TablesAreTables(mem, role, r, 0);
    assert WordOk(role, r, 3, mem[r][3]);
    var w := PointerWord(mem[r][3], p);
    assert WordOk(role, r, 3, w);
    SetKeeps(mem, role, r, 3, w);
    var mem' := SetWord(mem, r, 3, w);
    assert Entry(mem', r, 3) == w && p in mem && p != 0;
    assert L1Of(mem', r) == p;
    forall i | Index(i) ensures L0Of(mem', r, i) == 0 {
      assert Entry(mem', p, i) == Entry(mem, p, i);
      assert Clean(Entry(mem, p, i));
    }
  }

  /** A word of the level-1 table is pointed at a clean level-0 table. */
  lemma LinkL0(mem: Mem, role: Roles, r: nat, i: nat, p: nat)
    requires MemOk(mem, role) && IsRoot(role, r) && Index(i) && L1Of(mem, r) != 0 && L0Of(mem, r, i) == 0
    requires RoleOf(role, p) == Level0(r, i) && PageClean(mem, p)
    ensures var p1 := L1Of(mem, r); p1 in mem && |mem[p1]| == PTE_CNT
    ensures var p1 := L1Of(mem, r);
      var mem' := SetWord(mem, p1, i, PointerWord(mem[p1][i], p));
      && MemOk(mem', role)
      && L1Of(mem', r) == p1 && L0Of(mem', r, i) == p
      && (forall i' :: Index(i') && i' != i ==> L0Of(mem', r, i') == L0Of(mem, r, i'))
      && (forall i', j :: Index(i') && Index(j) ==> ViewOf(mem', r, i', j) == ViewOf(mem, r, i', j))
  {
    TablesAreTables(mem, role, r, i);
    var p1 := L1Of(mem, r);
    assert WordOk(role, p1, i, mem[p1][i]);
    var w := PointerWord(mem[p1][i], p);
    assert WordOk(role, p1, i, w);
    SetKeeps(mem, role, p1, i, w);
    var mem' := SetWord(mem, p1, i, w);
    assert p in mem && p != 0 && p != p1 && r != p1 && r in mem;
    assert L1Of(mem', r) == p1;
    assert L0Of(mem', r, i) == p;
    forall i', j | Index(i') && Index(j)
      ensures i' != i ==> L0Of(mem', r, i') == L0Of(mem, r, i')
      ensures ViewOf(mem', r, i', j) == ViewOf(mem, r, i', j)
    {
      TablesAreTables(mem, role, r, i');
      assert i' != i ==> Entry(mem', p1, i') == Entry(mem, p1, i');
      assert Clean(Entry(mem, p, j));
    }
  }

  /** Tables are not cleared when taken, so no page appears from nowhere exactly when the new one holds no valid word. */
  lemma DirtyTable(mem: Mem, role: Roles, r: nat, i: nat, p: nat)
    requires MemOk(mem, role) && IsRoot(role, r) && Index(i) && L1Of(mem, r) != 0 && L0Of(mem, r, i) == 0
    requires p in mem && RoleOf(role, p).Free?
    ensures var p1 := L1Of(mem, r); p1 in mem && |mem[p1]| == PTE_CNT
    ensures var p1 := L1Of(mem, r);
      var mem' := SetWord(mem, p1, i, PointerWord(mem[p1][i], p));
      (forall j :: Index(j) ==> ViewOf(mem', r, i, j) == ViewOf(mem, r, i, j)) <==> (forall j :: Index(j) ==> !Entry(mem, p, j).f.v)
  {
    TablesAreTables(mem, role, r, i);
    var p1 := L1Of(mem, r);
    var mem' := SetWord(mem, p1, i, PointerWord(mem[p1][i], p));
    assert r in mem && p1 != r && p1 != p && p != 0;
    assert L1Of(mem', r) == p1;
    assert L0Of(mem', r, i) == p;
    forall j | Index(j) ensures ViewOf(mem', r, i, j) == ViewOf(mem, r, i, j) <==> !Entry(mem, p, j).f.v {
      assert Entry(mem', p, j) == Entry(mem, p, j);
    }
  }

  /** An uncleared level-1 table is harmless exactly when none of its words leads to a page. */
  lemma DirtyLevel1(mem: Mem, role: Roles, r: nat, p: nat)
    requires MemOk(mem, role) && IsRoot(role, r) && L1Of(mem, r) == 0 && p in mem && RoleOf(role, p).Free?
    ensures r in mem && |mem[r]| == PTE_CNT
    ensures forall i, j :: Index(i) && Index(j) ==> Translate(mem, r, 3, i, j) == Fault
    ensures var mem' := SetWord(mem, r, 3, PointerWord(mem[r][3], p));
      (forall i, j :: Index(i) && Index(j) ==> Translate(mem', r, 3, i, j) == Fault) <==>
      (forall i, j :: Index(i) && Index(j) ==> Level1Step(mem, Entry(mem, p, i), j) == Fault)
  {
    TablesAreTables(mem, role, r, 0);
    assert WordOk(role, r, 3, mem[r][3]);
    var mem' := SetWord(mem, r, 3, PointerWord(mem[r][3], p));
    forall i, j | Index(i) && Index(j) ensures Translate(mem', r, 3, i, j) == Level1Step(mem, Entry(mem, p, i), j) {
      assert Entry(mem', r, 3) == PointerWord(mem[r][3], p) && Entry(mem', p, i) == Entry(mem, p, i);
      var e := Entry(mem, p, i);
      assert Entry(mem', e.ppn, j) == Entry(mem, e.ppn, j) || (e.ppn == r && j == 3);
    }
    hide Translate, Level1Step, MemOk;
  }

  /** A word of the level-0 table is pointed at a page: that user page changes and no other. */
  lemma SetLeaf(mem: Mem, role: Roles, r: nat, i: nat, j: nat, w: Word)
    requires MemOk(mem, role) && IsRoot(role, r) && Index(i) && Index(j) && L0Of(mem, r, i) != 0
    requires w.f.v && w.hi == 0 && RoleOf(role, w.ppn) == Data(r, i, j)
    ensures var p0 := L0Of(mem, r, i); p0 in mem && |mem[p0]| == PTE_CNT
    ensures var p0 := L0Of(mem, r, i);
      var mem' := SetWord(mem, p0, j, w);
      && MemOk(mem', role)
      && L1Of(mem', r) == L1Of(mem, r)
      && (forall i' :: Index(i') ==> L0Of(mem', r, i') == L0Of(mem, r, i'))
      && ViewOf(mem', r, i, j) == Page(w.ppn, w.f)
      && (forall i', j' :: Index(i') && Index(j') && (i' != i || j' != j) ==> ViewOf(mem', r, i', j') == ViewOf(mem, r, i', j'))
  {
    TablesAreTables(mem, role, r, i);
    var p1, p0 := L1Of(mem, r), L0Of(mem, r, i);
    assert WordOk(role, p0, j, w);
    SetKeeps(mem, role, p0, j, w);
    var mem' := SetWord(mem, p0, j, w);
    assert L1Of(mem', r) == p1;
    forall i', j' | Index(i') && Index(j')
      ensures L0Of(mem', r, i') == L0Of(mem, r, i')
      ensures i' != i || j' != j ==> ViewOf(mem', r, i', j') == ViewOf(mem, r, i', j')
    {
      TablesAreTables(mem, role, r, i');
      assert Entry(mem', p1, i') == Entry(mem, p1, i');
    }
  }
}
