/**
 What a fork means to the programs on either side of it: the clone starts out with everything the
 parent's user mode could read, and from then on neither sees what the other stores.
 */
module Isolation {
  import opened Sv39
  import opened PageTables
  import opened PagePool
  import opened Spaces
  import opened MapRange
  import opened Fork

  /** Word k of virtual page (v2, v1, v0), as seen in the space of root. */
  datatype Address = Address(root: nat, v2: nat, v1: nat, v0: nat, k: nat)

  ghost predicate InSpace(role: Roles, a: Address) {
    IsRoot(role, a.root) && a.v2 < PTE_CNT && a.v1 < PTE_CNT && a.v0 < PTE_CNT && a.k < PTE_CNT
  }

  datatype Loaded = PageFault | Value(w: Word)

  /** A user-mode load. */
  function UserLoad(mem: Mem, a: Address): Loaded {
    var t := Translate(mem, a.root, a.v2, a.v1, a.v0);
    if t.Mapped? && t.f.u && t.f.r then Value(Entry(mem, t.page, a.k)) else PageFault
  }

  datatype StoreOp = StoreOp(at: Address, w: Word)

  /** A user-mode store; one that faults changes nothing. */
  function UserStore(mem: Mem, op: StoreOp): Mem {
    var t := Translate(mem, op.at.root, op.at.v2, op.at.v1, op.at.v0);
    if t.Mapped? && t.f.u && t.f.w && t.page in mem && op.at.k < |mem[t.page]| then SetWord(mem, t.page, op.at.k, op.w) else mem
  }

  function UserStores(mem: Mem, ops: seq<StoreOp>): Mem {
    if ops == [] then mem else UserStores(UserStore(mem, ops[0]), ops[1..])
  }

  // ---------------------------------------------------------------- one store

  lemma KernelClosed(mem: Mem, role: Roles, e: Word, v1: nat, v0: nat)
    requires MemOk(mem, role) && KernelWord(role, e) && v1 < PTE_CNT && v0 < PTE_CNT
    ensures var t := Level2Step(mem, e, v1, v0); t.Mapped? ==> !t.f.u
  {
    if RoleOf(role, e.ppn).KernelTable? {
      KernelEntry(mem, role, mem, e.ppn, v1);
      var e1 := Entry(mem, e.ppn, v1);
      if RoleOf(role, e1.ppn).KernelTable? {
        KernelEntry(mem, role, mem, e1.ppn, v0);
      }
    }
  }

  /** What user mode can reach through a space is its own mapped pages. */
  lemma UserReach(mem: Mem, role: Roles, a: Address)
    requires MemOk(mem, role) && InSpace(role, a)
    ensures var t := Translate(mem, a.root, a.v2, a.v1, a.v0);
      t.Mapped? && t.f.u ==> t.page in mem && RoleOf(role, t.page) == Data(a.root, a.v1, a.v0) && a.v2 == 3
  {
    if a.v2 == 3 {
      TranslateUser(mem, role, a.root, a.v1, a.v0);
      MappedIsData(mem, role, a.root, a.v1, a.v0);
    } else {
      assert WordOk(role, a.root, a.v2, mem[a.root][a.v2]);
      KernelClosed(mem, role, Entry(mem, a.root, a.v2), a.v1, a.v0);
    }
  }

  /** Memory in which at most pages mapped in spaces other than r have new contents. */
  ghost predicate OnlyOthers(mem: Mem, mem': Mem, role: Roles, r: nat) {
    && mem'.Keys == mem.Keys
    && forall p :: p in mem && !(RoleOf(role, p).Data? && RoleOf(role, p).root != r) ==> mem'[p] == mem[p]
  }

  lemma StoreKeeps(mem: Mem, role: Roles, op: StoreOp, r: nat)
    requires MemOk(mem, role) && InSpace(role, op.at) && op.at.root != r
    ensures MemOk(UserStore(mem, op), role) && OnlyOthers(mem, UserStore(mem, op), role, r)
  {
    UserReach(mem, role, op.at);
    var t := Translate(mem, op.at.root, op.at.v2, op.at.v1, op.at.v0);
    if UserStore(mem, op) != mem {
      SetKeeps(mem, role, t.page, op.at.k, op.w);
    }
  }

  lemma {:induction false} StoresKeep(mem: Mem, role: Roles, ops: seq<StoreOp>, r: nat)
    requires MemOk(mem, role) && forall op :: op in ops ==> InSpace(role, op.at) && op.at.root != r
    ensures MemOk(UserStores(mem, ops), role) && OnlyOthers(mem, UserStores(mem, ops), role, r)
    decreases |ops|
  {
    if ops != [] {
      StoreKeeps(mem, role, ops[0], r);
      hide MemOk;
      StoresKeep(UserStore(mem, ops[0]), role, ops[1..], r);
    }
  }

  lemma TranslateKept(mem: Mem, mem': Mem, role: Roles, a: Address)
    requires MemOk(mem, role) && MemOk(mem', role) && InSpace(role, a) && OnlyOthers(mem, mem', role, a.root)
    ensures Translate(mem', a.root, a.v2, a.v1, a.v0) == Translate(mem, a.root, a.v2, a.v1, a.v0)
  {
    assert a.root in mem && mem'[a.root] == mem[a.root];
    if a.v2 == 3 {
      SpaceFrame(mem, role, mem', a.root);
      assert Index(a.v1) && Index(a.v0);
      TranslateUser(mem, role, a.root, a.v1, a.v0);
      TranslateUser(mem', role, a.root, a.v1, a.v0);
    } else {
      assert WordOk(role, a.root, a.v2, mem[a.root][a.v2]);
      assert KernelTablesKept(mem, role, mem');
      KernelWalk(mem, role, mem', Entry(mem, a.root, a.v2), a.v1, a.v0);
    }
  }

  /** Whatever user mode stores through other spaces, loads through this one are the same. */
  lemma StoresInvisible(mem: Mem, role: Roles, ops: seq<StoreOp>, a: Address)
    requires MemOk(mem, role) && InSpace(role, a)
    requires forall op :: op in ops ==> InSpace(role, op.at) && op.at.root != a.root
    ensures UserLoad(UserStores(mem, ops), a) == UserLoad(mem, a)
  {
    StoresKeep(mem, role, ops, a.root);
    var mem' := UserStores(mem, ops);
    TranslateKept(mem, mem', role, a);
    UserReach(mem, role, a);
    hide MemOk;
    var t := Translate(mem, a.root, a.v2, a.v1, a.v0);
    if t.Mapped? && t.f.u {
      assert mem'[t.page] == mem[t.page];
    }
  }

  // ---------------------------------------------------------------- fork

  ghost predicate Cloned(s0: State, s: State, parent: nat, child: nat) {
    Source(s0, parent) && CloneInv(s0, s, parent, child, CLONED)
  }

  ghost predicate Vpns(v2: nat, v1: nat, v0: nat) { v2 < PTE_CNT && v1 < PTE_CNT && v0 < PTE_CNT }

  lemma OldTranslations(s0: State, s: State, a: Address)
    requires Valid(s0) && Valid(s) && Untouched(s0, s) && InSpace(s0.role, a)
    ensures Translate(s.mem, a.root, a.v2, a.v1, a.v0) == Translate(s0.mem, a.root, a.v2, a.v1, a.v0)
  {
    OldSpaces(s0, s, a.root);
    assert PageKept(s0, s, a.root);
    if a.v2 == 3 {
      assert Index(a.v1) && Index(a.v0);
      TranslateUser(s0.mem, s0.role, a.root, a.v1, a.v0);
      TranslateUser(s.mem, s.role, a.root, a.v1, a.v0);
    } else {
      assert WordOk(s0.role, a.root, a.v2, s0.mem[a.root][a.v2]);
      assert forall p :: p in s0.mem && RoleOf(s0.role, p).KernelTable? ==> PageKept(s0, s, p);
      KernelWalk(s0.mem, s0.role, s.mem, Entry(s0.mem, a.root, a.v2), a.v1, a.v0);
    }
  }

  /** In every space there was, translations and what user mode reads stay what they were. */
  lemma ParentKeeps(s0: State, s: State, parent: nat, child: nat, a: Address)
    requires Cloned(s0, s, parent, child) && InSpace(s0.role, a)
    ensures Translate(s.mem, a.root, a.v2, a.v1, a.v0) == Translate(s0.mem, a.root, a.v2, a.v1, a.v0)
    ensures UserLoad(s.mem, a) == UserLoad(s0.mem, a)
  {
    OldTranslations(s0, s, a);
    OldContents(s0, s, a);
  }

  lemma OldContents(s0: State, s: State, a: Address)
    requires Valid(s0) && Untouched(s0, s) && InSpace(s0.role, a)
    requires Translate(s.mem, a.root, a.v2, a.v1, a.v0) == Translate(s0.mem, a.root, a.v2, a.v1, a.v0)
    ensures UserLoad(s.mem, a) == UserLoad(s0.mem, a)
  {
    UserReach(s0.mem, s0.role, a);
    hide Translate, MemOk, FreeOk, SharedKernel, OwnersOk;
    var t := Translate(s0.mem, a.root, a.v2, a.v1, a.v0);
    if t.Mapped? && t.f.u {
      assert PageKept(s0, s, t.page);
    }
  }

  /** Outside the user range the child has the direct map of every space. */
  lemma ChildKernel(s0: State, s: State, parent: nat, child: nat, v2: nat, v1: nat, v0: nat)
    requires Cloned(s0, s, parent, child) && Vpns(v2, v1, v0) && v2 != 3
    ensures Translate(s.mem, child, v2, v1, v0) == Translate(s0.mem, parent, v2, v1, v0)
  {
    ParentKeeps(s0, s, parent, child, Address(parent, v2, v1, v0, 0));
    OldSpaces(s0, s, parent);
    ClonedValid(s0, s, parent, child);
    SameKernelWords(s, parent, child, v2);
  }

  lemma ClonedValid(s0: State, s: State, parent: nat, child: nat)
    requires Cloned(s0, s, parent, child)
    ensures Ready(s) && IsRoot(s.role, child) && RoleOf(s0.role, child).Free?
  {
  }

  lemma SameKernelWords(s: State, r: nat, r': nat, v2: nat)
    requires Valid(s) && IsRoot(s.role, r) && IsRoot(s.role, r') && v2 < PTE_CNT && v2 != 3
    ensures v2 < 3 ==> Entry(s.mem, r, v2) == Entry(s.mem, r', v2)
    ensures v2 > 3 ==> !Entry(s.mem, r, v2).f.v && !Entry(s.mem, r', v2).f.v
  {
    if v2 < 3 {
      assert Entry(s.mem, r, v2) == Entry(s.mem, s.mainRoot, v2) == Entry(s.mem, r', v2);
    } else {
      assert WordOk(s.role, r, v2, s.mem[r][v2]) && WordOk(s.role, r', v2, s.mem[r'][v2]);
    }
  }

  const USER_TABLES := 128   // level-0 tables of the user range

  /** A user page translates in the clone exactly when user mode had it in the parent, to a private copy. */
  lemma ChildUser(s0: State, s: State, parent: nat, child: nat, i: nat, j: nat)
    requires Cloned(s0, s, parent, child) && Index(i) && Index(j)
    ensures var t, t' := Translate(s0.mem, parent, 3, i, j), Translate(s.mem, child, 3, i, j);
      && (t'.Mapped? <==> t.Mapped? && t.f.u && i < USER_TABLES)
      && (t'.Mapped? ==> && t'.f == t.f && RoleOf(s0.role, t'.page).Free?
                         && t.page in s0.mem && t'.page in s.mem && s.mem[t'.page] == s0.mem[t.page])
  {
    ClonedValid(s0, s, parent, child);
    TranslateUser(s0.mem, s0.role, parent, i, j);
    TranslateUser(s.mem, s.role, child, i, j);
    hide Ready, Untouched, TablesMatch, ViewOf, Translate;
    var k := 512 * i + j;
    assert Hi(k) == i && Lo(k) == j && k < USER_PAGES;
    if k < CLONED {
      assert CopyOf(s0, s, parent, child, k);
    } else {
      assert ViewOf(s.mem, child, Hi(k), Lo(k)) == Unmapped;
    }
  }

  /** Distinct user pages of the clone are distinct physical pages, none in use before. */
  lemma PrivatePages(s0: State, s: State, parent: nat, child: nat, i: nat, j: nat, i': nat, j': nat)
    requires Cloned(s0, s, parent, child) && Index(i) && Index(j) && Index(i') && Index(j')
    requires var t, t' := Translate(s.mem, child, 3, i, j), Translate(s.mem, child, 3, i', j');
      t.Mapped? && t'.Mapped? && t.page == t'.page
    ensures i == i' && j == j'
    ensures var t := Translate(s.mem, child, 3, i, j); RoleOf(s0.role, t.page).Free? && t.page in s0.free
  {
    ChildUser(s0, s, parent, child, i, j);
    ClonedValid(s0, s, parent, child);
    TranslateUser(s.mem, s.role, child, i, j);
    TranslateUser(s.mem, s.role, child, i', j');
    MappedIsData(s.mem, s.role, child, i, j);
    MappedIsData(s.mem, s.role, child, i', j');
  }

  /** The clone's user mode reads what the parent's did at the fork, whatever others store meanwhile. */
  lemma ForkIsolatesChild(s0: State, s: State, parent: nat, child: nat, ops: seq<StoreOp>, a: Address)
    requires Cloned(s0, s, parent, child) && InSpace(s.role, a) && a.root == child
    requires forall op :: op in ops ==> InSpace(s.role, op.at) && op.at.root != child
    ensures UserLoad(UserStores(s.mem, ops), a) ==
      if a.v2 == 3 && a.v1 < USER_TABLES then UserLoad(s0.mem, a.(root := parent)) else PageFault
  {
    hide Translate, Cloned, UserStores, UserLoad, MemOk, FreeOk, FreeClean, SharedKernel, OwnersOk;
    ClonedValid(s0, s, parent, child);
    StoresInvisible(s.mem, s.role, ops, a);
    ChildReads(s0, s, parent, child, a);
  }

  /** What the clone's user mode reads right after the fork. */
  lemma ChildReads(s0: State, s: State, parent: nat, child: nat, a: Address)
    requires Cloned(s0, s, parent, child) && InSpace(s.role, a) && a.root == child
    ensures UserLoad(s.mem, a) == if a.v2 == 3 && a.v1 < USER_TABLES then UserLoad(s0.mem, a.(root := parent)) else PageFault
  {
    hide Translate, Cloned, MemOk, FreeOk, FreeClean, SharedKernel, OwnersOk;
    ClonedValid(s0, s, parent, child);
    UserReach(s.mem, s.role, a);
    hide Ready;
    if a.v2 == 3 {
      assert Index(a.v1) && Index(a.v0);
      ChildUser(s0, s, parent, child, a.v1, a.v0);
    }
  }

  /** And the parent's user mode never sees what is stored through the clone. */
  lemma ForkIsolatesParent(s0: State, s: State, parent: nat, child: nat, ops: seq<StoreOp>, a: Address)
    requires Cloned(s0, s, parent, child) && InSpace(s0.role, a) && a.root == parent
    requires forall op :: op in ops ==> InSpace(s.role, op.at) && op.at.root != parent
    ensures UserLoad(UserStores(s.mem, ops), a) == UserLoad(s0.mem, a)
  {
    ClonedValid(s0, s, parent, child);
    OldSpaces(s0, s, parent);
    StoresInvisible(s.mem, s.role, ops, a);
    ParentKeeps(s0, s, parent, child, a);
  }
}
