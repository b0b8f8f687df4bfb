/**
 Address spaces in whole runs: user stores, page mapping, flag changes, clones and kernel page
 allocation in any spaces and any order (src/kern/memory.c:327-547). What a space reads changes only
 by what is done to that very space.
 */
module SpaceRuns {
  import opened Sv39
  import opened PageTables
  import opened PagePool
  import opened Spaces
  import opened MapRange
  import opened Fork
  import opened Isolation

  datatype SpaceOp =
    | UserWrite(op: StoreOp)
    | Map(root: nat, i: nat, j: nat, f: Flags)        // memory_alloc_and_map_page
    | SetFlags(root: nat, i: nat, j: nat, f: Flags)   // memory_set_page_flags, where it keeps the tables in order
    | Clone(parent: nat, child: nat)                  // memory_space_clone
    | KernelTake                                      // memory_alloc_page for the kernel
    | KernelGive(page: nat)                           // memory_free_page of a clean page

  /** memory_set_page_flags where there is a table. */
  function WithFlags(s: State, root: nat, i: nat, j: nat, f: Flags): State
    requires L0Of(s.mem, root, i) in s.mem && j < |s.mem[L0Of(s.mem, root, i)]|
  {
    var p0 := L0Of(s.mem, root, i);
    Put(s, p0, j, s.mem[p0][j].(f := NewFlags(NO_FLAGS, f)))
  }

  /** What one operation does to a ready state. */
  ghost predicate SpaceStep(s: State, a: SpaceOp, s': State) {
    match a
    case UserWrite(op) => InSpace(s.role, op.at) && s' == s.(mem := UserStore(s.mem, op))
    case Map(root, i, j, f) => Mappable(s, root, i, j) && s' == MapPage(s, root, i, j, f)
    case SetFlags(root, i, j, f) =>
      && IsRoot(s.role, root) && Index(i) && Index(j) && L0Of(s.mem, root, i) != 0 && Meant(s, root, i, j)
      && L0Of(s.mem, root, i) in s.mem && j < |s.mem[L0Of(s.mem, root, i)]| && s' == WithFlags(s, root, i, j, f)
    case Clone(parent, child) => Cloned(s, s', parent, child)
    case KernelTake => s.free != [] && s' == Take(s, Kernel)
    case KernelGive(page) => page in s.mem && 0 < |s.mem[page]| && RoleOf(s.role, page).Kernel? && RestClean(s.mem, page) && s' == Give(s, page)
  }

  /** The space an operation acts on. */
  predicate ActsOn(a: SpaceOp, r: nat) {
    match a
    case UserWrite(op) => op.at.root == r
    case Map(root, _, _, _) => root == r
    case SetFlags(root, _, _, _) => root == r
    case _ => false
  }

  // ---------------------------------------------------------------- every operation keeps the state ready

  lemma StoreReady(s: State, op: StoreOp)
    requires Ready(s) && InSpace(s.role, op.at)
    ensures Ready(s.(mem := UserStore(s.mem, op)))
  {
    var mem' := UserStore(s.mem, op);
    var t := Translate(s.mem, op.at.root, op.at.v2, op.at.v1, op.at.v0);
    if mem' != s.mem {
      UserReach(s.mem, s.role, op.at);
      hide Translate, MemOk, FreeOk, FreeClean, SharedKernel, OwnersOk;
      DataWordOk(s.role, t.page, op.at.k, op.w);
      PutKeeps(s, t.page, op.at.k, op.w);
    }
  }

  lemma DataWordOk(role: Roles, p: nat, k: nat, w: Word)
    requires RoleOf(role, p).Data?
    ensures WordOk(role, p, k, w)
  {
  }

  lemma FlagsReady(s: State, root: nat, i: nat, j: nat, f: Flags)
    requires Ready(s) && IsRoot(s.role, root) && Index(i) && Index(j) && L0Of(s.mem, root, i) != 0 && Meant(s, root, i, j)
    ensures L0Of(s.mem, root, i) in s.mem && j < |s.mem[L0Of(s.mem, root, i)]|
    ensures var s' := WithFlags(s, root, i, j, f); Ready(s') && Extends(s, s', root)
  {
    MappedIsData(s.mem, s.role, root, i, j);
    TablesAreTables(s.mem, s.role, root, i);
    var p0 := L0Of(s.mem, root, i);
    assert s.mem[p0][j] == Entry(s.mem, p0, j);
    LeafOnly(s, root, i, j, s.mem[p0][j].(f := NewFlags(NO_FLAGS, f)));
  }

  lemma StepReady(s: State, a: SpaceOp, s': State)
    requires Ready(s) && SpaceStep(s, a, s')
    ensures Ready(s')
  {
    match a
    case UserWrite(op) => hide Ready, UserStore; StoreReady(s, op);
    case Map(root, i, j, f) => hide MapPage, Missing; MapPageKeeps(s, root, i, j, f);
    case SetFlags(root, i, j, f) => hide Ready, WithFlags; FlagsReady(s, root, i, j, f);
    case Clone(parent, child) => hide Ready, Cloned; ClonedValid(s, s', parent, child);
    case KernelTake => hide MemOk, FreeOk, SharedKernel, OwnersOk; TakeKeeps(s, Kernel);
    case KernelGive(page) => hide MemOk, FreeOk, SharedKernel, OwnersOk; GiveKeeps(s, page);
  }

  // ---------------------------------------------------------------- what other spaces notice: nothing

  /** The space at this address translates and reads as before. */
  ghost predicate SameAt(s: State, s': State, a: Address) {
    && InSpace(s'.role, a)
    && Translate(s'.mem, a.root, a.v2, a.v1, a.v0) == Translate(s.mem, a.root, a.v2, a.v1, a.v0)
    && UserLoad(s'.mem, a) == UserLoad(s.mem, a)
  }

  lemma ExtendsUnnoticed(s: State, s': State, root: nat, a: Address)
    requires Ready(s) && Ready(s') && Extends(s, s', root) && IsRoot(s.role, root) && InSpace(s.role, a) && a.root != root
    ensures SameAt(s, s', a)
  {
    hide Translate, MemOk, FreeOk, FreeClean, SharedKernel, OwnersOk, Extends;
    ExtendsTranslates(s, s', root, a);
    UserReach(s.mem, s.role, a);
    RootsStay(s, s', root, a.root);
    var t := Translate(s.mem, a.root, a.v2, a.v1, a.v0);
    if t.Mapped? && t.f.u {
      DataStays(s, s', root, t.page);
    }
  }

  lemma RootsStay(s: State, s': State, root: nat, r: nat)
    requires Extends(s, s', root) && IsRoot(s.role, r) && Valid(s)
    ensures IsRoot(s'.role, r)
  {
  }

  lemma DataStays(s: State, s': State, root: nat, p: nat)
    requires Extends(s, s', root) && p in s.mem && RoleOf(s.role, p).Data? && IsRoot(s.role, root)
    ensures PageKept(s, s', p)
  {
  }

  lemma ExtendsTranslates(s: State, s': State, root: nat, a: Address)
    requires Ready(s) && Ready(s') && Extends(s, s', root) && IsRoot(s.role, root) && InSpace(s.role, a) && a.root != root
    ensures Translate(s'.mem, a.root, a.v2, a.v1, a.v0) == Translate(s.mem, a.root, a.v2, a.v1, a.v0)
  {
    if a.v2 != 3 {
      KernelAddresses(s, s', root, a.root, a.v2, a.v1, a.v0);
    } else {
      OtherSpaces(s, s', root, a.root);
      RootsStay(s, s', root, a.root);
      assert Index(a.v1) && Index(a.v0);
      TranslateUser(s.mem, s.role, a.root, a.v1, a.v0);
      TranslateUser(s'.mem, s'.role, a.root, a.v1, a.v0);
      hide Translate, Ready, Extends;
    }
  }

  /** Everything but kernel and free pages is as before. */
  ghost predicate Quiet(s: State, s': State) {
    forall p :: p in s.mem && !RoleOf(s.role, p).Kernel? && !RoleOf(s.role, p).Free? ==> PageKept(s, s', p) && RoleOf(s'.role, p) == RoleOf(s.role, p)
  }

  lemma QuietUnnoticed(s: State, s': State, a: Address)
    requires Ready(s) && Ready(s') && Quiet(s, s') && InSpace(s.role, a)
    ensures SameAt(s, s', a)
  {
    QuietTranslates(s, s', a);
    UserReach(s.mem, s.role, a);
    assert IsRoot(s'.role, a.root);
    hide Translate, Ready;
    var t := Translate(s.mem, a.root, a.v2, a.v1, a.v0);
    if t.Mapped? && t.f.u {
      assert PageKept(s, s', t.page);
    }
  }

  lemma QuietTranslates(s: State, s': State, a: Address)
    requires Ready(s) && Ready(s') && Quiet(s, s') && InSpace(s.role, a)
    ensures Translate(s'.mem, a.root, a.v2, a.v1, a.v0) == Translate(s.mem, a.root, a.v2, a.v1, a.v0)
  {
    assert a.root in s.mem && PageKept(s, s', a.root);
    if a.v2 == 3 {
      assert forall p :: p in s.mem && TableOf(s.role, p, a.root) ==> PageKept(s, s', p);
      SpaceFrame(s.mem, s.role, s'.mem, a.root);
      assert IsRoot(s'.role, a.root) && Index(a.v1) && Index(a.v0);
      TranslateUser(s.mem, s.role, a.root, a.v1, a.v0);
      TranslateUser(s'.mem, s'.role, a.root, a.v1, a.v0);
    } else {
      assert WordOk(s.role, a.root, a.v2, s.mem[a.root][a.v2]);
      assert forall p :: p in s.mem && RoleOf(s.role, p).KernelTable? ==> PageKept(s, s', p);
      KernelWalk(s.mem, s.role, s'.mem, Entry(s.mem, a.root, a.v2), a.v1, a.v0);
    }
  }

  lemma StoreUnnoticed(s: State, op: StoreOp, a: Address)
    requires Ready(s) && InSpace(s.role, op.at) && InSpace(s.role, a) && op.at.root != a.root
    ensures SameAt(s, s.(mem := UserStore(s.mem, op)), a)
  {
    StoreKeeps(s.mem, s.role, op, a.root);
    TranslateKept(s.mem, UserStore(s.mem, op), s.role, a);
    hide Translate, UserStore, MemOk, FreeOk, FreeClean, SharedKernel, OwnersOk;
    UserReach(s.mem, s.role, a);
    var t, mem' := Translate(s.mem, a.root, a.v2, a.v1, a.v0), UserStore(s.mem, op);
    if t.Mapped? && t.f.u {
      assert mem'[t.page] == s.mem[t.page];
    }
  }

  lemma TakeQuiet(s: State)
    requires s.free != [] && RoleOf(s.role, s.free[0]).Free?
    ensures Quiet(s, Take(s, Kernel))
  {
  }

  lemma GiveQuiet(s: State, page: nat)
    requires page in s.mem && 0 < |s.mem[page]| && RoleOf(s.role, page).Kernel?
    ensures Quiet(s, Give(s, page))
  {
  }

  lemma CloneQuiet(s: State, s': State, parent: nat, child: nat)
    requires Cloned(s, s', parent, child)
    ensures Quiet(s, s')
  {
    hide Ready, Behind, Ahead, TablesMatch;
  }

  lemma StepUnnoticed(s: State, b: SpaceOp, s': State, a: Address)
    requires Ready(s) && SpaceStep(s, b, s') && InSpace(s.role, a) && !ActsOn(b, a.root)
    ensures SameAt(s, s', a)
  {
    StepReady(s, b, s');
    hide Ready, SameAt, Quiet, MapPage, WithFlags, UserStore, Take, Give, Cloned;
    match b
    case UserWrite(op) => StoreUnnoticed(s, op, a);
    case Map(root, i, j, f) =>
      MapPageKeeps(s, root, i, j, f);
      ExtendsUnnoticed(s, s', root, a);
    case SetFlags(root, i, j, f) =>
      FlagsReady(s, root, i, j, f);
      ExtendsUnnoticed(s, s', root, a);
    case Clone(parent, child) =>
      CloneQuiet(s, s', parent, child);
      QuietUnnoticed(s, s', a);
    case KernelTake =>
      FirstFree(s);
      TakeQuiet(s);
      QuietUnnoticed(s, s', a);
    case KernelGive(page) =>
      GiveQuiet(s, page);
      QuietUnnoticed(s, s', a);
  }

  // ---------------------------------------------------------------- whole runs

  /** states are those before, between and after the operations. */
  ghost predicate SpaceRun(states: seq<State>, ops: seq<SpaceOp>)
    decreases |ops|
  {
    && |states| == |ops| + 1
    && (ops != [] ==> SpaceStep(states[0], ops[0], states[1]) && SpaceRun(states[1..], ops[1..]))
  }

  /** Runs keep the state ready: page tables a tree, mapped pages private, the free list exact. */
  lemma {:induction false} RunReady(states: seq<State>, ops: seq<SpaceOp>)
    requires SpaceRun(states, ops) && Ready(states[0])
    ensures Ready(states[|ops|])
    decreases |ops|
  {
    hide Ready, SpaceStep;
    if ops != [] {
      StepReady(states[0], ops[0], states[1]);
      RunReady(states[1..], ops[1..]);
    }
  }

  /** Whatever is stored, mapped, changed or cloned elsewhere, a space translates and reads the same. */
  lemma {:induction false} RunUnnoticed(states: seq<State>, ops: seq<SpaceOp>, a: Address)
    requires SpaceRun(states, ops) && Ready(states[0]) && InSpace(states[0].role, a)
    requires forall b :: b in ops ==> !ActsOn(b, a.root)
    ensures SameAt(states[0], states[|ops|], a)
    decreases |ops|
  {
    hide Ready, SpaceStep, ActsOn;
    if ops == [] {
      SameHere(states[0], a);
    } else {
      StepReady(states[0], ops[0], states[1]);
      StepUnnoticed(states[0], ops[0], states[1], a);
      assert InSpace(states[1].role, a);
      RunUnnoticed(states[1..], ops[1..], a);
    }
  }

  lemma SameHere(s: State, a: Address)
    requires InSpace(s.role, a)
    ensures SameAt(s, s, a)
  {
  }

  /**
   Fork isolation over whole runs: as long as nothing is done to the child itself, its user mode reads
   what the parent's did at the fork, whatever is stored, mapped or cloned in the parent and elsewhere.
   */
  lemma ForkIsolates(s0: State, parent: nat, child: nat, states: seq<State>, ops: seq<SpaceOp>, a: Address)
    requires SpaceRun(states, ops) && Cloned(s0, states[0], parent, child)
    requires a.root == child && InSpace(states[0].role, a) && forall b :: b in ops ==> !ActsOn(b, child)
    ensures UserLoad(states[|ops|].mem, a) ==
      if a.v2 == 3 && a.v1 < USER_TABLES then UserLoad(s0.mem, a.(root := parent)) else PageFault
  {
    ClonedValid(s0, states[0], parent, child);
    hide Ready, Cloned, SpaceStep, ActsOn, UserLoad;
    RunUnnoticed(states, ops, a);
    ForkIsolatesChild(s0, states[0], parent, child, [], a);
    assert UserStores(states[0].mem, []) == states[0].mem;
  }
}
