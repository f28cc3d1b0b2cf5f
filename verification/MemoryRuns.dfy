/**
 * Whole runs of the memory manager beside a translation cache: cache coherence, sharing of the
 * kernel half, privacy of the user half, and permissions combined over all four levels.
 */
module MemoryRuns {
  import opened KernelTypes
  import opened PageTables
  import opened Words
  import opened Paging
  import opened VirtualMemory
  import TableGrowth
  import PhysicalPages

  const USER_BASE: nat := 0x10_0000
  const USER_TOP: nat := 0x8000_0000_0000

  /** The cache may hold any completed walk of the active root (section 4.10 of the Intel SDM Volume 3A). */
  datatype System = System(m: Machine, tlb: map<Path, seq<Entry>>)

  /** Every cached walk is the walk that the tables of the active root give now. */
  ghost predicate Coherent(s: System) {
    forall p :: p in s.tlb ==> ValidPath(p) && Walk(s.m.mem, s.m.active, p) == Some(s.tlb[p])
  }

  ghost predicate Consistent(s: System) { Sound(s.m) && Coherent(s) }

  // ----- the steps ------------------------------------------------------------------------------------

  /** INVLPG drops the page's translation; on a non-canonical address it does nothing (Intel SDM Volume 2, INVLPG). */
  function Invlpg(tlb: map<Path, seq<Entry>>, virt: nat): map<Path, seq<Entry>> {
    if Canonical(virt) then tlb - {PathOf(virt)} else tlb
  }

  /** A successful change in the active root is followed by INVLPG on the address given. */
  function Flush(s: System, m: Machine, root: nat, virt: nat, status: Status): System {
    System(m, if status == Ok && root == s.m.active then Invlpg(s.tlb, virt) else s.tlb)
  }

  function MapStep(s: System, root: nat, virt: nat, phys: nat, flags: nat): System {
    var (m, status) := MapInRoot(s.m, root, virt, phys, flags);
    Flush(s, m, root, virt, status)
  }

  function UnmapStep(s: System, root: nat, virt: nat): System {
    var (m, status) := UnmapInRoot(s.m, root, virt);
    Flush(s, m, root, virt, status)
  }

  predicate UserPage(vaddr: nat) { PageAligned(vaddr) && USER_BASE <= vaddr <= USER_TOP - PAGE_SIZE }

  /** Address-space mappings always carry the user flag. */
  function WithUser(flags: nat): nat { if flags / 2 % 2 == 1 then flags else flags + 2 }

  /** The entry points of the memory manager, the processor filling or dropping cache entries, and the pool. */
  datatype Op =
    | MapPage(virt: nat, phys: nat, flags: nat)
    | UnmapPage(virt: nat)
    | SpaceMap(root: nat, vaddr: nat, paddr: nat, flags: nat)
    | SpaceUnmap(root: nat, vaddr: nat)
    | SpaceCreate(objectTableFull: bool)
    | Activate(root: nat)
    | Fill(p: Path)
    | Evict(p: Path)
    | TakePage
    | GivePage(phys: nat)

  function Step(s: System, op: Op): System {
    match op
    case MapPage(virt, phys, flags) => MapStep(s, s.m.active, virt, phys, flags)
    case UnmapPage(virt) => UnmapStep(s, s.m.active, virt)
    case SpaceMap(root, vaddr, paddr, flags) =>
      if UserPage(vaddr) && PageAligned(paddr) then MapStep(s, root, vaddr, paddr, WithUser(flags)) else s
    case SpaceUnmap(root, vaddr) => if UserPage(vaddr) then UnmapStep(s, root, vaddr) else s
    case SpaceCreate(full) =>
      var (m, r) := CreateRoot(s.m);
      s.(m := if r.Good? && full then DropRoot(m, r.value) else m)
    case Activate(root) => if BadRoot(root) then s else System(s.m.(active := root), map[])
    case Fill(p) =>
      var w := Walk(s.m.mem, s.m.active, p);
      if ValidPath(p) && w.Some? then s.(tlb := s.tlb[p := w.value]) else s
    case Evict(p) => s.(tlb := s.tlb - {p})
    case TakePage => s.(m := s.m.(pool := PhysicalPages.Alloc(s.m.pool).0))
    case GivePage(phys) => s.(m := s.m.(pool := PhysicalPages.Free(s.m.pool, phys).0))
  }

  /**
   * Kernel pages are unmapped under their canonical address, address spaces hold created roots, and pages in
   * use as tables are not given back.
   */
  predicate Allowed(s: System, op: Op) {
    match op
    case UnmapPage(virt) => Canonical(virt)
    case SpaceMap(root, _, _, _) => IsRoot(s.m.mem, root)
    case SpaceUnmap(root, _) => IsRoot(s.m.mem, root)
    case Activate(root) => IsRoot(s.m.mem, root)
    case GivePage(phys) => phys !in s.m.mem && phys < PHYS_END
    case _ => true
  }

  function Run(s: System, ops: seq<Op>): System
    decreases ops
  {
    if ops == [] then s else Run(Step(s, ops[0]), ops[1..])
  }

  predicate AllAllowed(s: System, ops: seq<Op>)
    decreases ops
  {
    ops == [] || (Allowed(s, ops[0]) && AllAllowed(Step(s, ops[0]), ops[1..]))
  }

  // ----- coherence ---------------------------------------------------------------------------------------

  /** Mapping never makes a cached walk stale, in whatever root: what becomes visible was not cached. */
  lemma MapStepGood(s: System, root: nat, virt: nat, phys: nat, flags: nat)
    requires Consistent(s) && IsRoot(s.m.mem, root)
    ensures var t := MapStep(s, root, virt, phys, flags);
      Consistent(t) && t.m.active == s.m.active && KeepsTops(s.m.mem, t.m.mem)
  {
    if !(BadRoot(root) || BadPage(virt) || !PageAligned(phys) || flags >= 4) {
      var p := PathOf(virt);
      var e := Entry(true, flags % 2 == 1, flags >= 2, false, Frame(phys));
      MapPathEffect(s.m, root, p, e, flags >= 2);
      MapHidden(s.m, root, p, e, flags >= 2);
    }
  }

  /**
   * Unmapping keeps every coherent cache coherent exactly when it fails, or the root is the active one and
   * the address is canonical, or the active root does not see the page through the same tables.
   */
  lemma UnmapStepGood(s: System, root: nat, virt: nat)
    requires Sound(s.m) && IsRoot(s.m.mem, root)
    ensures var safe := UnmapInRoot(s.m, root, virt).1 != Ok || (root == s.m.active && Canonical(virt))
                        || !Shares(s.m.mem, s.m.active, root, PathOf(virt).i4);
      && (safe && Coherent(s) ==>
            Consistent(UnmapStep(s, root, virt)) && UnmapStep(s, root, virt).m.active == s.m.active)
      && (!safe ==>
            exists c: map<Path, seq<Entry>> ::
              Coherent(System(s.m, c)) && !Coherent(UnmapStep(System(s.m, c), root, virt)))
    ensures KeepsTops(s.m.mem, UnmapStep(s, root, virt).m.mem)
  {
    var p := PathOf(virt);
    if !(BadRoot(root) || BadPage(virt)) {
      UnmapPathEffect(s.m, root, p);
      var (m', st) := UnmapPath(s.m, root, p);
      if st == Ok && (root != s.m.active || !Canonical(virt)) && Shares(s.m.mem, s.m.active, root, p.i4) {
        UnmapSeen(s.m, root, p);
        var c := map[p := Walk(s.m.mem, s.m.active, p).value];
        assert p in c;
        assert Coherent(System(s.m, c));
        assert !Coherent(UnmapStep(System(s.m, c), root, virt));
      }
    }
  }

  /** The address with bit 47 alone set: accepted by the kernel, not canonical, and the lowest kernel page's alias. */
  const ALIAS: nat := 0x8000_0000_0000

  lemma AliasPath()
    ensures PathOf(ALIAS) == PathOf(KERNEL_BASE) && !BadPage(ALIAS) && !BadPage(KERNEL_BASE)
    ensures Canonical(KERNEL_BASE) && !Canonical(ALIAS)
  {
    assert Canon(ALIAS) == KERNEL_BASE;
    CanonSamePath(ALIAS);
  }

  /** The lowest kernel page unmapped under its alias: the call succeeds and a cached translation survives it. */
  lemma AliasUnmapIsStale() returns (s: System)
    ensures Consistent(s) && UnmapInRoot(s.m, s.m.active, ALIAS).1 == Ok && !Coherent(Step(s, UnmapPage(ALIAS)))
  {
    AliasPath();
    var p := PathOf(KERNEL_BASE);
    var m := OneKernelPage();
    hide Sound, PathOf, BadPage, Canonical;
    UnmapPathEffect(m, m.active, p);
    UnmapSeen(m, m.active, p);
    s := System(m, map[p := Walk(m.mem, m.active, p).value]);
    assert p in s.tlb && Step(s, UnmapPage(ALIAS)).tlb == s.tlb;
  }

  /** A machine that maps the lowest kernel page and nothing else. */
  lemma OneKernelPage() returns (m: Machine)
    ensures Sound(m) && IsRoot(m.mem, m.active) && !BadRoot(m.active)
    ensures Lookup(m.mem, m.active, PathOf(KERNEL_BASE)).Some?
  {
    var pool := PhysicalPages.EMPTY.(stack := [0x2000, 0x3000, 0x4000], ready := true);
    var bare := BareMachine(0x1000, pool);
    BareSound(0x1000, pool);
    AliasPath();
    var p := PathOf(KERNEL_BASE);
    hide Sound, PathOf, BadPage, Upper;
    BareEmpty(0x1000, pool, p);
    var e := Entry(true, true, false, false, 0x5000);
    MapPathEffect(bare, 0x1000, p, e, false);
    m := MapPath(bare, 0x1000, p, e, false).0;
    assert Walk(m.mem, 0x1000, p) == Some(Upper(m.mem, 0x1000, LEVELS, p) + [e]);
  }

  lemma UnmapSeen(m: Machine, root: nat, p: Path)
    requires Sound(m) && IsRoot(m.mem, root) && ValidPath(p) && UnmapPath(m, root, p).1 == Ok
    ensures forall r :: IsRoot(m.mem, r) && Shares(m.mem, r, root, p.i4) ==> Walk(m.mem, r, p).Some?
  {
    FindPath(m, root, LEVELS, p);
    var pt := LeafTable(m, root, LEVELS, p, false, false).1.value;
    forall r | IsRoot(m.mem, r) && Shares(m.mem, r, root, p.i4) ensures Walk(m.mem, r, p).Some? {
      StoreLeaf(m.mem, root, p, pt, ABSENT, r, p);
    }
  }

  lemma PoolStepGood(s: System, op: Op)
    requires Consistent(s) && (op.TakePage? || op.GivePage?) && Allowed(s, op)
    ensures Consistent(Step(s, op)) && Step(s, op).m.mem == s.m.mem
  {
    hide WellFormed;
    if op.TakePage? && s.m.pool.stack != [] {
      SpareFront(s.m.mem, s.m.pool.stack);
    }
  }

  lemma SpaceCreateGood(s: System, full: bool)
    requires Consistent(s)
    ensures var t := Step(s, SpaceCreate(full));
      Consistent(t) && t.m.active == s.m.active && KeepsTops(s.m.mem, t.m.mem)
  {
    CreateRootEffect(s.m);
    var (m, r) := CreateRoot(s.m);
    if r.Good? && full {
      DropRootEffect(m, r.value);
    }
  }

  lemma StepGood(s: System, op: Op)
    requires Consistent(s) && Allowed(s, op)
    ensures Consistent(Step(s, op)) && KeepsTops(s.m.mem, Step(s, op).m.mem)
  {
    match op {
      case MapPage(virt, phys, flags) => MapStepGood(s, s.m.active, virt, phys, flags);
      case UnmapPage(virt) => UnmapStepGood(s, s.m.active, virt);
      case SpaceMap(root, vaddr, paddr, flags) =>
        if UserPage(vaddr) && PageAligned(paddr) {
          MapStepGood(s, root, vaddr, paddr, WithUser(flags));
        }
      case SpaceUnmap(root, vaddr) =>
        if UserPage(vaddr) {
          UserHalf(vaddr);
          UnmapStepGood(s, root, vaddr);
        }
      case SpaceCreate(full) => SpaceCreateGood(s, full);
      case Activate(root) =>
      case Fill(p) =>
      case Evict(p) =>
      case TakePage => PoolStepGood(s, op);
      case GivePage(phys) => PoolStepGood(s, op);
    }
  }

  /** In every run the cache agrees with the tables, and present top-level entries stay as they are. */
  lemma {:induction false} RunGood(s: System, ops: seq<Op>)
    requires Consistent(s) && AllAllowed(s, ops)
    ensures Consistent(Run(s, ops)) && KeepsTops(s.m.mem, Run(s, ops).m.mem)
    decreases ops
  {
    if ops != [] {
      StepGood(s, ops[0]);
      RunGood(Step(s, ops[0]), ops[1..]);
    }
  }

  // ----- the kernel half is shared ---------------------------------------------------------------------------

  lemma SameTopSameWalk(mem: Memory, r: nat, q: nat, v: Path)
    requires Read(mem, r, v.i4) == Read(mem, q, v.i4)
    ensures Walk(mem, r, v) == Walk(mem, q, v)
  {
  }

  /** Equal present top-level entries of two roots show the same mappings through both, in every run. */
  lemma SharedForever(s: System, ops: seq<Op>, r: nat, q: nat, i: nat)
    requires Consistent(s) && AllAllowed(s, ops) && IsRoot(s.m.mem, r) && IsRoot(s.m.mem, q)
    requires Read(s.m.mem, r, i).present && Read(s.m.mem, r, i) == Read(s.m.mem, q, i)
    ensures forall v :: ValidPath(v) && v.i4 == i ==>
      Walk(Run(s, ops).m.mem, r, v) == Walk(Run(s, ops).m.mem, q, v)
  {
    RunGood(s, ops);
    var mem := Run(s, ops).m.mem;
    forall v | ValidPath(v) && v.i4 == i ensures Walk(mem, r, v) == Walk(mem, q, v) {
      SameTopSameWalk(mem, r, q, v);
    }
  }

  lemma MapStepSharing(s: System, root: nat, virt: nat, phys: nat, flags: nat)
    requires Consistent(s) && IsRoot(s.m.mem, root)
    ensures SameSharing(s.m.mem, MapStep(s, root, virt, phys, flags).m.mem)
  {
    hide Shares;
    if !(BadRoot(root) || BadPage(virt) || !PageAligned(phys) || flags >= 4) {
      var e := Entry(true, flags % 2 == 1, flags >= 2, false, Frame(phys));
      TableGrowth.MapDeepens(s.m, root, PathOf(virt), e, flags >= 2);
    }
  }

  lemma UnmapStepSharing(s: System, root: nat, virt: nat)
    requires Consistent(s) && IsRoot(s.m.mem, root)
    ensures SameSharing(s.m.mem, UnmapStep(s, root, virt).m.mem)
  {
    hide Shares;
    if !(BadRoot(root) || BadPage(virt)) {
      UnmapPathEffect(s.m, root, PathOf(virt));
    }
  }

  lemma CreateSharing(s: System, full: bool)
    requires Consistent(s)
    ensures SameSharing(s.m.mem, Step(s, SpaceCreate(full)).m.mem)
  {
    CreateRootEffect(s.m);
    var (m, r) := CreateRoot(s.m);
    if r.Good? && full {
      DropRootEffect(m, r.value);
    }
  }

  /** No step makes two roots share a top-level entry or cease to. */
  lemma StepSharing(s: System, op: Op)
    requires Consistent(s) && Allowed(s, op)
    ensures SameSharing(s.m.mem, Step(s, op).m.mem)
  {
    hide Shares;
    match op {
      case MapPage(virt, phys, flags) => MapStepSharing(s, s.m.active, virt, phys, flags);
      case UnmapPage(virt) => UnmapStepSharing(s, s.m.active, virt);
      case SpaceMap(root, vaddr, paddr, flags) =>
        if UserPage(vaddr) && PageAligned(paddr) {
          MapStepSharing(s, root, vaddr, paddr, WithUser(flags));
        }
      case SpaceUnmap(root, vaddr) =>
        if UserPage(vaddr) {
          UnmapStepSharing(s, root, vaddr);
        }
      case SpaceCreate(full) => CreateSharing(s, full);
      case _ =>
    }
  }

  /** In every run, two roots share exactly the top-level entries that they shared at its start. */
  lemma {:induction false} RunSharing(s: System, ops: seq<Op>)
    requires Consistent(s) && AllAllowed(s, ops)
    ensures SameSharing(s.m.mem, Run(s, ops).m.mem)
    decreases ops
  {
    hide Shares, Step, Consistent, Allowed;
    if ops != [] {
      StepGood(s, ops[0]);
      StepSharing(s, ops[0]);
      RunSharing(Step(s, ops[0]), ops[1..]);
    }
  }

  /**
   * A created root shares, in every later run, exactly the kernel entries that the root it was created from
   * pointed to tables at that time; below the entries it copied present the two agree on every walk.
   */
  lemma CreatedRootShares(s: System, ops: seq<Op>, i: nat)
    requires Consistent(s) && s.m.pool.stack != [] && KERNEL_HALF <= i < ENTRIES
    requires AllAllowed(Step(s, SpaceCreate(false)), ops)
    ensures var root := CreateRoot(s.m).1.value;
      var mem := Run(Step(s, SpaceCreate(false)), ops).m.mem;
      && root != s.m.active && (Shares(mem, root, s.m.active, i) <==> Points(Read(s.m.mem, s.m.active, i)))
      && (Read(s.m.mem, s.m.active, i).present ==>
            forall v :: ValidPath(v) && v.i4 == i ==> Walk(mem, root, v) == Walk(mem, s.m.active, v))
  {
    CreateRootEffect(s.m);
    var t := Step(s, SpaceCreate(false));
    SpaceCreateGood(s, false);
    RunSharing(t, ops);
    var root := CreateRoot(s.m).1.value;
    assert Read(t.m.mem, root, i) == Read(s.m.mem, s.m.active, i) == Read(t.m.mem, s.m.active, i);
    hide Run, AllAllowed;
    if Read(s.m.mem, s.m.active, i).present {
      SharedForever(t, ops, root, s.m.active, i);
    }
  }

  /**
   * A kernel page mapped later through the old root becomes visible in the created root exactly when the top-level
   * entry was there at creation.
   */
  lemma LaterPageSeenIff(s: System, ops: seq<Op>, virt: nat, phys: nat, flags: nat)
    requires Consistent(s) && s.m.pool.stack != [] && PathOf(virt).i4 >= KERNEL_HALF
    requires AllAllowed(Step(s, SpaceCreate(false)), ops)
    requires MapInRoot(Run(Step(s, SpaceCreate(false)), ops).m, s.m.active, virt, phys, flags).1 == Ok
    ensures var root, p := CreateRoot(s.m).1.value, PathOf(virt);
      var t := Run(Step(s, SpaceCreate(false)), ops);
      var mem := MapInRoot(t.m, s.m.active, virt, phys, flags).0.mem;
      && (Points(Read(s.m.mem, s.m.active, p.i4)) ==> Walk(t.m.mem, root, p) == None && Walk(mem, root, p).Some?)
      && (!Points(Read(s.m.mem, s.m.active, p.i4)) ==>
            forall v :: ValidPath(v) ==> Walk(mem, root, v) == Walk(t.m.mem, root, v))
  {
    hide Step, Shares, PathOf, Run, AllAllowed, CreateRoot, Sound, Walk, MapInRoot;
    CreatedRootStays(s, ops);
    CreatedRootShares(s, ops, PathOf(virt).i4);
    SeenThrough(Run(Step(s, SpaceCreate(false)), ops).m, s.m.active, CreateRoot(s.m).1.value, virt, phys, flags);
  }

  lemma CreatedRootStays(s: System, ops: seq<Op>)
    requires Consistent(s) && s.m.pool.stack != [] && AllAllowed(Step(s, SpaceCreate(false)), ops)
    ensures CreateRoot(s.m).1.Good?
    ensures var t := Run(Step(s, SpaceCreate(false)), ops);
      Sound(t.m) && IsRoot(t.m.mem, s.m.active) && IsRoot(t.m.mem, CreateRoot(s.m).1.value)
  {
    CreateRootEffect(s.m);
    SpaceCreateGood(s, false);
    hide Run, AllAllowed, Sound;
    RunGood(Step(s, SpaceCreate(false)), ops);
  }

  /** What a successful mapping through root a shows in another root. */
  lemma SeenThrough(m: Machine, a: nat, root: nat, virt: nat, phys: nat, flags: nat)
    requires Sound(m) && IsRoot(m.mem, a) && IsRoot(m.mem, root) && MapInRoot(m, a, virt, phys, flags).1 == Ok
    ensures var mem, p := MapInRoot(m, a, virt, phys, flags).0.mem, PathOf(virt);
      && (Shares(m.mem, root, a, p.i4) ==> Walk(m.mem, root, p) == None && Walk(mem, root, p).Some?)
      && (!Shares(m.mem, root, a, p.i4) ==> forall v :: ValidPath(v) ==> Walk(mem, root, v) == Walk(m.mem, root, v))
  {
    hide Shares, Walk, MapPath, Blocked, Missing, Upper, PathOf, TableGrowth.Deepens;
    var p, e := PathOf(virt), Entry(true, flags % 2 == 1, flags >= 2, false, Frame(phys));
    MapPathEffect(m, a, p, e, flags >= 2);
    MapHidden(m, a, p, e, flags >= 2);
    TableGrowth.MapDeepens(m, a, p, e, flags >= 2);
  }

  // ----- the user half is private ------------------------------------------------------------------------------

  /** The step maps or unmaps a user page in root r. */
  predicate Touches(s: System, op: Op, r: nat) {
    match op
    case MapPage(virt, _, _) => s.m.active == r && PathOf(virt).i4 < KERNEL_HALF
    case UnmapPage(virt) => s.m.active == r && PathOf(virt).i4 < KERNEL_HALF
    case SpaceMap(root, _, _, _) => root == r
    case SpaceUnmap(root, _) => root == r
    case _ => false
  }

  predicate NeverTouches(s: System, ops: seq<Op>, r: nat)
    decreases ops
  {
    ops == [] || (!Touches(s, ops[0], r) && NeverTouches(Step(s, ops[0]), ops[1..], r))
  }

  ghost predicate SameUserHalf(mem: Memory, mem': Memory, r: nat) {
    forall v :: ValidPath(v) && v.i4 < KERNEL_HALF ==> Walk(mem', r, v) == Walk(mem, r, v)
  }

  lemma MapStepPrivate(s: System, root: nat, virt: nat, phys: nat, flags: nat, r: nat)
    requires Consistent(s) && IsRoot(s.m.mem, root) && IsRoot(s.m.mem, r)
    requires root != r || PathOf(virt).i4 >= KERNEL_HALF
    ensures SameUserHalf(s.m.mem, MapStep(s, root, virt, phys, flags).m.mem, r)
  {
    if !(BadRoot(root) || BadPage(virt) || !PageAligned(phys) || flags >= 4) {
      MapPathEffect(s.m, root, PathOf(virt), Entry(true, flags % 2 == 1, flags >= 2, false, Frame(phys)), flags >= 2);
    }
  }

  lemma UnmapStepPrivate(s: System, root: nat, virt: nat, r: nat)
    requires Consistent(s) && IsRoot(s.m.mem, root) && IsRoot(s.m.mem, r)
    requires root != r || PathOf(virt).i4 >= KERNEL_HALF
    ensures SameUserHalf(s.m.mem, UnmapStep(s, root, virt).m.mem, r)
  {
    if !(BadRoot(root) || BadPage(virt)) {
      UnmapPathEffect(s.m, root, PathOf(virt));
    }
  }

  lemma StepPrivate(s: System, op: Op, r: nat)
    requires Consistent(s) && Allowed(s, op) && IsRoot(s.m.mem, r) && !Touches(s, op, r)
    ensures SameUserHalf(s.m.mem, Step(s, op).m.mem, r)
  {
    match op {
      case MapPage(virt, phys, flags) => MapStepPrivate(s, s.m.active, virt, phys, flags, r);
      case UnmapPage(virt) => UnmapStepPrivate(s, s.m.active, virt, r);
      case SpaceMap(root, vaddr, paddr, flags) =>
        if UserPage(vaddr) && PageAligned(paddr) {
          MapStepPrivate(s, root, vaddr, paddr, WithUser(flags), r);
        }
      case SpaceUnmap(root, vaddr) =>
        if UserPage(vaddr) {
          UnmapStepPrivate(s, root, vaddr, r);
        }
      case SpaceCreate(full) =>
        CreateRootEffect(s.m);
        var (m, q) := CreateRoot(s.m);
        if q.Good? && full {
          DropRootEffect(m, q.value);
        }
      case _ =>
    }
  }

  /** Whatever a run does elsewhere, the user half of a root it does not touch keeps every translation. */
  lemma {:induction false} RunPrivate(s: System, ops: seq<Op>, r: nat)
    requires Consistent(s) && AllAllowed(s, ops) && IsRoot(s.m.mem, r) && NeverTouches(s, ops, r)
    ensures SameUserHalf(s.m.mem, Run(s, ops).m.mem, r)
    decreases ops
  {
    if ops != [] {
      StepGood(s, ops[0]);
      StepPrivate(s, ops[0], r);
      RunPrivate(Step(s, ops[0]), ops[1..], r);
    }
  }

  // ----- permissions over all levels -----------------------------------------------------------------------------

  /** Every entry above a user leaf of root r is writable and user, so the leaf alone decides. */
  ghost predicate OpenUser(mem: Memory, r: nat) {
    forall v, n :: ValidPath(v) && v.i4 < KERNEL_HALF && 0 <= n < |Trace(mem, r, LEVELS, v)| && n < 3 ==>
      Trace(mem, r, LEVELS, v)[n].writable && Trace(mem, r, LEVELS, v)[n].user
  }

  /** Section 4.6 of the Intel SDM Volume 3A: an access right needs the flag in every entry of the walk. */
  predicate UserAllowed(w: seq<Entry>) { forall n :: 0 <= n < |w| ==> w[n].user }
  predicate WriteAllowed(w: seq<Entry>) { forall n :: 0 <= n < |w| ==> w[n].writable }

  lemma LeafDecides(mem: Memory, r: nat, v: Path)
    requires OpenUser(mem, r) && ValidPath(v) && v.i4 < KERNEL_HALF && Lookup(mem, r, v).Some?
    ensures UserAllowed(Walk(mem, r, v).value) <==> Lookup(mem, r, v).value.user
    ensures WriteAllowed(Walk(mem, r, v).value) <==> Lookup(mem, r, v).value.writable
  {
    var w := Walk(mem, r, v).value;
    assert w == Trace(mem, r, LEVELS, v) && |w| == 4;
  }

  lemma MapOpen(m: Machine, root: nat, p: Path, e: Entry, user: bool, r: nat)
    requires Sound(m) && IsRoot(m.mem, root) && IsRoot(m.mem, r) && ValidPath(p) && e.present
    requires OpenUser(m.mem, r) && (user || root != r || p.i4 >= KERNEL_HALF)
    ensures OpenUser(MapPath(m, root, p, e, user).0.mem, r)
  {
    var (m1, r1) := LeafTable(m, root, LEVELS, p, true, user);
    CreatePath(m, root, root, LEVELS, p, user);
    forall v, n | ValidPath(v) && v.i4 < KERNEL_HALF && 0 <= n < |Trace(m1.mem, r, LEVELS, v)| && n < 3
      ensures Trace(m1.mem, r, LEVELS, v)[n].writable && Trace(m1.mem, r, LEVELS, v)[n].user
    {
      assert Grows(Trace(m.mem, r, LEVELS, v), Trace(m1.mem, r, LEVELS, v), LEVELS, user);
    }
    if r1.Good? {
      StoreOpen(m1.mem, r1.value, p.i1, e, r);
    }
  }

  lemma StoreOpen(mem: Memory, pt: nat, i: nat, e: Entry, r: nat)
    requires Shaped(mem) && IsTable(mem, pt, 1) && i < ENTRIES && IsRoot(mem, r) && OpenUser(mem, r)
    ensures OpenUser(Write(mem, pt, i, e), r)
  {
    var mem' := Write(mem, pt, i, e);
    forall v, n | ValidPath(v) && v.i4 < KERNEL_HALF && 0 <= n < |Trace(mem', r, LEVELS, v)| && n < 3
      ensures Trace(mem', r, LEVELS, v)[n].writable && Trace(mem', r, LEVELS, v)[n].user
    {
      LeafWrite(mem, pt, i, e, r, LEVELS, v);
      if TableAt(mem, r, LEVELS, v, 1) == Some(pt) {
        Reached(mem, r, LEVELS, v, pt);
        Reached(mem', r, LEVELS, v, pt);
        assert Trace(mem, r, LEVELS, v)[n] == Trace(mem', r, LEVELS, v)[n];
      }
    }
  }

  /** User pages of r are mapped only through address spaces, that is, with the user flag. */
  predicate FilledBySpaces(s: System, ops: seq<Op>, r: nat)
    decreases ops
  {
    ops == [] || (!(ops[0].MapPage? && Touches(s, ops[0], r)) && FilledBySpaces(Step(s, ops[0]), ops[1..], r))
  }

  lemma StepOpen(s: System, op: Op, r: nat)
    requires Consistent(s) && Allowed(s, op) && IsRoot(s.m.mem, r) && OpenUser(s.m.mem, r)
    requires !(op.MapPage? && Touches(s, op, r))
    ensures OpenUser(Step(s, op).m.mem, r)
  {
    match op {
      case MapPage(virt, phys, flags) => MapInRootOpen(s.m, s.m.active, virt, phys, flags, r);
      case UnmapPage(virt) => UnmapOpen(s.m, s.m.active, virt, r);
      case SpaceMap(root, vaddr, paddr, flags) =>
        if UserPage(vaddr) && PageAligned(paddr) {
          MapInRootOpen(s.m, root, vaddr, paddr, WithUser(flags), r);
        }
      case SpaceUnmap(root, vaddr) => UnmapOpen(s.m, root, vaddr, r);
      case SpaceCreate(full) => CreateOpen(s.m, full, r);
      case _ =>
    }
  }

  lemma MapInRootOpen(m: Machine, root: nat, virt: nat, phys: nat, flags: nat, r: nat)
    requires Sound(m) && IsRoot(m.mem, root) && IsRoot(m.mem, r) && OpenUser(m.mem, r)
    requires flags >= 2 || root != r || PathOf(virt).i4 >= KERNEL_HALF
    ensures OpenUser(MapInRoot(m, root, virt, phys, flags).0.mem, r)
  {
    if !(BadRoot(root) || BadPage(virt) || !PageAligned(phys) || flags >= 4) {
      MapOpen(m, root, PathOf(virt), Entry(true, flags % 2 == 1, flags >= 2, false, Frame(phys)), flags >= 2, r);
    }
  }

  lemma UnmapOpen(m: Machine, root: nat, virt: nat, r: nat)
    requires Sound(m) && IsRoot(m.mem, root) && IsRoot(m.mem, r) && OpenUser(m.mem, r)
    ensures OpenUser(UnmapInRoot(m, root, virt).0.mem, r)
  {
    if !(BadRoot(root) || BadPage(virt)) {
      FindPath(m, root, LEVELS, PathOf(virt));
      var q := LeafTable(m, root, LEVELS, PathOf(virt), false, false).1;
      if q.Good? {
        StoreOpen(m.mem, q.value, PathOf(virt).i1, ABSENT, r);
      }
    }
  }

  lemma CreateOpen(m: Machine, full: bool, r: nat)
    requires Sound(m) && IsRoot(m.mem, r) && OpenUser(m.mem, r)
    ensures OpenUser(Step(System(m, map[]), SpaceCreate(full)).m.mem, r)
  {
    var (m1, q) := CreateRoot(m);
    if q.Good? {
      var table := RootTable(m.mem, m.active);
      assert q.value in m.pool.stack;
      if full {
        assert m1.mem - {q.value} == m.mem;
      } else {
        forall v | ValidPath(v) ensures Trace(m1.mem, r, LEVELS, v) == Trace(m.mem, r, LEVELS, v) {
          UnlinkedPage(m.mem, q.value, table, r, LEVELS, v);
        }
      }
    }
  }

  /** In a root filled only through address spaces the leaf flags are the combined permissions, in every run. */
  lemma {:induction false} RunOpen(s: System, ops: seq<Op>, r: nat)
    requires Consistent(s) && AllAllowed(s, ops) && IsRoot(s.m.mem, r) && OpenUser(s.m.mem, r)
    requires FilledBySpaces(s, ops, r)
    ensures OpenUser(Run(s, ops).m.mem, r)
    decreases ops
  {
    if ops != [] {
      StepGood(s, ops[0]);
      StepOpen(s, ops[0], r);
      RunOpen(Step(s, ops[0]), ops[1..], r);
    }
  }

  /** A created root starts out open: its user half is empty. */
  lemma CreatedRootOpen(m: Machine)
    requires Sound(m) && m.pool.stack != []
    ensures OpenUser(CreateRoot(m).0.mem, CreateRoot(m).1.value)
  {
    var (m', r) := CreateRoot(m);
    assert r.value in m.pool.stack;
    forall v | ValidPath(v) && v.i4 < KERNEL_HALF ensures Trace(m'.mem, r.value, LEVELS, v) == [] {
      NewRootWalk(m.mem, m.active, r.value, v);
    }
  }
}
