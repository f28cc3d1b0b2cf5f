/** Address spaces: page-table roots reached only through capability tokens, in the user window. */
module AddressSpaces {
  import opened KernelTypes
  import opened Capabilities
  import C = CapabilityHistory
  import opened PageTables
  import opened Words
  import opened Paging
  import opened VirtualMemory
  import opened MemoryRuns
  import opened HeapBlocks
  import opened HeapGrowth
  import opened GrowthCost
  import PhysicalPages

  /** The record behind an address-space object; the object's payload is its index. */
  datatype Space = Space(objectId: nat, root: nat)

  /** The rights of the token that creation returns. */
  const SPACE_RIGHTS: Rights := READ | WRITE | MAP | BIND

  /** The size of that record. */
  const SPACE_BYTES: nat := 24

  /**
   * Memory and cache, tokens, spaces, the root that was made for each address-space object, the kernel heap, and the
   * pages that the page allocator manages.
   */
  datatype Kernel = Kernel(s: System, h: C.History, spaces: seq<Space>, homes: map<nat, nat>, heap: HeapState,
                           pages: set<nat>)

  // ----- operations ----------------------------------------------------------------------------------

  function LookupSpace(k: Kernel, token: nat, required: Rights): Result<nat> {
    match CapCheck(k.h.k, token, required, OBJ_ADDRESS_SPACE)
    case Bad(s) => Bad(s)
    case Good(e) =>
      match ObjectLookup(k.h.k, e.objectId)
      case Bad(s) => Bad(s)
      case Good(o) =>
        if o.payload >= |k.spaces| || k.spaces[o.payload].objectId != e.objectId || k.spaces[o.payload].root == 0 then
          Bad(NoEnt)
        else Good(k.spaces[o.payload].root)
  }

  function MapRights(flags: nat): Rights { if flags % 2 == 1 then MAP | READ | WRITE else MAP | READ }

  function ValidateUserPage(vaddr: nat): Status {
    if !PageAligned(vaddr) then Inval
    else if vaddr < USER_BASE || vaddr > USER_TOP - PAGE_SIZE then Bounds
    else Ok
  }

  function SpaceMapPage(k: Kernel, token: nat, vaddr: nat, paddr: nat, flags: nat): (Kernel, Status) {
    match LookupSpace(k, token, MapRights(flags))
    case Bad(s) => (k, s)
    case Good(root) =>
      if ValidateUserPage(vaddr) != Ok then (k, ValidateUserPage(vaddr))
      else if !PageAligned(paddr) then (k, Inval)
      else
        (k.(s := MapStep(k.s, root, vaddr, paddr, WithUser(flags))),
         MapInRoot(k.s.m, root, vaddr, paddr, WithUser(flags)).1)
  }

  function SpaceUnmapPage(k: Kernel, token: nat, vaddr: nat): (Kernel, Status) {
    match LookupSpace(k, token, MAP | READ)
    case Bad(s) => (k, s)
    case Good(root) =>
      if ValidateUserPage(vaddr) != Ok then (k, ValidateUserPage(vaddr))
      else (k.(s := UnmapStep(k.s, root, vaddr)), UnmapInRoot(k.s.m, root, vaddr).1)
  }

  function SpaceActivate(k: Kernel, token: nat): (Kernel, Status) {
    match LookupSpace(k, token, READ)
    case Bad(s) => (k, s)
    case Good(root) => (k.(s := Step(k.s, Activate(root))), if BadRoot(root) then Inval else Ok)
  }

  function SpaceTranslate(k: Kernel, token: nat, vaddr: nat): Result<(nat, nat)> {
    match LookupSpace(k, token, READ)
    case Bad(s) => Bad(s)
    case Good(root) =>
      if ValidateUserPage(PageOf(vaddr)) != Ok then Bad(ValidateUserPage(PageOf(vaddr)))
      else Translate(k.s.m, root, vaddr)
  }

  /**
   * An allocation from the kernel heap. Growth maps pages in the active root; none of them is cached, so that
   * flushing them drops nothing (AllocatedOk).
   */
  function Allocated(k: Kernel, size: nat): Kernel {
    k.(s := System(KallocMachine(k.s.m, k.heap, size), k.s.tlb), heap := KallocBlocks(k.s.m, k.heap, size).0)
  }

  /**
   * Creation: the record comes from the heap, and goes back when no root or object can be had; a failing capability
   * leaves the space behind.
   */
  function SpaceCreateNew(k: Kernel): (Kernel, Result<nat>)
    requires C.Recorded(k.h)
  {
    var k1, ptr := Allocated(k, SPACE_BYTES), KallocBlocks(k.s.m, k.heap, SPACE_BYTES).1;
    if ptr == 0 then (k1, Bad(NoMem))
    else
      match CreateRoot(k1.s.m).1
      case Bad(s) => (k1.(heap := Kfree(k1.heap, ptr)), Bad(s))
      case Good(root) =>
        match ObjectCreate(k.h.k, OBJ_ADDRESS_SPACE, |k.spaces|).1
        case Bad(s) => (k1.(s := Step(k1.s, SpaceCreate(true)), heap := Kfree(k1.heap, ptr)), Bad(s))
        case Good(id) =>
          C.StepRecorded(k.h, C.NewObject(OBJ_ADDRESS_SPACE, |k.spaces|));
          var h := C.Step(k.h, C.NewObject(OBJ_ADDRESS_SPACE, |k.spaces|));
          var k' := k1.(s := Step(k1.s, SpaceCreate(false)), h := h, spaces := k.spaces + [Space(id, root)],
                        homes := k.homes[id := root]);
          match CapCreate(h.k, id, SPACE_RIGHTS).1
          case Bad(s) => (k', Bad(s))
          case Good(token) => (k'.(h := C.Step(h, C.NewCap(id, SPACE_RIGHTS))), Good(token))
  }

  // ----- the invariant -------------------------------------------------------------------------------------

  /** Each address-space object with a root has its record where its payload says, with that root. */
  ghost predicate HomesOk(t: Tables, spaces: seq<Space>, homes: map<nat, nat>) {
    && (forall id :: id in homes ==> HomeOk(t, spaces, id, homes[id]))
    && (forall i :: 0 <= i < |spaces| ==> spaces[i].objectId in homes)
  }

  ghost predicate HomeOk(t: Tables, spaces: seq<Space>, id: nat, root: nat) {
    var o := ObjectLookup(t, id);
    && o.Good? && o.value.kind == OBJ_ADDRESS_SPACE && o.value.payload < |spaces|
    && spaces[o.value.payload] == Space(id, root)
  }

  /** Memory, heap and tokens are consistent, no page is lost, and every space has a root of its own. */
  ghost predicate SpacesOk(k: Kernel) {
    && Consistent(k.s) && C.Recorded(k.h) && HeapOk(k.heap) && PhysicalPages.Conserved(k.s.m.pool, k.pages)
    && HomesOk(k.h.k, k.spaces, k.homes)
    && (forall i :: 0 <= i < |k.spaces| ==> IsRoot(k.s.m.mem, k.spaces[i].root))
    && (forall i, j :: 0 <= i < j < |k.spaces| ==> k.spaces[i].root != k.spaces[j].root)
  }

  // ----- what a token stands for --------------------------------------------------------------------------

  /**
   * The root that a token gives this right to, told from what was issued and revoked: the token was last issued for
   * an object that a root was made for, with the right, and not revoked since. Page 0 is no root to the kernel.
   */
  ghost function Home(k: Kernel, token: nat, right: Rights): Option<nat> {
    HomeIn(C.Latest(k.h.log, token), k.homes, right)
  }

  ghost function HomeIn(last: Option<C.Event>, homes: map<nat, nat>, right: Rights): Option<nat> {
    if right != 0 && last.Some? && last.value.Issued? && last.value.objectId in homes
       && Covers(last.value.rights, right) && homes[last.value.objectId] != 0
    then Some(homes[last.value.objectId])
    else None
  }

  /** A lookup through a token finds exactly the root that was made for its object. */
  lemma LookupMeaning(k: Kernel, token: nat, required: Rights)
    requires SpacesOk(k)
    ensures LookupSpace(k, token, required).Good? <==> Home(k, token, required).Some?
    ensures Home(k, token, required).Some? ==>
      var root := Home(k, token, required).value;
      LookupSpace(k, token, required) == Good(root) && IsRoot(k.s.m.mem, root)
  {
    hide ObjectLookup, Consistent, HeapOk, PhysicalPages.Conserved, EntryOk, C.GenAfter;
    assert C.Agrees(k.h, token);
    LookupIsSlot(k.h.k, token);
    if SlotAccepts(k.h.k, token) {
      var e := k.h.k.caps[IndexOf(token)];
      EntryObject(k.h.k, token);
      if e.objectId in k.homes {
        assert HomeOk(k.h.k, k.spaces, e.objectId, k.homes[e.objectId]);
      }
    }
  }

  lemma EntryObject(t: Tables, token: nat)
    requires TablesOk(t) && SlotAccepts(t, token)
    ensures var e := t.caps[IndexOf(token)];
      ObjectLookup(t, e.objectId).Good? && ObjectLookup(t, e.objectId).value.kind == e.kind
  {
    assert EntryOk(t, t.caps[IndexOf(token)]);
  }

  /** Two objects never share a root, so tokens of two spaces lead to two roots. */
  lemma HomesApart(k: Kernel, id: nat, other: nat)
    requires SpacesOk(k) && id in k.homes && other in k.homes && id != other
    ensures k.homes[id] != k.homes[other]
  {
    hide ObjectLookup, Consistent, HeapOk, PhysicalPages.Conserved, C.Recorded;
    assert HomeOk(k.h.k, k.spaces, id, k.homes[id]);
    assert HomeOk(k.h.k, k.spaces, other, k.homes[other]);
  }

  /** The token gives the rights to map pages, writable ones if asked. */
  ghost predicate MayMap(k: Kernel, token: nat, writable: bool) {
    && Home(k, token, MAP).Some? && Home(k, token, READ).Some?
    && (writable ==> Home(k, token, WRITE).Some?)
  }

  lemma MapRightsMeaning(k: Kernel, token: nat, flags: nat)
    ensures Home(k, token, MapRights(flags)).Some? <==> MayMap(k, token, flags % 2 == 1)
    ensures Home(k, token, MAP | READ).Some? <==> MayMap(k, token, false)
    ensures MayMap(k, token, flags % 2 == 1) ==> Home(k, token, MapRights(flags)) == Home(k, token, MAP)
    ensures MayMap(k, token, false) ==> Home(k, token, MAP | READ) == Home(k, token, MAP)
  {
    var last := C.Latest(k.h.log, token);
    if last.Some? && last.value.Issued? {
      MapBits(last.value.rights);
    }
  }

  lemma MapBits(r: Rights)
    ensures Covers(r, MAP | READ) <==> Covers(r, MAP) && Covers(r, READ)
    ensures Covers(r, MAP | READ | WRITE) <==> Covers(r, MAP) && Covers(r, READ) && Covers(r, WRITE)
  {
  }

  lemma LookedUpRoot(k: Kernel, token: nat, required: Rights)
    requires SpacesOk(k) && LookupSpace(k, token, required).Good?
    ensures IsRoot(k.s.m.mem, LookupSpace(k, token, required).value) && LookupSpace(k, token, required).value != 0
    ensures Home(k, token, required) == Some(LookupSpace(k, token, required).value)
  {
    hide LookupSpace, SpacesOk;
    LookupMeaning(k, token, required);
  }

  lemma LookupFails(k: Kernel, token: nat, required: Rights)
    ensures LookupSpace(k, token, required).Bad? ==> LookupSpace(k, token, required).error != Ok
  {
  }

  lemma ValidatedIsUser(vaddr: nat)
    ensures ValidateUserPage(vaddr) == Ok <==> UserPage(vaddr)
    ensures UserPage(vaddr) ==> Canon(vaddr) == vaddr && AcceptedAddress(vaddr) && vaddr < 0x8000_0000_0000
  {
    if UserPage(vaddr) {
      CanonFixed(vaddr);
    }
  }

  /** What a change through a token may do: one user page of the root it gives the map right to. */
  ghost predicate OnePageChanged(k: Kernel, k': Kernel, token: nat, vaddr: nat, now: Option<Mapping>) {
    var root := Home(k, token, MAP);
    && root.Some? && UserPage(vaddr)
    && AddressMap(k'.s.m.mem, root.value) ==
       (if now.Some? then AddressMap(k.s.m.mem, root.value)[vaddr := now.value]
        else AddressMap(k.s.m.mem, root.value) - {vaddr})
    && forall r :: IsRoot(k.s.m.mem, r) && r != root.value ==> AddressMap(k'.s.m.mem, r) == AddressMap(k.s.m.mem, r)
  }

  ghost predicate NoPageChanged(k: Kernel, k': Kernel) {
    forall r :: IsRoot(k.s.m.mem, r) ==> AddressMap(k'.s.m.mem, r) == AddressMap(k.s.m.mem, r)
  }

  lemma SpacesKept(k: Kernel, s: System)
    requires SpacesOk(k) && Consistent(s) && KeepsTops(k.s.m.mem, s.m.mem) && PhysicalPages.Conserved(s.m.pool, k.pages)
    ensures SpacesOk(k.(s := s))
  {
    hide Consistent, C.Recorded, HeapOk, PhysicalPages.Conserved, HomesOk;
  }

  /**
   * Mapping through a token: success adds exactly one user page to the map of the token's own root, which did
   * not have it, and needs the map, read and, for writable pages, write rights; failure changes no map.
   */
  lemma SpaceMapEffect(k: Kernel, token: nat, vaddr: nat, paddr: nat, flags: nat)
    requires SpacesOk(k)
    ensures var (k', s) := SpaceMapPage(k, token, vaddr, paddr, flags);
      && SpacesOk(k')
      && (s == Ok ==>
            && flags < 4 && MayMap(k, token, flags % 2 == 1)
            && OnePageChanged(k, k', token, vaddr, Some(Mapping(Frame(paddr), flags % 2 == 1, true)))
            && vaddr !in AddressMap(k.s.m.mem, Home(k, token, MAP).value))
      && (s != Ok ==> NoPageChanged(k, k'))
  {
    hide CapCheck, ObjectLookup, C.Recorded, AddressMap, Sound, Walk, LookupSpace, Frame, PhysicalPages.Conserved,
      HeapOk, TablesTaken, Home, HomesOk;
    var found := LookupSpace(k, token, MapRights(flags));
    LookupFails(k, token, MapRights(flags));
    MapRightsMeaning(k, token, flags);
    if found.Good? {
      LookedUpRoot(k, token, MapRights(flags));
      ValidatedIsUser(vaddr);
      if UserPage(vaddr) && PageAligned(paddr) {
        var root, f := found.value, WithUser(flags);
        StepGood(k.s, SpaceMap(root, vaddr, paddr, flags));
        MapRefines(k.s.m, root, vaddr, paddr, f);
        MapConserves(k.s.m, root, vaddr, paddr, f, k.pages);
        SpacesKept(k, MapStep(k.s, root, vaddr, paddr, f));
        forall r | IsRoot(k.s.m.mem, r) && r != root
          ensures AddressMap(MapInRoot(k.s.m, root, vaddr, paddr, f).0.mem, r) == AddressMap(k.s.m.mem, r)
        {
          UserPagesArePrivate(k.s.m, root, vaddr, paddr, f, r);
        }
        UserFlags(flags);
        MappedHere(k.s.m, root, vaddr, paddr, f);
        hide MapInRoot, SpacesOk;
      }
    }
  }

  /**
   * Exactly when mapping through a token succeeds: the rights, the window, the alignment and the flags are right, the
   * page is free in the token's own root, no large page is above it, and the pool has a page for each missing table.
   */
  lemma SpaceMapIff(k: Kernel, token: nat, vaddr: nat, paddr: nat, flags: nat)
    requires SpacesOk(k)
    ensures SpaceMapPage(k, token, vaddr, paddr, flags).1 == Ok <==>
      && MayMap(k, token, flags % 2 == 1) && UserPage(vaddr) && PageAligned(paddr) && flags < 4
      && var root, mem := Home(k, token, MAP).value, k.s.m.mem;
         && vaddr !in AddressMap(mem, root) && !Blocked(mem, root, LEVELS, PathOf(vaddr))
         && Missing(mem, root, LEVELS, PathOf(vaddr)) <= |k.s.m.pool.stack|
  {
    hide CapCheck, ObjectLookup, C.Recorded, AddressMap, Sound, LookupSpace, PhysicalPages.Conserved, HeapOk, Blocked,
      Missing, PathOf, MapInRoot, MapStep, Home, HomesOk;
    LookupFails(k, token, MapRights(flags));
    LookupMeaning(k, token, MapRights(flags));
    MapRightsMeaning(k, token, flags);
    if LookupSpace(k, token, MapRights(flags)).Good? {
      LookedUpRoot(k, token, MapRights(flags));
      ValidatedIsUser(vaddr);
      UserFlags(flags);
      var root := LookupSpace(k, token, MapRights(flags)).value;
      RootAligned(k.s.m, root);
      MapOkIff(k.s.m, root, vaddr, paddr, WithUser(flags));
    }
  }

  lemma UserFlags(flags: nat)
    ensures (WithUser(flags) < 4 <==> flags < 4) && WithUser(flags) >= 2
    ensures WithUser(flags) % 2 == flags % 2
  {
  }

  lemma MappedHere(m: Machine, root: nat, virt: nat, phys: nat, flags: nat)
    ensures MapInRoot(m, root, virt, phys, flags).1 == Ok ==> flags < 4
    ensures Shares(MapInRoot(m, root, virt, phys, flags).0.mem, root, root, PathOf(virt).i4)
  {
    hide MapPath;
  }

  /** Unmapping through a token: success removes exactly one user page from the map of the token's own root. */
  lemma SpaceUnmapEffect(k: Kernel, token: nat, vaddr: nat)
    requires SpacesOk(k)
    ensures var (k', s) := SpaceUnmapPage(k, token, vaddr);
      && SpacesOk(k')
      && (s == Ok ==>
            && OnePageChanged(k, k', token, vaddr, None)
            && vaddr in AddressMap(k.s.m.mem, Home(k, token, MAP).value))
      && (s != Ok ==> NoPageChanged(k, k'))
      && (s == Ok <==> MayMap(k, token, false) && UserPage(vaddr)
                       && vaddr in AddressMap(k.s.m.mem, Home(k, token, MAP).value))
  {
    hide CapCheck, ObjectLookup, C.Recorded, AddressMap, Sound, Walk, LookupSpace, PhysicalPages.Conserved, HeapOk,
      Home, HomesOk;
    var found := LookupSpace(k, token, MAP | READ);
    LookupFails(k, token, MAP | READ);
    LookupMeaning(k, token, MAP | READ);
    MapRightsMeaning(k, token, 0);
    if found.Good? {
      LookedUpRoot(k, token, MAP | READ);
      ValidatedIsUser(vaddr);
      if UserPage(vaddr) {
        var root := found.value;
        StepGood(k.s, SpaceUnmap(root, vaddr));
        UnmapRefines(k.s.m, root, vaddr);
        SpacesKept(k, UnmapStep(k.s, root, vaddr));
        forall r | IsRoot(k.s.m.mem, r) && r != root
          ensures AddressMap(UnmapInRoot(k.s.m, root, vaddr).0.mem, r) == AddressMap(k.s.m.mem, r)
        {
          UserPagesArePrivate(k.s.m, root, vaddr, 0, 0, r);
        }
        assert Shares(k.s.m.mem, root, root, PathOf(vaddr).i4);
        RootAligned(k.s.m, root);
        hide UnmapInRoot, SpacesOk;
      }
    }
  }

  /** Translating through a token reads the map of the token's own root, and fails exactly where it has no page. */
  lemma SpaceTranslateMeaning(k: Kernel, token: nat, vaddr: nat)
    requires SpacesOk(k)
    ensures var root, page := Home(k, token, READ), PageOf(vaddr);
      match SpaceTranslate(k, token, vaddr)
      case Good((phys, flags)) =>
        && root.Some? && UserPage(page)
        && var mapped := AddressMap(k.s.m.mem, root.value);
           && page in mapped && phys == mapped[page].phys + vaddr % 4096
           && mapped[page].writable == (flags % 2 == 1) && mapped[page].user == (flags >= 2)
      case Bad(_) => root.Some? && UserPage(page) ==> page !in AddressMap(k.s.m.mem, root.value)
  {
    hide LookupSpace, AddressMap, Translate, Home, HomesOk, C.Recorded, HeapOk, PhysicalPages.Conserved;
    LookupMeaning(k, token, READ);
    ValidatedIsUser(PageOf(vaddr));
    if LookupSpace(k, token, READ).Good? && UserPage(PageOf(vaddr)) {
      LookedUpRoot(k, token, READ);
      TranslateRefines(k.s.m, LookupSpace(k, token, READ).value, vaddr);
    }
  }

  lemma SpaceActivateOk(k: Kernel, token: nat)
    requires SpacesOk(k)
    ensures SpacesOk(SpaceActivate(k, token).0) && NoPageChanged(k, SpaceActivate(k, token).0)
    ensures SpaceActivate(k, token).1 == Ok <==> Home(k, token, READ).Some?
    ensures SpaceActivate(k, token).0.s.m.active ==
      if Home(k, token, READ).Some? then Home(k, token, READ).value else k.s.m.active
  {
    hide CapCheck, ObjectLookup, C.Recorded, Sound, Walk, LookupSpace, PhysicalPages.Conserved, HeapOk, Home, HomesOk;
    LookupFails(k, token, READ);
    LookupMeaning(k, token, READ);
    if LookupSpace(k, token, READ).Good? {
      LookedUpRoot(k, token, READ);
      RootAligned(k.s.m, LookupSpace(k, token, READ).value);
      StepGood(k.s, Activate(LookupSpace(k, token, READ).value));
      SpacesKept(k, Step(k.s, Activate(LookupSpace(k, token, READ).value)));
    }
  }

  // ----- allocation from the kernel heap ---------------------------------------------------------------------

  /** What a root maps in the user half. */
  ghost function UserMap(mem: Memory, root: nat): map<nat, Mapping> {
    map v | v in AddressMap(mem, root) && v < USER_TOP :: AddressMap(mem, root)[v]
  }

  lemma SameHalfSameMap(mem: Memory, mem': Memory, r: nat)
    requires SameUserHalf(mem, mem', r)
    ensures UserMap(mem', r) == UserMap(mem, r)
  {
    hide Walk, PathOf, Lookup;
    forall v: nat | v < USER_TOP ensures At(mem', r, v) == At(mem, r, v) {
      UserHalf(v);
      HalfLookup(mem, mem', r, PathOf(v));
    }
  }

  lemma HalfLookup(mem: Memory, mem': Memory, r: nat, p: Path)
    requires Walk(mem', r, p) == Walk(mem, r, p)
    ensures Lookup(mem', r, p) == Lookup(mem, r, p)
  {
  }

  /** The user half of every root is as it was. */
  ghost predicate SameUsers(mem: Memory, mem': Memory) {
    && (forall r :: IsRoot(mem, r) ==> IsRoot(mem', r))
    && forall r :: IsRoot(mem, r) ==> SameUserHalf(mem, mem', r)
  }

  lemma SameUsersTrans(mem: Memory, mem1: Memory, mem2: Memory)
    requires SameUsers(mem, mem1) && SameUsers(mem1, mem2)
    ensures SameUsers(mem, mem2)
  {
    hide Walk;
  }

  /** The pages that an allocation may map. */
  function GrowthPaths(heap: HeapState, size: nat): seq<Path> {
    match Requested(size)
    case None => []
    case Some(requested) => PathsIn(heap.end, CommitSize(requested) / PAGE_SIZE)
  }

  /** Only pages behind the committed heap may have changed. */
  ghost predicate OnlyHeapPages(mem: Memory, mem': Memory, paths: seq<Path>) {
    forall r, v :: IsRoot(mem, r) && ValidPath(v) && v !in paths ==> Walk(mem', r, v) == Walk(mem, r, v)
  }

  lemma HighPaths(base: nat, n: nat)
    requires KernelRange(base, n)
    ensures forall v :: v in PathsIn(base, n) ==> v.i4 >= KERNEL_HALF
  {
    hide PathOf;
    forall j | 0 <= j < n ensures PathsIn(base, n)[j].i4 >= KERNEL_HALF {
      KernelHalfPath(PageAt(base, j));
    }
  }

  /** Growth keeps everything consistent, in every root maps only pages behind the heap, and never a user page. */
  lemma GrowthConsistent(s: System, base: nat, n: nat, pages: set<nat>)
    requires Consistent(s) && PhysicalPages.Conserved(s.m.pool, pages) && KernelRange(base, n)
    ensures var m := GrowFrom(s.m, base, 0, n).0;
      && Consistent(System(m, s.tlb)) && KeepsTops(s.m.mem, m.mem) && PhysicalPages.Conserved(m.pool, pages)
      && OnlyHeapPages(s.m.mem, m.mem, PathsIn(base, n)) && SameUsers(s.m.mem, m.mem) && m.active == s.m.active
  {
    hide Sound, PhysicalPages.Conserved, GrowFrom, PathsIn, KernelRange, PathsOf, Held, Walk, Extra, Coherent,
      OnlyHeapPages, SameUsers, KeepsTops;
    var paths, qs := GrowthOutcome(s.m, base, n, pages);
    HighPaths(base, n);
    var m := GrowFrom(s.m, base, 0, n).0;
    ExtraElsewhere(s.m, m, paths, qs);
    ExtraCoherent(s, m, paths, qs);
  }

  lemma ExtraElsewhere(m0: Machine, m: Machine, paths: seq<Path>, qs: seq<nat>)
    requires Extra(m0, m, paths, qs) && forall v :: v in paths ==> v.i4 >= KERNEL_HALF
    ensures KeepsTops(m0.mem, m.mem) && OnlyHeapPages(m0.mem, m.mem, paths) && SameUsers(m0.mem, m.mem)
  {
    hide Walk, Shares, Lookup;
    assert forall v :: v in paths[..|qs|] ==> v in paths;
  }

  lemma ExtraCoherent(s: System, m: Machine, paths: seq<Path>, qs: seq<nat>)
    requires Coherent(s) && Extra(s.m, m, paths, qs) && m.active == s.m.active
    ensures Coherent(System(m, s.tlb))
  {
    hide Walk, Lookup;
    forall p | p in s.tlb ensures ValidPath(p) && Walk(m.mem, m.active, p) == Some(s.tlb[p]) {
      SharesItself(s.m.mem, s.m.active, p.i4);
    }
  }

  lemma AllocatedOk(k: Kernel, size: nat)
    requires SpacesOk(k)
    ensures SpacesOk(Allocated(k, size))
    ensures OnlyHeapPages(k.s.m.mem, Allocated(k, size).s.m.mem, GrowthPaths(k.heap, size))
    ensures SameUsers(k.s.m.mem, Allocated(k, size).s.m.mem) && Allocated(k, size).s.m.active == k.s.m.active
    ensures forall p :: p in k.s.tlb ==>
      Walk(Allocated(k, size).s.m.mem, k.s.m.active, p) == Walk(k.s.m.mem, k.s.m.active, p)
  {
    hide Consistent, C.Recorded, PhysicalPages.Conserved, Requested, CommitSize, GrowFrom, CanExtend, HeapOk, Kalloc,
      Walk, FirstFit, RoomFor;
    HeapStays(k, size);
    if Requested(size).Some? {
      var requested := Requested(size).value;
      if RoomFor(k.heap, requested) {
        CommitRange(k.heap, requested);
        GrowthConsistent(k.s, k.heap.end, CommitSize(requested) / PAGE_SIZE, k.pages);
      }
    }
    SpacesKept(k, Allocated(k, size).s);
    CachedStay(k.s, Allocated(k, size).s);
  }

  /** Under one coherent cache the cached walks are the same. */
  lemma CachedStay(s: System, t: System)
    requires Consistent(s) && Consistent(t) && t.tlb == s.tlb && t.m.active == s.m.active
    ensures forall p :: p in s.tlb ==> Walk(t.m.mem, s.m.active, p) == Walk(s.m.mem, s.m.active, p)
  {
  }

  lemma HeapStays(k: Kernel, size: nat)
    requires HeapOk(k.heap)
    ensures HeapOk(KallocBlocks(k.s.m, k.heap, size).0)
  {
    hide CanExtend;
    var n := KallocOk(k.heap, size, Requested(size).Some? && CanExtend(k.s.m, k.heap, Requested(size).value));
  }

  /** Releasing heap memory touches no table. */
  lemma FreedOk(k: Kernel, ptr: nat)
    requires SpacesOk(k)
    ensures SpacesOk(k.(heap := Kfree(k.heap, ptr)))
  {
    hide Consistent, C.Recorded, PhysicalPages.Conserved, HeapOk, HomesOk;
    KfreeOk(k.heap, ptr);
  }

  // ----- creating a space ---------------------------------------------------------------------------------------

  /** A new root: no user pages, a root nobody had, and no walk of another root changed. */
  lemma CreatedRoot(s: System, full: bool, pages: set<nat>)
    requires Consistent(s) && CreateRoot(s.m).1.Good? && PhysicalPages.Conserved(s.m.pool, pages)
    ensures var root, t := CreateRoot(s.m).1.value, Step(s, SpaceCreate(full));
      && !IsRoot(s.m.mem, root) && (!full ==> IsRoot(t.m.mem, root) && UserMap(t.m.mem, root) == map[])
      && Consistent(t) && KeepsTops(s.m.mem, t.m.mem) && PhysicalPages.Conserved(t.m.pool, pages)
      && OnlyHeapPages(s.m.mem, t.m.mem, []) && SameUsers(s.m.mem, t.m.mem)
  {
    assert IsRoot(s.m.mem, s.m.active);
    hide Sound, Walk, DropRoot, PhysicalPages.Conserved, Coherent, RootTable, UserMap;
    var (m, r) := CreateRoot(s.m);
    CreateRootEffect(s.m);
    SpaceCreateGood(s, full);
    CreatedConserved(s.m, full, pages);
    if full {
      DropRootEffect(m, r.value);
    } else {
      EmptyUserMap(m.mem, r.value);
    }
  }

  lemma EmptyUserMap(mem: Memory, root: nat)
    requires forall v :: ValidPath(v) && v.i4 < KERNEL_HALF ==> Walk(mem, root, v) == None
    ensures UserMap(mem, root) == map[]
  {
    hide Walk, PathOf;
    forall v: nat | v < USER_TOP ensures At(mem, root, v) == None {
      UserHalf(v);
    }
  }

  lemma CreatedConserved(m: Machine, full: bool, pages: set<nat>)
    requires Sound(m) && PhysicalPages.Conserved(m.pool, pages)
    ensures PhysicalPages.Conserved(Step(System(m, map[]), SpaceCreate(full)).m.pool, pages)
  {
    hide PhysicalPages.Conserved, Sound, RootTable, PhysicalPages.Free, PageAligned;
    TopPage(m);
    PhysicalPages.AllocConserves(m.pool, pages);
    var (m1, r) := CreateRoot(m);
    if r.Good? && full {
      PhysicalPages.FreeConserves(m1.pool, pages, r.value);
    }
  }

  /** The user map of every root is as it was, and outside the pages behind the heap so is every walk. */
  ghost predicate OnlyKernelHeap(k: Kernel, k': Kernel) {
    && OnlyHeapPages(k.s.m.mem, k'.s.m.mem, GrowthPaths(k.heap, SPACE_BYTES))
    && SameUsers(k.s.m.mem, k'.s.m.mem)
  }

  /**
   * A new space starts with no user pages and gets a root no other space has. The user half of every other root
   * stays as it was; in the kernel half only pages behind the heap may have been mapped, for the space's record.
   */
  lemma SpaceCreateOk(k: Kernel)
    requires SpacesOk(k)
    ensures SpacesOk(SpaceCreateNew(k).0) && OnlyKernelHeap(k, SpaceCreateNew(k).0)
    ensures SpaceCreateNew(k).1.Good? ==>
      var k' := SpaceCreateNew(k).0;
      |k'.spaces| == |k.spaces| + 1 && UserMap(k'.s.m.mem, k'.spaces[|k.spaces|].root) == map[]
  {
    hide CapCheck, ObjectLookup, C.Recorded, Consistent, Walk, ObjectCreate, CapCreate, C.Step, CreateRoot,
      PhysicalPages.Conserved, HeapOk, Kfree, Allocated, GrowthPaths, KallocBlocks, Step, UserMap, KeepsTops;
    AllocatedOk(k, SPACE_BYTES);
    C.RecordedShape(k.h);
    AllocatedKeeps(k);
    var k1, ptr := Allocated(k, SPACE_BYTES), KallocBlocks(k.s.m, k.heap, SPACE_BYTES).1;
    FreedOk(k1, ptr);
    if ptr != 0 && CreateRoot(k1.s.m).1.Good? {
      var root, o := CreateRoot(k1.s.m).1.value, ObjectCreate(k.h.k, OBJ_ADDRESS_SPACE, |k.spaces|).1;
      CreatedRoot(k1.s, o.Bad?, k.pages);
      AfterAllocated(k, k1, Step(k1.s, SpaceCreate(o.Bad?)));
      if o.Bad? {
        SpacesKept(k1, Step(k1.s, SpaceCreate(true)));
        FreedOk(k1.(s := Step(k1.s, SpaceCreate(true))), ptr);
      } else {
        C.StepRecorded(k.h, C.NewObject(OBJ_ADDRESS_SPACE, |k.spaces|));
        var h := C.Step(k.h, C.NewObject(OBJ_ADDRESS_SPACE, |k.spaces|));
        C.RecordedShape(h);
        C.ObjectMade(k.h, OBJ_ADDRESS_SPACE, |k.spaces|);
        C.ObjectsStay(k.h, C.NewObject(OBJ_ADDRESS_SPACE, |k.spaces|));
        SpaceAdded(k1, Step(k1.s, SpaceCreate(false)), h, Space(o.value, root));
        C.StepRecorded(h, C.NewCap(o.value, SPACE_RIGHTS));
        C.ObjectsStay(h, C.NewCap(o.value, SPACE_RIGHTS));
        HomesStay(h.k, C.Step(h, C.NewCap(o.value, SPACE_RIGHTS)).k, k.spaces + [Space(o.value, root)],
          k.homes[o.value := root]);
      }
    }
  }

  /**
   * The token that creation returns gives each of its rights to the new root, a page that no root was before; what
   * every other token stands for stays as it was.
   */
  lemma CreatedToken(k: Kernel, t: nat, right: Rights)
    requires SpacesOk(k)
    ensures var (k', r) := SpaceCreateNew(k);
      && (r != Good(t) ==> Home(k', t, right) == Home(k, t, right))
      && (r == Good(t) ==>
            && |k'.spaces| == |k.spaces| + 1
            && var root := k'.spaces[|k.spaces|].root;
               && IsRoot(k'.s.m.mem, root) && !IsRoot(k.s.m.mem, root)
               && (right == READ || right == WRITE || right == MAP || right == BIND ==>
                     Home(k', t, right) == if root != 0 then Some(root) else None))
  {
    hide SpacesOk, ObjectLookup, C.Recorded, ObjectCreate, CapCreate, C.Step, SpaceCreateNew, C.Latest, HomeIn, Covers;
    HomesKnown(k);
    var (k', r) := SpaceCreateNew(k);
    CreatedHistory(k);
    FourRights();
    if |k'.spaces| == |k.spaces| + 1 {
      NewSpaceToken(k.h, k.homes, |k.spaces|, k'.spaces[|k.spaces|].root, t, right);
    }
    if r.Good? {
      FreshRoot(k);
    }
  }

  lemma FourRights()
    ensures Covers(SPACE_RIGHTS, READ) && Covers(SPACE_RIGHTS, WRITE)
    ensures Covers(SPACE_RIGHTS, MAP) && Covers(SPACE_RIGHTS, BIND)
  {
  }

  lemma HomesKnown(k: Kernel)
    requires SpacesOk(k)
    ensures C.Recorded(k.h) && |k.h.k.objects| == |k.h.k.objectGens|
    ensures forall id :: id in k.homes ==> ObjectLookup(k.h.k, id).Good?
  {
    hide ObjectLookup, Consistent, HeapOk, PhysicalPages.Conserved;
    forall id | id in k.homes ensures ObjectLookup(k.h.k, id).Good? {
      assert HomeOk(k.h.k, k.spaces, id, k.homes[id]);
    }
  }

  /**
   * Creation succeeds exactly if the heap can serve the record, a page is left for the root after that, and an object
   * slot and a token slot are free.
   */
  lemma SpaceCreateIff(k: Kernel)
    requires SpacesOk(k)
    ensures SpaceCreateNew(k).1.Good? <==>
      && KallocBlocks(k.s.m, k.heap, 24).1 != 0 && KallocMachine(k.s.m, k.heap, 24).pool.stack != []
      && FreeObjectSlot(k.h.k) && FreeCapSlot(k.h.k)
  {
    hide ObjectLookup, C.Recorded, Consistent, HeapOk, PhysicalPages.Conserved, ObjectCreate, CapCreate, C.Step, Kfree,
      CreateRoot, KallocBlocks, KallocMachine, Step, HomesOk, FreeObjectSlot, FreeCapSlot, OnlyHeapPages, SameUsers;
    AllocatedOk(k, SPACE_BYTES);
    C.RecordedShape(k.h);
    RootIff(Allocated(k, SPACE_BYTES).s);
    ObjectCreateIff(k.h.k, OBJ_ADDRESS_SPACE, |k.spaces|);
    var n, o := |k.spaces|, ObjectCreate(k.h.k, OBJ_ADDRESS_SPACE, |k.spaces|).1;
    if o.Good? {
      SpaceTokenIff(k.h, n);
    }
  }

  lemma RootIff(s: System)
    requires Consistent(s)
    ensures CreateRoot(s.m).1.Good? <==> s.m.pool.stack != []
  {
    CreateRootEffect(s.m);
  }

  lemma SpaceTokenIff(h: C.History, n: nat)
    requires C.Recorded(h)
    ensures |h.k.objects| == |h.k.objectGens|
    ensures var o, h1 := ObjectCreate(h.k, OBJ_ADDRESS_SPACE, n).1, C.Step(h, C.NewObject(OBJ_ADDRESS_SPACE, n));
      && C.Recorded(h1) && |h1.k.caps| == |h1.k.capGens|
      && (o.Good? ==> (CapCreate(h1.k, o.value, SPACE_RIGHTS).1.Good? <==> FreeCapSlot(h.k)))
  {
    var o, h1 := ObjectCreate(h.k, OBJ_ADDRESS_SPACE, n).1, C.Step(h, C.NewObject(OBJ_ADDRESS_SPACE, n));
    C.StepRecorded(h, C.NewObject(OBJ_ADDRESS_SPACE, n));
    C.ObjectMade(h, OBJ_ADDRESS_SPACE, n);
    C.RecordedShape(h1);
    assert h1.k.caps == h.k.caps;
    hide ObjectLookup, C.Recorded;
    if o.Good? {
      CapCreateIff(h1.k, o.value, SPACE_RIGHTS);
    }
  }

  /** An allocation adds one range of at least the size to the heap's live ranges, or leaves them as they were. */
  lemma AllocatedRange(k: Kernel, size: nat) returns (n: nat)
    requires SpacesOk(k)
    ensures var ptr, h := KallocBlocks(k.s.m, k.heap, size).1, Allocated(k, size).heap;
      && HeapOk(h) && (ptr == 0 ==> h == k.heap)
      && (ptr != 0 ==> n >= size && AddsRange(Live(k.heap.blocks), Live(h.blocks), ptr, n, h.end))
  {
    hide HeapOk, Live, Requested, CanExtend;
    n := KallocOk(k.heap, size, Requested(size).Some? && CanExtend(k.s.m, k.heap, Requested(size).value));
  }

  /**
   * Creation leaks nothing: if it makes no space, every live range and, once the heap has grown, every free page is
   * still there; if it makes one, it keeps one range for the record and one page for the root.
   */
  lemma SpaceCreateKeeps(k: Kernel) returns (ptr: nat, n: nat)
    requires SpacesOk(k)
    ensures var k', grown := SpaceCreateNew(k).0, Allocated(k, SPACE_BYTES);
      var made := |k'.spaces| > |k.spaces|;
      && |k'.s.m.pool.stack| + (if made then 1 else 0) == |grown.s.m.pool.stack|
      && (made ==> n >= 24 && AddsRange(Live(k.heap.blocks), Live(k'.heap.blocks), ptr, n, k'.heap.end))
      && (!made ==> Live(k'.heap.blocks) == Live(k.heap.blocks))
  {
    hide ObjectLookup, C.Recorded, Consistent, ObjectCreate, CapCreate, C.Step, CreateRoot, Kfree, Allocated, HomesOk,
      PhysicalPages.Conserved, HeapOk, KallocBlocks, Step, Live, OnlyHeapPages, SameUsers, UserMap;
    C.RecordedShape(k.h);
    AllocatedKeeps(k);
    AllocatedOk(k, SPACE_BYTES);
    ptr := KallocBlocks(k.s.m, k.heap, SPACE_BYTES).1;
    n := AllocatedRange(k, SPACE_BYTES);
    var k1 := Allocated(k, SPACE_BYTES);
    if ptr != 0 {
      GivenBack(k.heap, k1.heap, ptr, n);
      RootTaken(k1.s, true, k.pages);
      RootTaken(k1.s, false, k.pages);
    }
  }

  /** Freeing the range that was just added leaves the live ranges of before. */
  lemma GivenBack(h: HeapState, h': HeapState, ptr: nat, n: nat)
    requires HeapOk(h') && n > 0 && AddsRange(Live(h.blocks), Live(h'.blocks), ptr, n, h'.end)
    requires HeapOk(h)
    ensures Live(Kfree(h', ptr).blocks) == Live(h.blocks)
  {
    KfreeOk(h', ptr);
    forall l | l in Live(h.blocks) ensures l.0 != ptr {
      LiveHasBytes(h, l);
    }
    hide HeapOk, Kfree;
    assert forall l :: l in Live(Kfree(h', ptr).blocks) <==> l in Live(h.blocks);
  }

  lemma LiveHasBytes(h: HeapState, l: (nat, nat))
    requires HeapOk(h) && l in Live(h.blocks)
    ensures l.1 > 0
  {
  }

  /** A new root costs one page of the pool, and none if it is given back. */
  lemma RootTaken(s: System, full: bool, pages: set<nat>)
    requires Consistent(s) && PhysicalPages.Conserved(s.m.pool, pages)
    ensures var t := Step(s, SpaceCreate(full));
      |t.m.pool.stack| == if CreateRoot(s.m).1.Good? && !full then |s.m.pool.stack| - 1 else |s.m.pool.stack|
  {
    hide PhysicalPages.Conserved, Sound, RootTable, PageAligned, Coherent;
    TopPage(s.m);
    PhysicalPages.AllocConserves(s.m.pool, pages);
    var (m1, r) := CreateRoot(s.m);
    if r.Good? && full {
      PhysicalPages.FreeConserves(m1.pool, pages, r.value);
      assert PhysicalPages.Free(m1.pool, r.value).1 == Ok;
    }
  }

  /** What creation does to tokens, records and homes. */
  lemma CreatedHistory(k: Kernel)
    requires C.Recorded(k.h)
    ensures |k.h.k.objects| == |k.h.k.objectGens|
    ensures var (k', r) := SpaceCreateNew(k);
      var n, o := |k.spaces|, ObjectCreate(k.h.k, OBJ_ADDRESS_SPACE, |k.spaces|).1;
      if |k'.spaces| == n then r.Bad? && k'.h == k.h && k'.homes == k.homes
      else
        && |k'.spaces| == n + 1 && o.Good? && k'.homes == k.homes[o.value := k'.spaces[n].root]
        && var h := C.Step(k.h, C.NewObject(OBJ_ADDRESS_SPACE, n));
           && |h.k.caps| == |h.k.capGens| && |h.k.objects| == |h.k.objectGens|
           && r == CapCreate(h.k, o.value, SPACE_RIGHTS).1
           && k'.h == if r.Good? then C.Step(h, C.NewCap(o.value, SPACE_RIGHTS)) else h
  {
    hide ObjectLookup, C.Recorded, ObjectCreate, CapCreate, C.Step, CreateRoot, Kfree, Allocated, KallocBlocks, Step;
    C.RecordedShape(k.h);
    AllocatedKeeps(k);
    C.StepRecorded(k.h, C.NewObject(OBJ_ADDRESS_SPACE, |k.spaces|));
    C.RecordedShape(C.Step(k.h, C.NewObject(OBJ_ADDRESS_SPACE, |k.spaces|)));
  }

  lemma FreshRoot(k: Kernel)
    requires SpacesOk(k) && SpaceCreateNew(k).1.Good?
    ensures var k' := SpaceCreateNew(k).0;
      && |k'.spaces| == |k.spaces| + 1
      && IsRoot(k'.s.m.mem, k'.spaces[|k.spaces|].root) && !IsRoot(k.s.m.mem, k'.spaces[|k.spaces|].root)
  {
    hide ObjectLookup, C.Recorded, Consistent, Walk, ObjectCreate, CapCreate, C.Step, CreateRoot, UserMap,
      PhysicalPages.Conserved, HeapOk, Kfree, Allocated, GrowthPaths, KallocBlocks, Step, HomesOk;
    C.RecordedShape(k.h);
    AllocatedOk(k, SPACE_BYTES);
    AllocatedKeeps(k);
    CreatedRoot(Allocated(k, SPACE_BYTES).s, false, k.pages);
  }

  /** What a token stands for after an object with a root was made, and after a token for it was minted. */
  lemma NewSpaceToken(h: C.History, homes: map<nat, nat>, n: nat, root: nat, t: nat, right: Rights)
    requires C.Recorded(h) && |h.k.objects| == |h.k.objectGens|
    requires ObjectCreate(h.k, OBJ_ADDRESS_SPACE, n).1.Good?
    requires forall id :: id in homes ==> ObjectLookup(h.k, id).Good?
    ensures var id := ObjectCreate(h.k, OBJ_ADDRESS_SPACE, n).1.value;
      var h1, homes' := C.Step(h, C.NewObject(OBJ_ADDRESS_SPACE, n)), homes[id := root];
      && |h1.k.objects| == |h1.k.objectGens| && |h1.k.caps| == |h1.k.capGens|
      && HomeIn(C.Latest(h1.log, t), homes', right) == HomeIn(C.Latest(h.log, t), homes, right)
      && var r, h2 := CapCreate(h1.k, id, SPACE_RIGHTS).1, C.Step(h1, C.NewCap(id, SPACE_RIGHTS));
         r.Good? ==>
           HomeIn(C.Latest(h2.log, t), homes', right) ==
             if t != r.value then HomeIn(C.Latest(h.log, t), homes, right)
             else if right != 0 && Covers(SPACE_RIGHTS, right) && root != 0 then Some(root)
             else None
  {
    var id := ObjectCreate(h.k, OBJ_ADDRESS_SPACE, n).1.value;
    var h1 := C.Step(h, C.NewObject(OBJ_ADDRESS_SPACE, n));
    assert h1.log == h.log;
    C.ObjectMade(h, OBJ_ADDRESS_SPACE, n);
    C.StepRecorded(h, C.NewObject(OBJ_ADDRESS_SPACE, n));
    C.RecordedShape(h1);
    hide ObjectLookup, C.Recorded, ObjectCreate, CapCreate, C.Step, C.Latest, Covers;
    if C.Latest(h.log, t).Some? && C.Latest(h.log, t).value.Issued? {
      C.IssuedNamesObject(h, t);
    }
    if CapCreate(h1.k, id, SPACE_RIGHTS).1.Good? {
      C.MintedLog(h1, id, SPACE_RIGHTS);
    }
  }

  lemma AllocatedKeeps(k: Kernel)
    ensures var k1 := Allocated(k, SPACE_BYTES);
      k1.h == k.h && k1.spaces == k.spaces && k1.homes == k.homes && k1.pages == k.pages
  {
  }

  lemma AfterAllocated(k: Kernel, k1: Kernel, s: System)
    requires OnlyHeapPages(k.s.m.mem, k1.s.m.mem, GrowthPaths(k.heap, SPACE_BYTES)) && SameUsers(k.s.m.mem, k1.s.m.mem)
    requires OnlyHeapPages(k1.s.m.mem, s.m.mem, []) && SameUsers(k1.s.m.mem, s.m.mem)
    ensures OnlyHeapPages(k.s.m.mem, s.m.mem, GrowthPaths(k.heap, SPACE_BYTES)) && SameUsers(k.s.m.mem, s.m.mem)
  {
    hide Walk, GrowthPaths;
    SameUsersTrans(k.s.m.mem, k1.s.m.mem, s.m.mem);
  }

  lemma SpaceAdded(k: Kernel, s: System, h: C.History, space: Space)
    requires SpacesOk(k) && Consistent(s) && KeepsTops(k.s.m.mem, s.m.mem) && C.Recorded(h)
    requires IsRoot(s.m.mem, space.root) && !IsRoot(k.s.m.mem, space.root) && PhysicalPages.Conserved(s.m.pool, k.pages)
    requires forall id :: ObjectLookup(k.h.k, id).Good? ==> ObjectLookup(h.k, id) == ObjectLookup(k.h.k, id)
    requires ObjectLookup(k.h.k, space.objectId).Bad? && ObjectLookup(h.k, space.objectId).Good?
    requires ObjectLookup(h.k, space.objectId).value.kind == OBJ_ADDRESS_SPACE
    requires ObjectLookup(h.k, space.objectId).value.payload == |k.spaces|
    ensures SpacesOk(k.(s := s, h := h, spaces := k.spaces + [space], homes := k.homes[space.objectId := space.root]))
  {
    hide Consistent, C.Recorded, HeapOk, PhysicalPages.Conserved, ObjectLookup;
    var spaces, homes := k.spaces + [space], k.homes[space.objectId := space.root];
    forall id | id in homes ensures HomeOk(h.k, spaces, id, homes[id]) {
      if id != space.objectId {
        assert HomeOk(k.h.k, k.spaces, id, k.homes[id]);
      }
    }
  }

  // ----- every run ----------------------------------------------------------------------------------------------

  /** Calls through tokens, capability operations, heap memory, and the memory operations of the kernel itself. */
  datatype SpaceOp =
    | MapOp(token: nat, vaddr: nat, paddr: nat, flags: nat)
    | UnmapOp(token: nat, vaddr: nat)
    | ActivateOp(token: nat)
    | CreateOp
    | CapOp(op: C.Op)
    | AllocOp(size: nat)
    | FreeOp(ptr: nat)
    | KernelOp(step: Op)

  /**
   * The kernel itself maps and unmaps only kernel pages, under their canonical address, gives back no page in
   * use as a table, and leaves address spaces and the active root to the calls through tokens.
   */
  predicate Admitted(k: Kernel, op: SpaceOp) {
    match op
    case KernelOp(MapPage(virt, _, _)) => PathOf(virt).i4 >= KERNEL_HALF
    case KernelOp(UnmapPage(virt)) => PathOf(virt).i4 >= KERNEL_HALF && Canonical(virt)
    case KernelOp(GivePage(phys)) => phys !in k.s.m.mem && phys < PHYS_END
    case KernelOp(o) => o.Fill? || o.Evict? || o.TakePage?
    case _ => true
  }

  ghost function SpaceStep(k: Kernel, op: SpaceOp): Kernel
    requires SpacesOk(k)
  {
    match op
    case MapOp(token, vaddr, paddr, flags) => SpaceMapPage(k, token, vaddr, paddr, flags).0
    case UnmapOp(token, vaddr) => SpaceUnmapPage(k, token, vaddr).0
    case ActivateOp(token) => SpaceActivate(k, token).0
    case CreateOp => SpaceCreateNew(k).0
    case CapOp(o) => k.(h := C.Step(k.h, o))
    case AllocOp(size) => Allocated(k, size)
    case FreeOp(ptr) => k.(heap := Kfree(k.heap, ptr))
    case KernelOp(o) => k.(s := Step(k.s, o))
  }

  /** The step maps or unmaps through a token in force, with the map right, for this root. */
  ghost predicate Reaches(k: Kernel, op: SpaceOp, root: nat) {
    match op
    case MapOp(token, _, _, flags) => MayMap(k, token, flags % 2 == 1) && Home(k, token, MAP) == Some(root)
    case UnmapOp(token, _) => MayMap(k, token, false) && Home(k, token, MAP) == Some(root)
    case _ => false
  }

  lemma KernelOpConserves(s: System, op: Op, pages: set<nat>)
    requires Consistent(s) && Allowed(s, op) && PhysicalPages.Conserved(s.m.pool, pages)
    requires op.MapPage? || op.UnmapPage? || op.TakePage? || op.GivePage? || op.Fill? || op.Evict?
    ensures PhysicalPages.Conserved(Step(s, op).m.pool, pages)
  {
    hide PhysicalPages.Conserved, TablesTaken;
    match op {
      case MapPage(virt, phys, flags) => MapConserves(s.m, s.m.active, virt, phys, flags, pages);
      case UnmapPage(virt) => UnmapRefines(s.m, s.m.active, virt);
      case TakePage => PhysicalPages.AllocConserves(s.m.pool, pages);
      case GivePage(phys) => PhysicalPages.FreeConserves(s.m.pool, pages, phys);
      case _ =>
    }
  }

  lemma KernelOpOk(k: Kernel, o: Op)
    requires SpacesOk(k) && Admitted(k, KernelOp(o))
    ensures SpacesOk(k.(s := Step(k.s, o))) && SameUsers(k.s.m.mem, Step(k.s, o).m.mem)
  {
    hide Consistent, C.Recorded, HeapOk, PhysicalPages.Conserved, Step, PathOf, Walk, Canonical;
    StepGood(k.s, o);
    KernelOpConserves(k.s, o, k.pages);
    SpacesKept(k, Step(k.s, o));
    forall r | IsRoot(k.s.m.mem, r) ensures SameUserHalf(k.s.m.mem, Step(k.s, o).m.mem, r) {
      StepPrivate(k.s, o, r);
    }
  }

  /** Mapping or unmapping through a token leaves the user map of every other root alone. */
  lemma OtherRootsKept(k: Kernel, op: SpaceOp, root: nat)
    requires SpacesOk(k) && (op.MapOp? || op.UnmapOp?) && IsRoot(k.s.m.mem, root) && !Reaches(k, op, root)
    ensures SpacesOk(SpaceStep(k, op)) && AddressMap(SpaceStep(k, op).s.m.mem, root) == AddressMap(k.s.m.mem, root)
  {
    hide AddressMap, LookupSpace, SpacesOk, Home;
    match op {
      case MapOp(token, vaddr, paddr, flags) => SpaceMapEffect(k, token, vaddr, paddr, flags);
      case UnmapOp(token, vaddr) => SpaceUnmapEffect(k, token, vaddr);
    }
  }

  lemma SpaceStepOk(k: Kernel, op: SpaceOp)
    requires SpacesOk(k) && Admitted(k, op)
    ensures SpacesOk(SpaceStep(k, op))
  {
    hide SpacesOk, SpaceMapPage, SpaceUnmapPage, SpaceActivate, SpaceCreateNew, Allocated, Kfree, Step;
    match op {
      case MapOp(token, vaddr, paddr, flags) => SpaceMapEffect(k, token, vaddr, paddr, flags);
      case UnmapOp(token, vaddr) => SpaceUnmapEffect(k, token, vaddr);
      case ActivateOp(token) => SpaceActivateOk(k, token);
      case CreateOp => SpaceCreateOk(k);
      case CapOp(o) => CapOpOk(k, o);
      case AllocOp(size) => AllocatedOk(k, size);
      case FreeOp(ptr) => FreedOk(k, ptr);
      case KernelOp(o) => KernelOpOk(k, o);
    }
  }

  lemma CapOpOk(k: Kernel, o: C.Op)
    requires SpacesOk(k)
    ensures SpacesOk(k.(h := C.Step(k.h, o)))
  {
    C.RecordedShape(k.h);
    C.StepRecorded(k.h, o);
    hide Consistent, C.Recorded, HeapOk, PhysicalPages.Conserved, C.Step, HomesOk;
    C.ObjectsStay(k.h, o);
    HomesStay(k.h.k, C.Step(k.h, o).k, k.spaces, k.homes);
  }

  lemma HomesStay(t: Tables, t': Tables, spaces: seq<Space>, homes: map<nat, nat>)
    requires HomesOk(t, spaces, homes)
    requires forall id :: ObjectLookup(t, id).Good? ==> ObjectLookup(t', id) == ObjectLookup(t, id)
    ensures HomesOk(t', spaces, homes)
  {
    hide ObjectLookup;
    forall id | id in homes ensures HomeOk(t', spaces, id, homes[id]) {
      assert HomeOk(t, spaces, id, homes[id]);
    }
  }

  /** Whatever happens, roots stay roots. */
  lemma StepRoots(k: Kernel, op: SpaceOp, root: nat)
    requires SpacesOk(k) && Admitted(k, op) && IsRoot(k.s.m.mem, root)
    ensures IsRoot(SpaceStep(k, op).s.m.mem, root)
  {
    hide CapCheck, ObjectLookup, C.Recorded, Sound, Walk, LookupSpace, C.Step, SpaceCreateNew, Allocated, SameUserHalf,
      Step, Shares, PathOf, PhysicalPages.Conserved, HeapOk, Coherent, Kfree;
    match op {
      case MapOp(token, vaddr, paddr, flags) =>
        var found := LookupSpace(k, token, MapRights(flags));
        if found.Good? {
          LookedUpRoot(k, token, MapRights(flags));
          MapStepGood(k.s, found.value, vaddr, paddr, WithUser(flags));
        }
      case UnmapOp(token, vaddr) =>
        var found := LookupSpace(k, token, MAP | READ);
        if found.Good? {
          LookedUpRoot(k, token, MAP | READ);
          UnmapStepGood(k.s, found.value, vaddr);
        }
      case ActivateOp(token) => ActivateKeepsTables(k, token);
      case CreateOp => SpaceCreateOk(k);
      case AllocOp(size) => AllocatedOk(k, size);
      case KernelOp(o) => KernelOpOk(k, o);
      case _ =>
    }
  }

  lemma ActivateKeepsTables(k: Kernel, token: nat)
    ensures SpaceActivate(k, token).0.s.m.mem == k.s.m.mem
  {
  }

  /** One step: the user map of a root that it does not reach stays as it was. */
  lemma StepKeepsUser(k: Kernel, op: SpaceOp, root: nat)
    requires SpacesOk(k) && Admitted(k, op) && IsRoot(k.s.m.mem, root) && !Reaches(k, op, root)
    ensures UserMap(SpaceStep(k, op).s.m.mem, root) == UserMap(k.s.m.mem, root)
  {
    hide SpacesOk, SpaceMapPage, SpaceUnmapPage, SpaceActivate, SpaceCreateNew, Allocated, Step, Reaches, LookupSpace,
      AddressMap, Kfree, SameUserHalf, OnlyHeapPages, C.Step;
    match op {
      case MapOp(_, _, _, _) => OtherRootsKept(k, op, root);
      case UnmapOp(_, _) => OtherRootsKept(k, op, root);
      case ActivateOp(token) => ActivateKeepsTables(k, token);
      case CreateOp =>
        SpaceCreateOk(k);
        SameHalfSameMap(k.s.m.mem, SpaceStep(k, op).s.m.mem, root);
      case AllocOp(size) =>
        AllocatedOk(k, size);
        SameHalfSameMap(k.s.m.mem, Allocated(k, size).s.m.mem, root);
      case KernelOp(o) =>
        KernelOpOk(k, o);
        SameHalfSameMap(k.s.m.mem, Step(k.s, o).m.mem, root);
      case _ =>
    }
  }

  ghost predicate AllAdmitted(k: Kernel, ops: seq<SpaceOp>)
    requires SpacesOk(k)
    decreases ops
  {
    ops == [] || (Admitted(k, ops[0]) && (SpaceStepOk(k, ops[0]); AllAdmitted(SpaceStep(k, ops[0]), ops[1..])))
  }

  ghost predicate NoneReaches(k: Kernel, ops: seq<SpaceOp>, root: nat)
    requires SpacesOk(k) && AllAdmitted(k, ops)
    decreases ops
  {
    ops == []
    || (!Reaches(k, ops[0], root) && (SpaceStepOk(k, ops[0]); NoneReaches(SpaceStep(k, ops[0]), ops[1..], root)))
  }

  ghost function RunSpaces(k: Kernel, ops: seq<SpaceOp>): (r: Kernel)
    requires SpacesOk(k) && AllAdmitted(k, ops)
    ensures SpacesOk(r)
    decreases ops
  {
    if ops == [] then k else (SpaceStepOk(k, ops[0]); RunSpaces(SpaceStep(k, ops[0]), ops[1..]))
  }

  /**
   * Over every run, with kernel mappings, heap growth and page allocation in between, the user map of a root
   * changes only through tokens in force that carry the map right for it.
   */
  lemma {:induction false} OnlyThroughItsTokens(k: Kernel, ops: seq<SpaceOp>, root: nat)
    requires SpacesOk(k) && AllAdmitted(k, ops) && IsRoot(k.s.m.mem, root) && NoneReaches(k, ops, root)
    ensures UserMap(RunSpaces(k, ops).s.m.mem, root) == UserMap(k.s.m.mem, root)
    decreases ops
  {
    hide UserMap, SpacesOk, SpaceStep, Reaches, Admitted;
    if ops != [] {
      SpaceStepOk(k, ops[0]);
      StepRoots(k, ops[0], root);
      StepKeepsUser(k, ops[0], root);
      OnlyThroughItsTokens(SpaceStep(k, ops[0]), ops[1..], root);
    }
  }
}
