/**
 * The memory manager seen through addresses: what map, unmap, translate and root creation do to the
 * address map of every root.
 */
module VirtualMemory {
  import opened KernelTypes
  import opened PageTables
  import opened Words
  import opened Paging

  // ----- the kernel's operations ------------------------------------------------------------------

  predicate BadRoot(root: nat) { root == 0 || !PageAligned(root) }

  predicate BadPage(virt: nat) { !PageAligned(virt) || !AcceptedAddress(virt) }

  /** Flag bit 0 asks for a writable and bit 1 for a user mapping; other bits are refused. */
  function MapInRoot(m: Machine, root: nat, virt: nat, phys: nat, flags: nat): (Machine, Status) {
    if BadRoot(root) || BadPage(virt) || !PageAligned(phys) || flags >= 4 then (m, Inval)
    else MapPath(m, root, PathOf(virt), Entry(true, flags % 2 == 1, flags >= 2, false, Frame(phys)), flags >= 2)
  }

  function UnmapInRoot(m: Machine, root: nat, virt: nat): (Machine, Status) {
    if BadRoot(root) || BadPage(virt) then (m, Inval) else UnmapPath(m, root, PathOf(virt))
  }

  function PageOf(virt: nat): nat { virt / 4096 * 4096 }

  function FlagBits(writable: bool, user: bool): (f: nat)
    ensures f < 4 && (f % 2 == 1) == writable && (f >= 2) == user
  {
    (if writable then 1 else 0) + (if user then 2 else 0)
  }

  function FindLeaf(m: Machine, root: nat, p: Path): Result<Entry> {
    match LeafTable(m, root, LEVELS, p, false, false).1
    case Bad(s) => Bad(s)
    case Good(pt) =>
      var e := Read(m.mem, pt, p.i1);
      if e.present then Good(e) else Bad(NoEnt)
  }

  /** The physical address, with the offset kept, and the flags of the leaf entry. */
  function Translate(m: Machine, root: nat, virt: nat): Result<(nat, nat)> {
    if BadRoot(root) || BadPage(PageOf(virt)) then Bad(Inval)
    else
      match FindLeaf(m, root, PathOf(virt))
      case Bad(s) => Bad(s)
      case Good(e) => Good((e.frame + virt % 4096, FlagBits(e.writable, e.user)))
  }

  // ----- the abstract value of a root ---------------------------------------------------------------

  /** The mapping of one canonical page. */
  function At(mem: Memory, root: nat, v: nat): Option<Mapping> {
    if CanonicalPage(v) then Lookup(mem, root, PathOf(v)) else None
  }

  /** A plain finite map from canonical pages to mappings. */
  ghost function AddressMap(mem: Memory, root: nat): map<nat, Mapping> {
    map v: nat | 0 <= v < TWO64 && At(mem, root, v).Some? :: At(mem, root, v).value
  }

  lemma SamePage(v: nat, virt: nat)
    requires CanonicalPage(v) && PageAligned(virt)
    ensures PathOf(v) == PathOf(virt) <==> v == Canon(virt)
  {
    CanonSamePath(virt);
    if PathOf(v) == PathOf(virt) {
      PathDetermines(v, Canon(virt));
    }
  }

  lemma CanonPage(virt: nat)
    requires PageAligned(virt)
    ensures CanonicalPage(Canon(virt)) && Canon(virt) < TWO64
  {
    CanonSamePath(virt);
  }

  /** A change of one path's lookup is a change of one key of the address map. */
  lemma OneKeyChanged(mem: Memory, mem': Memory, r: nat, virt: nat, now: Option<Mapping>)
    requires PageAligned(virt)
    requires forall v :: ValidPath(v) ==>
      Lookup(mem', r, v) == if v == PathOf(virt) then now else Lookup(mem, r, v)
    ensures AddressMap(mem', r) ==
      if now.Some? then AddressMap(mem, r)[Canon(virt) := now.value] else AddressMap(mem, r) - {Canon(virt)}
  {
    forall v: nat ensures At(mem', r, v) == if v == Canon(virt) then now else At(mem, r, v) {
      CanonPage(virt);
      if CanonicalPage(v) {
        SamePage(v, virt);
      }
    }
    CanonPage(virt);
    KeyChange(mem, mem', r, Canon(virt), now);
  }

  lemma KeyChange(mem: Memory, mem': Memory, r: nat, c: nat, now: Option<Mapping>)
    requires c < TWO64
    requires forall v: nat :: At(mem', r, v) == if v == c then now else At(mem, r, v)
    ensures AddressMap(mem', r) ==
      if now.Some? then AddressMap(mem, r)[c := now.value] else AddressMap(mem, r) - {c}
  {
    hide At;
    var before, after := AddressMap(mem, r), AddressMap(mem', r);
    if now.Some? {
      assert after == before[c := now.value];
    } else {
      assert after == before - {c};
    }
  }

  lemma NoKeyChanged(mem: Memory, mem': Memory, r: nat)
    requires forall v :: ValidPath(v) ==> Lookup(mem', r, v) == Lookup(mem, r, v)
    ensures AddressMap(mem', r) == AddressMap(mem, r)
  {
    assert forall v: nat :: At(mem', r, v) == At(mem, r, v);
  }

  lemma InAddressMap(mem: Memory, root: nat, virt: nat)
    requires PageAligned(virt)
    ensures Canon(virt) in AddressMap(mem, root) <==> Lookup(mem, root, PathOf(virt)).Some?
    ensures Canon(virt) in AddressMap(mem, root) ==>
      AddressMap(mem, root)[Canon(virt)] == Lookup(mem, root, PathOf(virt)).value
  {
    CanonPage(virt);
    CanonSamePath(virt);
    assert At(mem, root, Canon(virt)) == Lookup(mem, root, PathOf(virt));
  }

  /**
   * Mapping refines map update. On success exactly the roots that share the top-level entry gain
   * exactly one key, and it was free; a failing call changes the address map of no root.
   */
  lemma MapRefines(m: Machine, root: nat, virt: nat, phys: nat, flags: nat)
    requires Sound(m) && IsRoot(m.mem, root)
    ensures var (m', s) := MapInRoot(m, root, virt, phys, flags);
      && Sound(m') && m'.active == m.active && m'.pool.stack <= m.pool.stack && KeepsTops(m.mem, m'.mem)
      && (forall r :: IsRoot(m.mem, r) ==>
            AddressMap(m'.mem, r) ==
              if s == Ok && Shares(m'.mem, r, root, PathOf(virt).i4)
              then AddressMap(m.mem, r)[Canon(virt) := Mapping(Frame(phys), flags % 2 == 1, flags >= 2)]
              else AddressMap(m.mem, r))
      && (s == Ok ==> Canon(virt) !in AddressMap(m.mem, root))
  {
    hide Sound, Canon, Frame, PathOf, AddressMap, Walk;
    var (m', s) := MapInRoot(m, root, virt, phys, flags);
    if !(BadRoot(root) || BadPage(virt) || !PageAligned(phys) || flags >= 4) {
      var p := PathOf(virt);
      var e := Entry(true, flags % 2 == 1, flags >= 2, false, Frame(phys));
      MapPathEffect(m, root, p, e, flags >= 2);
      InAddressMap(m.mem, root, virt);
      forall r | IsRoot(m.mem, r)
        ensures AddressMap(m'.mem, r) ==
          if s == Ok && Shares(m'.mem, r, root, p.i4)
          then AddressMap(m.mem, r)[Canon(virt) := Mapping(Frame(phys), flags % 2 == 1, flags >= 2)]
          else AddressMap(m.mem, r)
      {
        if s == Ok && Shares(m'.mem, r, root, p.i4) {
          OneKeyChanged(m.mem, m'.mem, r, virt, Some(Mapping(Frame(phys), flags % 2 == 1, flags >= 2)));
        } else {
          NoKeyChanged(m.mem, m'.mem, r);
        }
      }
    }
  }

  /** Mapping succeeds exactly for a free key with no large page above it and enough pages for the missing tables. */
  lemma MapOkIff(m: Machine, root: nat, virt: nat, phys: nat, flags: nat)
    requires Sound(m) && IsRoot(m.mem, root)
    ensures MapInRoot(m, root, virt, phys, flags).1 == Ok <==>
      && !BadRoot(root) && !BadPage(virt) && PageAligned(phys) && flags < 4
      && Canon(virt) !in AddressMap(m.mem, root) && !Blocked(m.mem, root, LEVELS, PathOf(virt))
      && Missing(m.mem, root, LEVELS, PathOf(virt)) <= |m.pool.stack|
  {
    hide Sound, Canon, Frame, PathOf, AddressMap, Walk, Blocked, Missing;
    if !(BadRoot(root) || BadPage(virt) || !PageAligned(phys) || flags >= 4) {
      MapPathEffect(m, root, PathOf(virt), Entry(true, flags % 2 == 1, flags >= 2, false, Frame(phys)), flags >= 2);
      InAddressMap(m.mem, root, virt);
    }
  }

  /** Unmapping refines key removal, for exactly the sharing roots; a failing call changes nothing. */
  lemma UnmapRefines(m: Machine, root: nat, virt: nat)
    requires Sound(m) && IsRoot(m.mem, root)
    ensures var (m', s) := UnmapInRoot(m, root, virt);
      && Sound(m') && m'.active == m.active && m'.pool == m.pool && KeepsTops(m.mem, m'.mem)
      && (forall r :: IsRoot(m.mem, r) ==>
            AddressMap(m'.mem, r) ==
              if s == Ok && Shares(m.mem, r, root, PathOf(virt).i4) then AddressMap(m.mem, r) - {Canon(virt)}
              else AddressMap(m.mem, r))
      && (s == Ok <==> !BadRoot(root) && !BadPage(virt) && Canon(virt) in AddressMap(m.mem, root))
      && (s != Ok ==> m' == m)
  {
    var (m', s) := UnmapInRoot(m, root, virt);
    if !(BadRoot(root) || BadPage(virt)) {
      var p := PathOf(virt);
      UnmapPathEffect(m, root, p);
      InAddressMap(m.mem, root, virt);
      forall r | IsRoot(m.mem, r)
        ensures AddressMap(m'.mem, r) ==
          if s == Ok && Shares(m.mem, r, root, p.i4) then AddressMap(m.mem, r) - {Canon(virt)} else AddressMap(m.mem, r)
      {
        if s == Ok && Shares(m.mem, r, root, p.i4) {
          OneKeyChanged(m.mem, m'.mem, r, virt, None);
        } else {
          NoKeyChanged(m.mem, m'.mem, r);
        }
      }
    }
  }

  lemma PageOfPath(virt: nat)
    ensures PathOf(PageOf(virt)) == PathOf(virt) && PageAligned(PageOf(virt))
  {
    assert PageOf(virt) / 4096 == virt / 4096;
  }

  lemma FindLeafIsLookup(m: Machine, root: nat, p: Path)
    requires Sound(m) && IsRoot(m.mem, root) && ValidPath(p)
    ensures match FindLeaf(m, root, p)
      case Bad(s) => Lookup(m.mem, root, p) == None && s == if Blocked(m.mem, root, LEVELS, p) then Busy else NoEnt
      case Good(e) => Lookup(m.mem, root, p) == Some(Mapping(e.frame, e.writable, e.user))
  {
    FindPath(m, root, LEVELS, p);
    match LeafTable(m, root, LEVELS, p, false, false).1
    case Bad(s) =>
    case Good(pt) => Reached(m.mem, root, LEVELS, p, pt);
  }

  /** Translation reads the address map at the canonical page and keeps the offset. */
  lemma TranslateRefines(m: Machine, root: nat, virt: nat)
    requires Sound(m) && IsRoot(m.mem, root) && root != 0 && AcceptedAddress(PageOf(virt))
    ensures var page := Canon(PageOf(virt));
      match Translate(m, root, virt)
      case Good((phys, flags)) =>
        && page in AddressMap(m.mem, root)
        && phys == AddressMap(m.mem, root)[page].phys + virt % 4096
        && AddressMap(m.mem, root)[page].writable == (flags % 2 == 1)
        && AddressMap(m.mem, root)[page].user == (flags >= 2)
      case Bad(s) => page !in AddressMap(m.mem, root) && (s == NoEnt || s == Busy)
  {
    PageOfPath(virt);
    InAddressMap(m.mem, root, PageOf(virt));
    FindLeafIsLookup(m, root, PathOf(virt));
  }

  // ----- what the processor finds --------------------------------------------------------------------

  /** The table behind entry i of table t: no present entry, or one that is a large page, gives none. */
  function Behind(mem: Memory, t: Option<nat>, i: nat): Option<nat> {
    if t.None? then None
    else
      var e := Read(mem, t.value, i);
      if e.present && !e.huge then Some(e.frame) else None
  }

  /** The table that holds the leaf, reached by one index for each level from the root down. */
  function LeafTableBy(mem: Memory, root: nat, i4: nat, i3: nat, i2: nat): Option<nat> {
    Behind(mem, Behind(mem, Behind(mem, Some(root), i4), i3), i2)
  }

  /** The leaf entry itself, if it is present. */
  function LeafBy(mem: Memory, root: nat, i4: nat, i3: nat, i2: nat, i1: nat): Option<Entry> {
    var pt := LeafTableBy(mem, root, i4, i3, i2);
    if pt.Some? && Read(mem, pt.value, i1).present then Some(Read(mem, pt.value, i1)) else None
  }

  /** Some present entry on the way to the leaf table is a large page. */
  predicate LargeBy(mem: Memory, root: nat, i4: nat, i3: nat, i2: nat) {
    var t3 := Behind(mem, Some(root), i4);
    var t2 := Behind(mem, t3, i3);
    var e4 := Read(mem, root, i4);
    || (e4.present && e4.huge)
    || (t3.Some? && Read(mem, t3.value, i3).present && Read(mem, t3.value, i3).huge)
    || (t2.Some? && Read(mem, t2.value, i2).present && Read(mem, t2.value, i2).huge)
  }

  lemma LargeIsBlocked(mem: Memory, root: nat, i4: nat, i3: nat, i2: nat, i1: nat)
    ensures Blocked(mem, root, LEVELS, Path(i4, i3, i2, i1)) <==> LargeBy(mem, root, i4, i3, i2)
  {
    var p := Path(i4, i3, i2, i1);
    var e4 := Read(mem, root, i4);
    var e3 := Read(mem, e4.frame, i3);
    var e2 := Read(mem, e3.frame, i2);
    assert Index(p, 4) == i4 && Index(p, 3) == i3 && Index(p, 2) == i2;
    assert !Blocked(mem, e2.frame, 1, p);
    assert Blocked(mem, e3.frame, 2, p) <==> e2.present && (e2.huge || Blocked(mem, e2.frame, 1, p));
    assert Blocked(mem, e4.frame, 3, p) <==> e3.present && (e3.huge || Blocked(mem, e3.frame, 2, p));
  }

  /** The leaf by indices is the last entry of the four that the walk combines. */
  lemma WalkByTables(mem: Memory, root: nat, i4: nat, i3: nat, i2: nat, i1: nat)
    ensures var w := Walk(mem, root, Path(i4, i3, i2, i1));
      LeafBy(mem, root, i4, i3, i2, i1) == if w.Some? && |w.value| == LEVELS then Some(w.value[3]) else None
  {
    var p := Path(i4, i3, i2, i1);
    var e4 := Read(mem, root, i4);
    var e3 := Read(mem, e4.frame, i3);
    var e2 := Read(mem, e3.frame, i2);
    assert Index(p, 4) == i4 && Index(p, 3) == i3 && Index(p, 2) == i2 && Index(p, 1) == i1;
    assert |Trace(mem, e2.frame, 1, p)| <= 1;
    assert Trace(mem, root, 4, p) ==
      if !e4.present then [] else if e4.huge then [e4] else [e4] + Trace(mem, e4.frame, 3, p);
    assert Trace(mem, e4.frame, 3, p) ==
      if !e3.present then [] else if e3.huge then [e3] else [e3] + Trace(mem, e3.frame, 2, p);
    assert Trace(mem, e3.frame, 2, p) ==
      if !e2.present then [] else if e2.huge then [e2] else [e2] + Trace(mem, e2.frame, 1, p);
  }

  lemma LookupByTables(mem: Memory, root: nat, i4: nat, i3: nat, i2: nat, i1: nat)
    ensures var e := LeafBy(mem, root, i4, i3, i2, i1);
      Lookup(mem, root, Path(i4, i3, i2, i1)) ==
        if e.Some? then Some(Mapping(e.value.frame, e.value.writable, e.value.user)) else None
  {
    hide Walk, LeafBy;
    WalkByTables(mem, root, i4, i3, i2, i1);
  }

  /**
   * Translation, told from the tables alone: for the address with these indices and this offset it returns the
   * frame of the leaf entry plus the offset, with bit 0 for writable and bit 1 for user. Without one it fails, as busy
   * exactly if a large page is in the way.
   */
  lemma TranslateByTables(m: Machine, root: nat, virt: nat, high: nat, i4: nat, i3: nat, i2: nat, i1: nat, offset: nat)
    requires Sound(m) && IsRoot(m.mem, root) && root != 0
    requires Layout(virt, high, i4, i3, i2, i1, offset) && (high == 0 || high == 0xffff)
    ensures var leaf := LeafBy(m.mem, root, i4, i3, i2, i1);
      && (Translate(m, root, virt).Good? <==> leaf.Some?)
      && (leaf.None? ==>
            Translate(m, root, virt) == Bad(if LargeBy(m.mem, root, i4, i3, i2) then Busy else NoEnt))
      && (leaf.Some? ==>
            Translate(m, root, virt).value ==
              (leaf.value.frame + offset, (if leaf.value.writable then 1 else 0) + (if leaf.value.user then 2 else 0)))
  {
    hide Sound, PathOf, LeafBy, LargeBy, Blocked;
    LargeIsBlocked(m.mem, root, i4, i3, i2, i1);
    LayoutIsPath(virt, high, i4, i3, i2, i1, offset);
    LayoutAccepted(virt, high, i4, i3, i2, i1, offset);
    RootAligned(m, root);
    FindLeafIsLookup(m, root, PathOf(virt));
    LookupByTables(m.mem, root, i4, i3, i2, i1);
  }

  lemma RootAligned(m: Machine, root: nat)
    requires Sound(m) && IsRoot(m.mem, root)
    ensures PageAligned(root)
  {
  }

  lemma LayoutAccepted(virt: nat, high: nat, i4: nat, i3: nat, i2: nat, i1: nat, offset: nat)
    requires Layout(virt, high, i4, i3, i2, i1, offset) && (high == 0 || high == 0xffff)
    ensures !BadPage(PageOf(virt)) && (offset == 0 ==> PageOf(virt) == virt)
  {
    var low := 0x800_0000 * i4 + 0x4_0000 * i3 + 0x200 * i2 + i1;
    var page := 0x10_0000_0000 * high + low;
    assert low < 0x10_0000_0000;
    assert virt / 4096 == page;
    assert PageOf(virt) == 0x1_0000_0000_0000 * high + 4096 * low;
    assert PageOf(virt) / 0x1_0000_0000_0000 == high;
  }

  /**
   * A successful mapping, told from the tables alone: the leaf reached by the address's own indices was absent and
   * is the new entry, and the leaf reached by any other indices j from that root is what it was.
   */
  lemma MapByTables(m: Machine, root: nat, virt: nat, phys: nat, flags: nat, high: nat,
                    i4: nat, i3: nat, i2: nat, i1: nat, j: Path)
    requires Sound(m) && IsRoot(m.mem, root) && ValidPath(j)
    requires Layout(virt, high, i4, i3, i2, i1, 0) && MapInRoot(m, root, virt, phys, flags).1 == Ok
    ensures var mem := MapInRoot(m, root, virt, phys, flags).0.mem;
      && LeafBy(m.mem, root, i4, i3, i2, i1) == None
      && LeafBy(mem, root, i4, i3, i2, i1) == Some(Entry(true, flags % 2 == 1, flags >= 2, false, Frame(phys)))
      && (j != Path(i4, i3, i2, i1) ==>
            LeafBy(mem, root, j.i4, j.i3, j.i2, j.i1) == LeafBy(m.mem, root, j.i4, j.i3, j.i2, j.i1))
  {
    hide Sound, PathOf, LeafBy, Frame, MapPath;
    LayoutIsPath(virt, high, i4, i3, i2, i1, 0);
    var p, e := Path(i4, i3, i2, i1), Entry(true, flags % 2 == 1, flags >= 2, false, Frame(phys));
    LeafAfterMap(m, root, p, e, flags >= 2, p);
    LeafAfterMap(m, root, p, e, flags >= 2, j);
  }

  lemma LeafAfterMap(m: Machine, root: nat, p: Path, e: Entry, user: bool, j: Path)
    requires Sound(m) && IsRoot(m.mem, root) && ValidPath(p) && ValidPath(j) && e.present
    requires MapPath(m, root, p, e, user).1 == Ok
    ensures LeafBy(m.mem, root, p.i4, p.i3, p.i2, p.i1) == None
    ensures LeafBy(MapPath(m, root, p, e, user).0.mem, root, j.i4, j.i3, j.i2, j.i1) ==
      if j == p then Some(e) else LeafBy(m.mem, root, j.i4, j.i3, j.i2, j.i1)
  {
    hide Sound, LeafBy, Walk, MapPath, Upper, Blocked, Missing;
    MapPathEffect(m, root, p, e, user);
    var mem := MapPath(m, root, p, e, user).0.mem;
    SelfShared(mem, root, p.i4);
    WalkByTables(m.mem, root, p.i4, p.i3, p.i2, p.i1);
    WalkByTables(m.mem, root, j.i4, j.i3, j.i2, j.i1);
    WalkByTables(mem, root, j.i4, j.i3, j.i2, j.i1);
    assert Path(j.i4, j.i3, j.i2, j.i1) == j && Path(p.i4, p.i3, p.i2, p.i1) == p;
  }

  lemma SelfShared(mem: Memory, root: nat, i: nat)
    ensures Shares(mem, root, root, i)
  {
  }

  /** The address map, told from the tables alone. */
  lemma AddressMapByTables(mem: Memory, root: nat, v: nat, high: nat, i4: nat, i3: nat, i2: nat, i1: nat)
    requires Layout(v, high, i4, i3, i2, i1, 0) && high == if i4 < 256 then 0 else 0xffff
    ensures var leaf := LeafBy(mem, root, i4, i3, i2, i1);
      && (v in AddressMap(mem, root) <==> leaf.Some?)
      && (leaf.Some? ==>
            AddressMap(mem, root)[v] == Mapping(leaf.value.frame, leaf.value.writable, leaf.value.user))
  {
    hide PathOf, LeafBy, Lookup;
    LayoutIsPath(v, high, i4, i3, i2, i1, 0);
    LayoutCanonical(v, high, i4, i3, i2, i1);
    LookupByTables(mem, root, i4, i3, i2, i1);
    assert At(mem, root, v) == Lookup(mem, root, PathOf(v));
  }

  /** Sign-extended addresses are the canonical ones. */
  lemma LayoutCanonical(v: nat, high: nat, i4: nat, i3: nat, i2: nat, i1: nat)
    requires Layout(v, high, i4, i3, i2, i1, 0) && high == if i4 < 256 then 0 else 0xffff
    ensures CanonicalPage(v) && v < TWO64
  {
    var low := 0x800_0000 * i4 + 0x4_0000 * i3 + 0x200 * i2 + i1;
    assert v == 4096 * (0x10_0000_0000 * high + low);
  }

  /** A user page has a top-level index in the lower half. */
  lemma UserHalf(virt: nat)
    requires virt < 0x8000_0000_0000
    ensures PathOf(virt).i4 < KERNEL_HALF
  {
    assert virt / 4096 < 0x8_0000_0000;
    assert virt / 4096 / 512 < 0x400_0000;
    assert virt / 4096 / 512 / 512 < 0x2_0000;
    assert virt / 4096 / 512 / 512 / 512 < 0x100;
  }

  lemma KernelHalfPath(virt: nat)
    requires KERNEL_BASE <= virt < TWO64
    ensures PathOf(virt).i4 >= KERNEL_HALF
  {
    TopBits(virt / 4096);
  }

  /** User pages are private: mapping or unmapping one leaves every other root's whole map alone. */
  lemma UserPagesArePrivate(m: Machine, root: nat, virt: nat, phys: nat, flags: nat, r: nat)
    requires Sound(m) && IsRoot(m.mem, root) && IsRoot(m.mem, r) && r != root && virt < 0x8000_0000_0000
    ensures AddressMap(MapInRoot(m, root, virt, phys, flags).0.mem, r) == AddressMap(m.mem, r)
    ensures AddressMap(UnmapInRoot(m, root, virt).0.mem, r) == AddressMap(m.mem, r)
  {
    UserHalf(virt);
    MapRefines(m, root, virt, phys, flags);
    UnmapRefines(m, root, virt);
  }

  /**
   * The kernel's address test admits 0x0000800000000000, which is not canonical; it denotes the
   * same slot as 0xffff800000000000. Among accepted pages this happens exactly to the others.
   */
  lemma AcceptedAliases(virt: nat)
    requires AcceptedAddress(virt)
    ensures Canon(virt) == virt <==> Canonical(virt)
    ensures AcceptedAddress(0x8000_0000_0000) && Canon(0x8000_0000_0000) == 0xffff_8000_0000_0000
  {
    if Canonical(virt) {
      CanonFixed(virt);
    }
  }
}
