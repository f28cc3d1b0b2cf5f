/** Committing pages to the kernel heap: page by page, with the kernel's roll-back. */
module HeapGrowth {
  import opened KernelTypes
  import opened PageTables
  import opened Words
  import opened Paging
  import opened TableGrowth
  import opened VirtualMemory
  import PhysicalPages

  datatype Growth = Mapped | OutOfPages(status: Status) | MapFailed(status: Status)

  /** A writable kernel mapping. */
  const WRITE_FLAGS: nat := 1

  function PageAt(base: nat, k: nat): nat { base + PAGE_SIZE * k }

  function FreePage(m: Machine, phys: nat): Machine {
    m.(pool := PhysicalPages.Free(m.pool, phys).0)
  }

  /** Takes a page and maps it; a page that cannot be mapped goes back. */
  function MapFresh(m: Machine, virt: nat): (Machine, Growth) {
    var (pool, page) := PhysicalPages.Alloc(m.pool);
    match page
    case Bad(s) => (m, OutOfPages(s))
    case Good(phys) =>
      var (m1, s) := MapInRoot(m.(pool := pool), m.active, virt, phys, WRITE_FLAGS);
      if s != Ok then (FreePage(m1, phys), MapFailed(s)) else (m1, Mapped)
  }

  /** Unmaps a page and gives its frame back. */
  function UnmapBack(m: Machine, virt: nat): Machine {
    match Translate(m, m.active, virt)
    case Bad(_) => m
    case Good((phys, _)) => FreePage(UnmapInRoot(m, m.active, virt).0, phys)
  }

  /** Roll-back: unmaps and frees the first k pages of the range, latest first. */
  function Unwind(m: Machine, base: nat, k: nat): Machine
    decreases k
  {
    if k == 0 then m else Unwind(UnmapBack(m, PageAt(base, k - 1)), base, k - 1)
  }

  /** Maps pages k to n - 1; a failing mapping is rolled back, a failing page allocation is not. */
  function GrowFrom(m: Machine, base: nat, k: nat, n: nat): (Machine, Growth)
    decreases n - k
  {
    if k >= n then (m, Mapped)
    else
      var (m1, g) := MapFresh(m, PageAt(base, k));
      match g
      case OutOfPages(_) => (m1, g)
      case MapFailed(_) => (Unwind(m1, base, k), g)
      case Mapped => GrowFrom(m1, base, k + 1, n)
  }

  /** Every machine that the roll-back passes through is sound. */
  ghost predicate UnwindSound(m: Machine, base: nat, k: nat)
    decreases k
  {
    Sound(m) && (k > 0 ==> UnwindSound(UnmapBack(m, PageAt(base, k - 1)), base, k - 1))
  }

  /** Every machine that growth passes through is sound. */
  ghost predicate GrowSound(m: Machine, base: nat, k: nat, n: nat)
    decreases n - k
  {
    Sound(m) && (k < n ==>
      var (m1, g) := MapFresh(m, PageAt(base, k));
      Sound(m1) && (g.Mapped? ==> GrowSound(m1, base, k + 1, n)) && (g.MapFailed? ==> UnwindSound(m1, base, k)))
  }

  /** A page range in the kernel half. */
  predicate KernelRange(base: nat, n: nat) {
    PageAligned(base) && 0xffff_8000_0000_0000 <= base && base + PAGE_SIZE * n <= TWO64
  }

  lemma RangePages(base: nat, n: nat, j: nat)
    requires KernelRange(base, n) && j < n
    ensures CanonicalPage(PageAt(base, j)) && !BadPage(PageAt(base, j)) && Canon(PageAt(base, j)) == PageAt(base, j)
  {
    assert PageAt(base, j) + PAGE_SIZE <= TWO64;
    CanonFixed(PageAt(base, j));
  }

  /** The paths of the pages of a range; they are distinct. */
  ghost predicate PathsOf(base: nat, paths: seq<Path>) {
    && NoDup(paths)
    && forall j :: 0 <= j < |paths| ==>
         paths[j] == PathOf(PageAt(base, j)) && ValidPath(paths[j]) && !BadPage(PageAt(base, j))
  }

  function PathsIn(base: nat, n: nat): seq<Path> {
    seq(n, j requires 0 <= j => PathOf(PageAt(base, j)))
  }

  lemma RangePaths(base: nat, n: nat) returns (paths: seq<Path>)
    requires KernelRange(base, n)
    ensures paths == PathsIn(base, n) && |paths| == n && PathsOf(base, paths)
  {
    paths := PathsIn(base, n);
    forall j | 0 <= j < n ensures !BadPage(PageAt(base, j)) {
      RangePages(base, n, j);
    }
    forall i, j | 0 <= i < j < n ensures paths[i] != paths[j] {
      RangePages(base, n, i);
      RangePages(base, n, j);
      if paths[i] == paths[j] {
        PathDetermines(PageAt(base, i), PageAt(base, j));
      }
    }
  }

  // ----- pages are conserved while tables are created --------------------------------------------------

  /** Pages leave the stack only to become tables. */
  ghost predicate TablesTaken(m: Machine, m': Machine) {
    && m.mem.Keys <= m'.mem.Keys
    && m'.pool.stack <= m.pool.stack
    && (forall x :: x in m.pool.stack ==> x in m'.pool.stack || x in m'.mem)
    && (forall x :: x in m'.mem ==> x in m.mem || x in m.pool.stack)
  }

  lemma TakenTrans(m: Machine, m1: Machine, m2: Machine)
    requires TablesTaken(m, m1) && TablesTaken(m1, m2)
    ensures TablesTaken(m, m2)
  {
    forall x | x in m1.pool.stack ensures x in m.pool.stack {
    }
  }

  lemma {:induction false} CreateConserves(m: Machine, root: nat, t: nat, k: nat, p: Path, user: bool, pages: set<nat>)
    requires Sound(m) && ValidPath(p) && IsRoot(m.mem, root) && 1 <= k <= LEVELS && IsTable(m.mem, t, k)
    requires TableAt(m.mem, root, LEVELS, p, k) == Some(t) && PhysicalPages.Conserved(m.pool, pages)
    ensures var m' := LeafTable(m, t, k, p, true, user).0;
      PhysicalPages.Conserved(m'.pool, pages) && TablesTaken(m, m')
    decreases k
  {
    if k > 1 {
      NextSound(m, root, t, k, p, true, user);
      var (m1, r) := NextTable(m, t, Index(p, k), true, user);
      NextConserves(m, t, Index(p, k), user, pages);
      if r.Good? {
        CreateConserves(m1, root, r.value, k - 1, p, user, pages);
        TakenTrans(m, m1, LeafTable(m1, r.value, k - 1, p, true, user).0);
      }
    }
  }

  lemma NextConserves(m: Machine, t: nat, i: nat, user: bool, pages: set<nat>)
    requires t in m.mem && i < |m.mem[t].entries| && m.mem[t].level > 0 && PhysicalPages.Conserved(m.pool, pages)
    ensures var m1 := NextTable(m, t, i, true, user).0;
      PhysicalPages.Conserved(m1.pool, pages) && TablesTaken(m, m1)
  {
    PhysicalPages.AllocConserves(m.pool, pages);
    var (m1, r) := NextTable(m, t, i, true, user);
    if !Read(m.mem, t, i).present && r.Good? {
      var stack := m.pool.stack;
      assert stack == stack[..|stack| - 1] + [r.value];
      assert m1.mem.Keys == m.mem.Keys + {r.value};
    }
  }

  /** Mapping a page takes from the stack only what it makes into tables. */
  lemma MapConserves(m: Machine, root: nat, virt: nat, phys: nat, flags: nat, pages: set<nat>)
    requires Sound(m) && IsRoot(m.mem, root) && PhysicalPages.Conserved(m.pool, pages)
    ensures var m' := MapInRoot(m, root, virt, phys, flags).0;
      PhysicalPages.Conserved(m'.pool, pages) && TablesTaken(m, m')
  {
    if !(BadRoot(root) || BadPage(virt) || !PageAligned(phys) || flags >= 4) {
      CreateConserves(m, root, root, LEVELS, PathOf(virt), flags >= 2, pages);
      var m1 := LeafTable(m, root, LEVELS, PathOf(virt), true, flags >= 2).0;
      assert MapInRoot(m, root, virt, phys, flags).0.mem.Keys == m1.mem.Keys;
    }
  }

  // ----- how far growth has come ---------------------------------------------------------------------------

  /**
   * Compared with m0, the active root of m maps, in addition, paths[j] to frame ps[j], and so do the roots that
   * share the entry above; no other walk of any root has changed.
   */
  ghost predicate Extra(m0: Machine, m: Machine, paths: seq<Path>, ps: seq<nat>) {
    && |ps| <= |paths| && IsRoot(m0.mem, m.active)
    && KeepsTops(m0.mem, m.mem) && SameSharing(m0.mem, m.mem)
    && (forall r, v :: IsRoot(m0.mem, r) && ValidPath(v)
                       && (v !in paths[..|ps|] || !Shares(m0.mem, r, m.active, v.i4)) ==>
          Walk(m.mem, r, v) == Walk(m0.mem, r, v))
    && (forall r, j :: IsRoot(m0.mem, r) && 0 <= j < |ps| && Shares(m0.mem, r, m.active, paths[j].i4) ==>
          Walk(m0.mem, r, paths[j]) == None)
    && (forall j :: 0 <= j < |ps| ==> Lookup(m.mem, m.active, paths[j]) == Some(Mapping(ps[j], true, false)))
  }

  /** Those frames are neither free nor tables; every other page that left the stack became a table. */
  ghost predicate Held(m0: Machine, m: Machine, ps: seq<nat>) {
    && NoDup(ps)
    && (forall x :: x in ps ==> x in m0.pool.stack && x !in m.pool.stack && x !in m.mem)
    && (forall x :: x in m0.pool.stack ==> x in m.pool.stack || x in m.mem || x in ps)
    && (forall x :: x in m.pool.stack ==> x in m0.pool.stack)
    && (forall x :: x in m.mem ==> x in m0.mem || x in m0.pool.stack)
  }

  ghost predicate Ahead(m0: Machine, m: Machine, paths: seq<Path>, ps: seq<nat>, pages: set<nat>) {
    && Sound(m) && m.active == m0.active && PhysicalPages.Conserved(m.pool, pages)
    && |ps| <= |paths| && Extra(m0, m, paths, ps) && Held(m0, m, ps)
  }

  lemma PopSound(m: Machine)
    requires Sound(m)
    ensures Sound(m.(pool := PhysicalPages.Alloc(m.pool).0))
  {
    hide WellFormed;
    var stack := m.pool.stack;
    if stack != [] {
      SpareFront(m.mem, stack);
    }
  }

  /** One more page is taken off the stack. */
  lemma TakeOne(m0: Machine, m: Machine, ps: seq<nat>, pages: set<nat>)
    requires Sound(m0) && Sound(m) && PhysicalPages.Conserved(m.pool, pages) && Held(m0, m, ps) && m.pool.stack != []
    ensures var (pool, page) := PhysicalPages.Alloc(m.pool);
      var m1 := m.(pool := pool);
      && page.Good? && Sound(m1) && PhysicalPages.Conserved(pool, pages) && Held(m0, m1, ps + [page.value])
      && PageAligned(page.value) && page.value < PHYS_END && page.value in pages
  {
    PhysicalPages.AllocConserves(m.pool, pages);
    var stack := m.pool.stack;
    var top, rest := stack[|stack| - 1], stack[..|stack| - 1];
    assert stack == rest + [top];
    assert top in stack;
    forall x | x in rest ensures x in stack && x != top {
    }
  }

  /** Held survives taking tables, for frames that are not on the stack. */
  lemma HeldThroughMap(m0: Machine, m1: Machine, m2: Machine, ps: seq<nat>)
    requires Held(m0, m1, ps) && TablesTaken(m1, m2)
    ensures Held(m0, m2, ps)
  {
    forall x | x in m2.pool.stack ensures x in m1.pool.stack {
    }
  }

  /** What mapping a page in the active root does: the sharing roots gain a leaf, or nothing changes. */
  lemma MapOneWalks(m: Machine, virt: nat, phys: nat)
    requires Sound(m) && !BadPage(virt) && PageAligned(phys) && phys < PHYS_END
    ensures var (m', s) := MapInRoot(m, m.active, virt, phys, WRITE_FLAGS);
      && Sound(m') && m'.active == m.active && KeepsTops(m.mem, m'.mem) && SameSharing(m.mem, m'.mem)
      && (forall r, v :: IsRoot(m.mem, r) && ValidPath(v)
                         && (s != Ok || v != PathOf(virt) || !Shares(m.mem, r, m.active, v.i4)) ==>
            Walk(m'.mem, r, v) == Walk(m.mem, r, v))
      && (s == Ok ==> Lookup(m'.mem, m.active, PathOf(virt)) == Some(Mapping(phys, true, false)))
      && (forall r :: s == Ok && IsRoot(m.mem, r) && Shares(m.mem, r, m.active, PathOf(virt).i4) ==>
            Walk(m.mem, r, PathOf(virt)) == None)
  {
    var p := PathOf(virt);
    var e := Entry(true, true, false, false, Frame(phys));
    FrameFits(phys);
    assert IsRoot(m.mem, m.active);
    hide Sound, PathOf, Frame, MapPath, Upper, Missing, Shares, BadPage;
    MapPathEffect(m, m.active, p, e, false);
    MapDeepens(m, m.active, p, e, false);
    MapHidden(m, m.active, p, e, false);
    SharesItself(m.mem, m.active, p.i4);
  }

  lemma SharesItself(mem: Memory, root: nat, i: nat)
    ensures Shares(mem, root, root, i)
  {
  }

  lemma ExtraSame(m0: Machine, m: Machine, m': Machine, paths: seq<Path>, ps: seq<nat>)
    requires Extra(m0, m, paths, ps) && m'.active == m.active
    requires KeepsTops(m.mem, m'.mem) && SameSharing(m.mem, m'.mem)
    requires forall j :: 0 <= j < |paths| ==> ValidPath(paths[j])
    requires forall r, v :: IsRoot(m.mem, r) && ValidPath(v) ==> Walk(m'.mem, r, v) == Walk(m.mem, r, v)
    ensures Extra(m0, m', paths, ps)
  {
    hide Walk, Shares;
    TopsCompose(m0.mem, m.mem, m'.mem);
  }

  lemma TopsCompose(mem: Memory, mem1: Memory, mem2: Memory)
    requires KeepsTops(mem, mem1) && KeepsTops(mem1, mem2) && SameSharing(mem, mem1) && SameSharing(mem1, mem2)
    ensures KeepsTops(mem, mem2) && SameSharing(mem, mem2)
  {
    hide Shares;
  }

  lemma ExtraMore(m0: Machine, m: Machine, m': Machine, paths: seq<Path>, ps: seq<nat>, phys: nat)
    requires Extra(m0, m, paths, ps) && m'.active == m.active && |ps| < |paths| && NoDup(paths)
    requires KeepsTops(m.mem, m'.mem) && SameSharing(m.mem, m'.mem)
    requires forall j :: 0 <= j < |paths| ==> ValidPath(paths[j])
    requires forall r, v :: IsRoot(m.mem, r) && ValidPath(v)
                            && (v != paths[|ps|] || !Shares(m.mem, r, m.active, v.i4)) ==>
      Walk(m'.mem, r, v) == Walk(m.mem, r, v)
    requires Lookup(m'.mem, m.active, paths[|ps|]) == Some(Mapping(phys, true, false))
    requires forall r :: IsRoot(m.mem, r) && Shares(m.mem, r, m.active, paths[|ps|].i4) ==>
      Walk(m.mem, r, paths[|ps|]) == None
    ensures Extra(m0, m', paths, ps + [phys])
  {
    hide Walk, Shares;
    TopsCompose(m0.mem, m.mem, m'.mem);
    var k := |ps|;
    assert paths[..k + 1] == paths[..k] + [paths[k]];
    assert paths[k] !in paths[..k];
    LookupKept(m, m', paths, ps);
  }

  lemma LookupKept(m: Machine, m': Machine, paths: seq<Path>, ps: seq<nat>)
    requires |ps| < |paths| && NoDup(paths) && IsRoot(m.mem, m.active)
    requires forall j :: 0 <= j < |paths| ==> ValidPath(paths[j])
    requires forall v :: ValidPath(v) && v != paths[|ps|] ==> Walk(m'.mem, m.active, v) == Walk(m.mem, m.active, v)
    ensures forall j :: 0 <= j < |ps| ==> Lookup(m'.mem, m.active, paths[j]) == Lookup(m.mem, m.active, paths[j])
  {
    hide Walk;
  }

  lemma ExtraLess(m0: Machine, m: Machine, m': Machine, paths: seq<Path>, ps: seq<nat>)
    requires Extra(m0, m, paths, ps) && m'.active == m.active && 0 < |ps| && NoDup(paths)
    requires KeepsTops(m.mem, m'.mem) && SameSharing(m.mem, m'.mem)
    requires forall j :: 0 <= j < |paths| ==> ValidPath(paths[j])
    requires forall r, v :: IsRoot(m.mem, r) && ValidPath(v) ==>
      Walk(m'.mem, r, v) == if v == paths[|ps| - 1] && Shares(m.mem, r, m.active, v.i4) then None else Walk(m.mem, r, v)
    ensures Extra(m0, m', paths, ps[..|ps| - 1])
  {
    hide Walk, Shares;
    TopsCompose(m0.mem, m.mem, m'.mem);
    var k := |ps| - 1;
    assert paths[..k + 1] == paths[..k] + [paths[k]];
    assert paths[k] !in paths[..k];
    LookupKept(m, m', paths, ps[..k]);
  }

  /** Returning the frame that is held last. */
  lemma GiveBack(m0: Machine, m: Machine, paths: seq<Path>, ps: seq<nat>, phys: nat, pages: set<nat>)
    requires Sound(m0) && Sound(m) && m.active == m0.active && PhysicalPages.Conserved(m.pool, pages)
    requires Extra(m0, m, paths, ps) && Held(m0, m, ps + [phys]) && phys in pages
    requires PageAligned(phys) && phys < PHYS_END
    ensures Ahead(m0, FreePage(m, phys), paths, ps, pages)
  {
    var qs := ps + [phys];
    assert qs[|ps|] == phys && phys in qs;
    PhysicalPages.FreeConserves(m.pool, pages, phys);
    var m' := FreePage(m, phys);
    assert m'.pool.stack == m.pool.stack + [phys];
    forall x | x in ps ensures x in qs && x != phys {
      var j :| 0 <= j < |ps| && ps[j] == x;
      assert qs[j] == x;
    }
    assert NoDup(ps) by {
      assert forall i :: 0 <= i < |ps| ==> ps[i] == qs[i];
    }
  }

  /** One round of the mapping loop. */
  lemma GrowOne(m0: Machine, m: Machine, virt: nat, paths: seq<Path>, ps: seq<nat>, pages: set<nat>)
    returns (m': Machine, g: Growth, phys: nat)
    requires Sound(m0) && Ahead(m0, m, paths, ps, pages) && |ps| < |paths| && NoDup(paths)
    requires forall j :: 0 <= j < |paths| ==> ValidPath(paths[j])
    requires paths[|ps|] == PathOf(virt) && !BadPage(virt)
    ensures (m', g) == MapFresh(m, virt)
    ensures g.Mapped? ==> Ahead(m0, m', paths, ps + [phys], pages)
    ensures g.MapFailed? ==> Ahead(m0, m', paths, ps, pages)
    ensures g.OutOfPages? ==> m' == m && m.pool.stack == []
  {
    hide PathOf, BadPage, Held, Extra, MapInRoot, TablesTaken, PhysicalPages.Conserved, Shares, Walk;
    phys := 0;
    m', g := MapFresh(m, virt).0, MapFresh(m, virt).1;
    if m.pool.stack != [] {
      var (pool, page) := PhysicalPages.Alloc(m.pool);
      TakeOne(m0, m, ps, pages);
      phys := page.value;
      var m1 := m.(pool := pool);
      ExtraSame(m0, m, m1, paths, ps);
      var (m2, s) := MapInRoot(m1, m.active, virt, phys, WRITE_FLAGS);
      MapOneWalks(m1, virt, phys);
      MapConserves(m1, m.active, virt, phys, WRITE_FLAGS, pages);
      HeldThroughMap(m0, m1, m2, ps + [phys]);
      if s == Ok {
        ExtraMore(m0, m1, m2, paths, ps, phys);
      } else {
        ExtraSame(m0, m1, m2, paths, ps);
        GiveBack(m0, m2, paths, ps, phys, pages);
      }
    }
  }

  // ----- roll-back ---------------------------------------------------------------------------------------------

  lemma UnmapOneWalks(m: Machine, virt: nat, phys: nat)
    requires Sound(m) && !BadPage(virt)
    requires Lookup(m.mem, m.active, PathOf(virt)) == Some(Mapping(phys, true, false))
    ensures Translate(m, m.active, virt).Good? && Translate(m, m.active, virt).value.0 == phys
    ensures var m' := UnmapInRoot(m, m.active, virt).0;
      && Sound(m') && m'.active == m.active && m'.pool == m.pool && m'.mem.Keys == m.mem.Keys
      && KeepsTops(m.mem, m'.mem) && SameSharing(m.mem, m'.mem)
      && (forall r, v :: IsRoot(m.mem, r) && ValidPath(v) ==>
            Walk(m'.mem, r, v) ==
              if v == PathOf(virt) && Shares(m.mem, r, m.active, v.i4) then None else Walk(m.mem, r, v))
  {
    assert PageOf(virt) == virt;
    FindLeafIsLookup(m, m.active, PathOf(virt));
    UnmapPathEffect(m, m.active, PathOf(virt));
  }

  lemma UnwindOne(m0: Machine, m: Machine, virt: nat, paths: seq<Path>, ps: seq<nat>, pages: set<nat>)
    returns (m': Machine, qs: seq<nat>)
    requires Sound(m0) && Ahead(m0, m, paths, ps, pages) && 0 < |ps| && NoDup(paths)
    requires forall j :: 0 <= j < |paths| ==> ValidPath(paths[j])
    requires forall x :: x in m0.pool.stack ==> x in pages
    requires paths[|ps| - 1] == PathOf(virt) && !BadPage(virt)
    ensures m' == UnmapBack(m, virt) && |qs| == |ps| - 1 && Ahead(m0, m', paths, qs, pages)
  {
    m', qs := UnmapBack(m, virt), ps[..|ps| - 1];
    var k := |ps| - 1;
    var phys := ps[k];
    UnmapOneWalks(m, virt, phys);
    var m1 := UnmapInRoot(m, m.active, virt).0;
    ExtraLess(m0, m, m1, paths, ps);
    assert ps[..k] + [phys] == ps;
    assert phys in ps;
    GiveBack(m0, m1, paths, ps[..k], phys, pages);
  }

  lemma {:induction false} UnwindAll(m0: Machine, m: Machine, base: nat, paths: seq<Path>, ps: seq<nat>,
                                     pages: set<nat>)
    returns (m': Machine, qs: seq<nat>)
    requires Sound(m0) && Ahead(m0, m, paths, ps, pages) && PathsOf(base, paths)
    requires forall x :: x in m0.pool.stack ==> x in pages
    ensures m' == Unwind(m, base, |ps|) && |qs| == 0 && Ahead(m0, m', paths, qs, pages)
    ensures UnwindSound(m, base, |ps|)
    decreases |ps|
  {
    hide UnmapBack, Extra, Held;
    m', qs := m, ps;
    if |ps| > 0 {
      var m1, ps1 := UnwindOne(m0, m, PageAt(base, |ps| - 1), paths, ps, pages);
      m', qs := UnwindAll(m0, m1, base, paths, ps1, pages);
    }
  }

  lemma {:induction false} GrowAll(m0: Machine, m: Machine, base: nat, paths: seq<Path>, ps: seq<nat>, pages: set<nat>)
    returns (m': Machine, g: Growth, qs: seq<nat>)
    requires Sound(m0) && Ahead(m0, m, paths, ps, pages) && PathsOf(base, paths)
    requires forall x :: x in m0.pool.stack ==> x in pages
    ensures (m', g) == GrowFrom(m, base, |ps|, |paths|) && Ahead(m0, m', paths, qs, pages)
    ensures GrowSound(m, base, |ps|, |paths|)
    ensures g.Mapped? ==> |qs| == |paths|
    ensures g.OutOfPages? ==> ps <= qs && |qs| < |paths| && m'.pool.stack == []
    ensures g.MapFailed? ==> |qs| == 0
    decreases |paths| - |ps|
  {
    hide MapFresh, UnmapBack, Extra, Held;
    m', g, qs := m, Mapped, ps;
    if |ps| < |paths| {
      var m1, g1, phys := GrowOne(m0, m, PageAt(base, |ps|), paths, ps, pages);
      g := g1;
      match g1 {
        case Mapped =>
          m', g, qs := GrowAll(m0, m1, base, paths, ps + [phys], pages);
        case MapFailed(_) =>
          m', qs := UnwindAll(m0, m1, base, paths, ps, pages);
        case OutOfPages(_) =>
      }
    }
  }

  /**
   * Growth maps the whole range, frame by frame, or fails. When a mapping fails, every data page the
   * call had mapped is unmapped and every data page it had taken is back on the stack: every root
   * translates as before and whatever left the stack is now a table.
   */
  lemma GrowthOutcome(m: Machine, base: nat, n: nat, pages: set<nat>) returns (paths: seq<Path>, qs: seq<nat>)
    requires Sound(m) && PhysicalPages.Conserved(m.pool, pages) && KernelRange(base, n)
    ensures paths == PathsIn(base, n) && |paths| == n && PathsOf(base, paths) && GrowSound(m, base, 0, n)
    ensures var (m', g) := GrowFrom(m, base, 0, n);
      && Sound(m') && PhysicalPages.Conserved(m'.pool, pages) && m'.active == m.active
      && Extra(m, m', paths, qs) && Held(m, m', qs)
      && (g.Mapped? ==> |qs| == n)
      && (g.OutOfPages? ==> |qs| < n && m'.pool.stack == [])
      && (g.MapFailed? ==> forall r, v :: IsRoot(m.mem, r) && ValidPath(v) ==> Walk(m'.mem, r, v) == Walk(m.mem, r, v))
      && (g.MapFailed? ==> forall x :: x in m.pool.stack ==> x in m'.pool.stack || x in m'.mem)
  {
    paths := RangePaths(base, n);
    assert Ahead(m, m, paths, [], pages);
    var m', g;
    m', g, qs := GrowAll(m, m, base, paths, [], pages);
  }

  lemma {:induction false} FailedStatus(m: Machine, base: nat, k: nat, n: nat)
    ensures !GrowFrom(m, base, k, n).1.Mapped? ==> GrowFrom(m, base, k, n).1.status != Ok
    decreases n - k
  {
    hide MapInRoot, UnmapBack;
    if k < n {
      FailedStatus(MapFresh(m, PageAt(base, k)).0, base, k + 1, n);
    }
  }

  /** While the first page past the committed end is mapped, growth fails and leaves it mapped. */
  lemma GrowthBlocked(m: Machine, base: nat, n: nat)
    requires Sound(m) && KernelRange(base, n) && n > 0 && Lookup(m.mem, m.active, PathOf(base)).Some?
    ensures var (m', g) := GrowFrom(m, base, 0, n);
      !g.Mapped? && Lookup(m'.mem, m'.active, PathOf(base)).Some?
  {
    RangePages(base, n, 0);
    assert PageAt(base, 0) == base;
    var (pool, page) := PhysicalPages.Alloc(m.pool);
    if page.Good? {
      var stack := m.pool.stack;
      var m1 := m.(pool := pool);
      assert page.value in stack;
      assert Sound(m1) by {
        assert forall x :: x in stack[..|stack| - 1] ==> x in stack;
      }
      MapOneWalks(m1, base, page.value);
    }
  }
}
