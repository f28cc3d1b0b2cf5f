/**
 * What growing the kernel heap costs, told from the machine before the call: exactly when growth succeeds,
 * when it fails and is rolled back, and when it fails and leaves pages mapped.
 */
module GrowthCost {
  import opened KernelTypes
  import opened PageTables
  import opened Words
  import opened Paging
  import opened TableGrowth
  import opened VirtualMemory
  import opened HeapGrowth
  import opened HeapBlocks
  import PhysicalPages

  // ----- the pages a range needs ----------------------------------------------------------------------------

  /** Something is already mapped there, or a large page is in the way. */
  predicate Obstacle(mem: Memory, root: nat, p: Path) {
    Blocked(mem, root, LEVELS, p) || Lookup(mem, root, p).Some?
  }

  function FirstObstacle(mem: Memory, root: nat, paths: seq<Path>, i: nat): (r: nat)
    requires i <= |paths|
    ensures i <= r <= |paths| && (r < |paths| ==> Obstacle(mem, root, paths[r]))
    ensures forall j :: i <= j < r ==> !Obstacle(mem, root, paths[j])
    decreases |paths| - i
  {
    if i == |paths| || Obstacle(mem, root, paths[i]) then i else FirstObstacle(mem, root, paths, i + 1)
  }

  /** The tables path v has once all of ps are mapped: its own, and those it shares with one of ps. */
  function Cover(mem: Memory, root: nat, ps: seq<Path>, v: Path): (d: nat)
    ensures d <= 3
  {
    if ps == [] then Depth(mem, root, LEVELS, v)
    else Max(Cover(mem, root, ps[..|ps| - 1], v), Common(ps[|ps| - 1], v))
  }

  /** The tables the i-th page still lacks after the pages before it. */
  function Lacking(mem: Memory, root: nat, paths: seq<Path>, i: nat): nat
    requires i < |paths|
  {
    3 - Cover(mem, root, paths[..i], paths[i])
  }

  /** The data pages and tables that mapping the first j pages takes. */
  function Need(mem: Memory, root: nat, paths: seq<Path>, j: nat): nat
    requires j <= |paths|
  {
    if j == 0 then 0 else Need(mem, root, paths, j - 1) + 1 + Lacking(mem, root, paths, j - 1)
  }

  lemma {:induction false} NeedGrows(mem: Memory, root: nat, paths: seq<Path>, i: nat, j: nat)
    requires i <= j <= |paths|
    ensures Need(mem, root, paths, i) + (j - i) <= Need(mem, root, paths, j)
    decreases j
  {
    if i < j {
      NeedGrows(mem, root, paths, i, j - 1);
    }
  }

  // ----- growth, page by page -------------------------------------------------------------------------------

  /** The machine after the first k pages of the range were mapped. */
  ghost predicate Tracked(m0: Machine, m: Machine, paths: seq<Path>, k: nat) {
    && Sound(m) && m.active == m0.active && k <= FirstObstacle(m0.mem, m.active, paths, 0)
    && |m.pool.stack| + Need(m0.mem, m.active, paths, k) == |m0.pool.stack|
    && (forall v :: ValidPath(v) ==> Depth(m.mem, m.active, LEVELS, v) == Cover(m0.mem, m.active, paths[..k], v))
    && (forall v :: ValidPath(v) && v !in paths[..k] ==>
          (Obstacle(m.mem, m.active, v) <==> Obstacle(m0.mem, m.active, v)))
  }

  lemma TrackStart(m: Machine, paths: seq<Path>)
    requires Sound(m)
    ensures Tracked(m, m, paths, 0)
  {
    hide Depth, Obstacle;
    assert paths[..0] == [];
  }

  lemma TopPage(m: Machine)
    requires Sound(m)
    ensures m.pool.stack != [] ==>
      var (pool, page) := PhysicalPages.Alloc(m.pool);
      && page.Good? && PageAligned(page.value) && page.value < PHYS_END && |pool.stack| == |m.pool.stack| - 1
    ensures m.pool.stack == [] ==> PhysicalPages.Alloc(m.pool).1.Bad?
  {
    if m.pool.stack != [] {
      assert m.pool.stack[|m.pool.stack| - 1] in m.pool.stack;
    }
  }

  /** One mapping in the active root: when it succeeds, what it takes, and what it leaves for the other paths. */
  lemma MapCost(m: Machine, virt: nat, phys: nat)
    requires Sound(m) && !BadPage(virt) && PageAligned(phys) && phys < PHYS_END
    ensures var (m', s) := MapInRoot(m, m.active, virt, phys, WRITE_FLAGS);
      var p := PathOf(virt);
      && Sound(m') && m'.active == m.active
      && (s == Ok <==> !Obstacle(m.mem, m.active, p) && 3 - Depth(m.mem, m.active, LEVELS, p) <= |m.pool.stack|)
      && (s == Ok ==> Deepens(m.mem, m'.mem, m.active, p))
      && (s == Ok ==> |m'.pool.stack| + 3 == |m.pool.stack| + Depth(m.mem, m.active, LEVELS, p))
      && (s == Ok ==> forall v :: ValidPath(v) && v != p ==>
            (Obstacle(m'.mem, m.active, v) <==> Obstacle(m.mem, m.active, v)))
  {
    var p := PathOf(virt);
    var e := Entry(true, true, false, false, Frame(phys));
    assert IsRoot(m.mem, m.active);
    if !Blocked(m.mem, m.active, LEVELS, p) {
      MissingIsRest(m.mem, m.active, LEVELS, p);
    }
    hide Sound, PathOf, Frame, MapPath, Upper, Missing, Shares, BadPage, Depth, Blocked, Walk;
    MapPathEffect(m, m.active, p, e, false);
    MapDeepens(m, m.active, p, e, false);
  }

  lemma TrackOne(m0: Machine, m: Machine, paths: seq<Path>, k: nat, virt: nat)
    requires Tracked(m0, m, paths, k) && k < |paths| && paths[k] == PathOf(virt) && !BadPage(virt) && NoDup(paths)
    requires forall j :: 0 <= j < |paths| ==> ValidPath(paths[j])
    ensures var (m1, g) := MapFresh(m, virt);
      && (g.OutOfPages? <==> m.pool.stack == [])
      && (g.Mapped? <==> m.pool.stack != [] && !Obstacle(m0.mem, m.active, paths[k])
                         && Need(m0.mem, m.active, paths, k + 1) <= |m0.pool.stack|)
      && (g.Mapped? ==> Tracked(m0, m1, paths, k + 1))
  {
    hide Sound, PathOf, BadPage, MapInRoot, Depth, Obstacle, Cover, Common, FirstObstacle, Deepens;
    TopPage(m);
    PopSound(m);
    if m.pool.stack != [] {
      var (pool, page) := PhysicalPages.Alloc(m.pool);
      var m1 := m.(pool := pool);
      MapCost(m1, virt, page.value);
      assert paths[k] !in paths[..k];
      assert Depth(m.mem, m.active, LEVELS, paths[k]) == Cover(m0.mem, m.active, paths[..k], paths[k]);
      var (m2, s) := MapInRoot(m1, m.active, virt, page.value, WRITE_FLAGS);
      if s == Ok {
        TrackMore(m0, m, m2, paths, k);
      }
    }
  }

  lemma TrackMore(m0: Machine, m: Machine, m2: Machine, paths: seq<Path>, k: nat)
    requires Tracked(m0, m, paths, k) && k < |paths| && ValidPath(paths[k]) && Sound(m2) && m2.active == m.active
    requires !Obstacle(m0.mem, m.active, paths[k]) && Deepens(m.mem, m2.mem, m.active, paths[k])
    requires |m2.pool.stack| + 4 == |m.pool.stack| + Depth(m.mem, m.active, LEVELS, paths[k])
    requires forall v :: ValidPath(v) && v != paths[k] ==>
      (Obstacle(m2.mem, m.active, v) <==> Obstacle(m.mem, m.active, v))
    ensures Tracked(m0, m2, paths, k + 1)
  {
    hide Sound, Depth, Obstacle, Cover, Common, FirstObstacle;
    CoverMore(m0.mem, m.active, paths, k);
    ObstacleLater(m0.mem, m.active, paths, k);
    assert paths[..k + 1] == paths[..k] + [paths[k]];
  }

  lemma CoverMore(mem: Memory, root: nat, paths: seq<Path>, k: nat)
    requires k < |paths|
    ensures forall v :: Cover(mem, root, paths[..k + 1], v) == Max(Cover(mem, root, paths[..k], v), Common(paths[k], v))
  {
    hide Depth, Common;
    assert paths[..k + 1][..k] == paths[..k];
  }

  lemma ObstacleLater(mem: Memory, root: nat, paths: seq<Path>, k: nat)
    requires k < |paths| && k <= FirstObstacle(mem, root, paths, 0) && !Obstacle(mem, root, paths[k])
    ensures k + 1 <= FirstObstacle(mem, root, paths, 0)
  {
    hide Obstacle;
  }

  /** The stack holds just what the first j pages need, and nothing is in the way of those. */
  predicate JustFor(m: Machine, paths: seq<Path>, j: nat) {
    j <= |paths| && j <= FirstObstacle(m.mem, m.active, paths, 0) && Need(m.mem, m.active, paths, j) == |m.pool.stack|
  }

  /** How far growth gets, from the machine before it. */
  lemma {:induction false} GrowExact(m0: Machine, m: Machine, base: nat, paths: seq<Path>, k: nat)
    requires Tracked(m0, m, paths, k) && k <= |paths| && PathsOf(base, paths)
    ensures var g := GrowFrom(m, base, k, |paths|).1;
      var stack, f := |m0.pool.stack|, FirstObstacle(m0.mem, m.active, paths, 0);
      && (g.Mapped? <==> f == |paths| && Need(m0.mem, m.active, paths, |paths|) <= stack)
      && (g.OutOfPages? <==> exists j :: k <= j < |paths| && JustFor(m0, paths, j))
    decreases |paths| - k
  {
    hide Sound, MapFresh, Obstacle, Depth, Cover, Lacking, UnmapBack;
    var n, f := |paths|, FirstObstacle(m0.mem, m.active, paths, 0);
    if k < n {
      TrackOne(m0, m, paths, k, PageAt(base, k));
      var (m1, g) := MapFresh(m, PageAt(base, k));
      forall j | k < j <= n ensures Need(m0.mem, m.active, paths, k + 1) <= Need(m0.mem, m.active, paths, j) {
        NeedGrows(m0.mem, m.active, paths, k + 1, j);
      }
      NeedGrows(m0.mem, m.active, paths, k, k + 1);
      match g {
        case Mapped => GrowExact(m0, m1, base, paths, k + 1);
        case OutOfPages(_) => assert JustFor(m0, paths, k);
        case MapFailed(_) =>
      }
    }
  }

  /** Told from the machine before the call: growth maps the whole range. */
  predicate CanGrow(m: Machine, base: nat, n: nat) {
    var paths := PathsIn(base, n);
    FirstObstacle(m.mem, m.active, paths, 0) == n && Need(m.mem, m.active, paths, n) <= |m.pool.stack|
  }

  /** Told from the machine before the call: pages run out when some pages, but not all, have been mapped. */
  predicate Leaks(m: Machine, base: nat, n: nat) {
    exists j :: 0 < j < n && JustFor(m, PathsIn(base, n), j)
  }

  /** Every root translates as before. */
  ghost predicate SameWalks(m: Machine, m': Machine) {
    forall r, v :: IsRoot(m.mem, r) && ValidPath(v) ==> Walk(m'.mem, r, v) == Walk(m.mem, r, v)
  }

  /** Growth succeeds exactly when nothing is in the way and the stack covers all data pages and tables. */
  lemma CanGrowIff(m: Machine, base: nat, n: nat)
    requires Sound(m) && KernelRange(base, n)
    ensures GrowFrom(m, base, 0, n).1.Mapped? <==> CanGrow(m, base, n)
    ensures GrowFrom(m, base, 0, n).1.OutOfPages? <==> Leaks(m, base, n) || (n > 0 && m.pool.stack == [])
  {
    hide GrowFrom, Sound, FirstObstacle, PathsOf, Need, PathsIn, KernelRange;
    var paths := RangePaths(base, n);
    TrackStart(m, paths);
    GrowExact(m, m, base, paths, 0);
    NeedNothing(m.mem, m.active, paths);
    if GrowFrom(m, base, 0, n).1.OutOfPages? && m.pool.stack != [] {
      var j :| 0 <= j < n && JustFor(m, paths, j);
      assert j > 0;
    }
    if n > 0 && m.pool.stack == [] {
      assert JustFor(m, paths, 0);
    }
  }

  lemma NeedNothing(mem: Memory, root: nat, paths: seq<Path>)
    ensures Need(mem, root, paths, 0) == 0
  {
  }

  /**
   * A growth that fails leaves pages mapped exactly when, for some 0 < j < n with nothing in the way before, the
   * free stack holds just what the first j pages need.
   */
  lemma LeakIff(m: Machine, base: nat, n: nat, pages: set<nat>)
    requires Sound(m) && PhysicalPages.Conserved(m.pool, pages) && KernelRange(base, n)
    ensures var (m', g) := GrowFrom(m, base, 0, n);
      !g.Mapped? && !SameWalks(m, m') <==> Leaks(m, base, n)
  {
    CanGrowIff(m, base, n);
    var paths, qs := GrowthOutcome(m, base, n, pages);
    hide CanGrow, Sound, PathsOf, PhysicalPages.Conserved;
    var (m', g) := GrowFrom(m, base, 0, n);
    if Leaks(m, base, n) {
      LeakMaps(m, base, n, pages);
    }
    if g.OutOfPages? && !Leaks(m, base, n) {
      assert m' == m;
    }
  }

  /** When pages run out part-way, the first page stays mapped. */
  lemma LeakMaps(m: Machine, base: nat, n: nat, pages: set<nat>)
    requires Sound(m) && PhysicalPages.Conserved(m.pool, pages) && KernelRange(base, n) && Leaks(m, base, n)
    ensures n > 0 && ValidPath(PathOf(base)) && IsRoot(m.mem, m.active)
    ensures var (m', g) := GrowFrom(m, base, 0, n);
      && g.OutOfPages? && Sound(m') && m'.active == m.active
      && Lookup(m'.mem, m.active, PathOf(base)).Some? && Walk(m.mem, m.active, PathOf(base)) == None
  {
    var paths := RangePaths(base, n);
    CanGrowIff(m, base, n);
    StackNeeded(m, base, n);
    assert PageAt(base, 0) == base;
    EmptyAhead(m, paths, pages);
    hide CanGrow, Leaks, PhysicalPages.Conserved, MapFresh;
    var m1, g1, phys := GrowOne(m, m, base, paths, [], pages);
    assert [] + [phys] == [phys];
    var m', g, qs := GrowAll(m, m1, base, paths, [phys], pages);
    assert Lookup(m'.mem, m.active, paths[0]).Some?;
    SharesItself(m.mem, m.active, paths[0].i4);
  }

  lemma EmptyAhead(m: Machine, paths: seq<Path>, pages: set<nat>)
    requires Sound(m) && PhysicalPages.Conserved(m.pool, pages)
    ensures Ahead(m, m, paths, [], pages)
  {
  }

  lemma StackNeeded(m: Machine, base: nat, n: nat)
    requires Leaks(m, base, n)
    ensures n > 0 && m.pool.stack != []
  {
    var paths := PathsIn(base, n);
    var j :| 0 < j < n && JustFor(m, paths, j);
    NeedGrows(m.mem, m.active, paths, 0, j);
  }

  /** After a leak every later growth from that address fails, and leaves the page mapped. */
  lemma LeakBlocksGrowth(m: Machine, base: nat, n: nat, again: nat, pages: set<nat>)
    requires Sound(m) && PhysicalPages.Conserved(m.pool, pages)
    requires KernelRange(base, n) && KernelRange(base, again) && again > 0
    requires Leaks(m, base, n)
    ensures var m' := GrowFrom(m, base, 0, n).0;
      var (m'', g) := GrowFrom(m', base, 0, again);
      !g.Mapped? && Lookup(m''.mem, m''.active, PathOf(base)).Some?
  {
    hide Leaks, GrowFrom, PhysicalPages.Conserved;
    LeakMaps(m, base, n, pages);
    GrowthBlocked(GrowFrom(m, base, 0, n).0, base, again);
  }

  /** With all leaf tables present, that is: fewer free pages than asked for, but some. */
  lemma LeakWithTables(m: Machine, base: nat, n: nat)
    requires forall j :: 0 <= j < n ==> Depth(m.mem, m.active, LEVELS, PathsIn(base, n)[j]) == 3
    requires FirstObstacle(m.mem, m.active, PathsIn(base, n), 0) == n
    ensures Leaks(m, base, n) <==> 0 < |m.pool.stack| < n
    ensures CanGrow(m, base, n) <==> n <= |m.pool.stack|
  {
    var paths := PathsIn(base, n);
    forall j | 0 <= j <= n ensures Need(m.mem, m.active, paths, j) == j {
      NeedNoTables(m.mem, m.active, paths, j);
    }
    if 0 < |m.pool.stack| < n {
      assert JustFor(m, paths, |m.pool.stack|);
    }
  }

  lemma {:induction false} NeedNoTables(mem: Memory, root: nat, paths: seq<Path>, j: nat)
    requires j <= |paths| && forall i :: 0 <= i < |paths| ==> Depth(mem, root, LEVELS, paths[i]) == 3
    ensures Need(mem, root, paths, j) == j
    decreases j
  {
    if j > 0 {
      NeedNoTables(mem, root, paths, j - 1);
      CoverAtLeast(mem, root, paths[..j - 1], paths[j - 1]);
    }
  }

  lemma {:induction false} CoverAtLeast(mem: Memory, root: nat, ps: seq<Path>, v: Path)
    ensures Cover(mem, root, ps, v) >= Depth(mem, root, LEVELS, v)
  {
    if ps != [] {
      CoverAtLeast(mem, root, ps[..|ps| - 1], v);
    }
  }

  // ----- allocation over the machine ---------------------------------------------------------------------------

  /** The machine after extending the heap for this much payload. */
  function ExtendMachine(m: Machine, h: HeapState, payload: nat): Machine {
    if RoomFor(h, payload) then GrowFrom(m, h.end, 0, CommitSize(payload) / PAGE_SIZE).0 else m
  }

  /** Whether the pages for this much payload can be committed. */
  predicate CanExtend(m: Machine, h: HeapState, payload: nat) {
    CanGrow(m, h.end, CommitSize(payload) / PAGE_SIZE)
  }

  /** What an allocation does to the page tables and the pool: nothing, unless the heap has to grow. */
  function KallocMachine(m: Machine, h: HeapState, size: nat): Machine {
    match Requested(size)
    case None => m
    case Some(requested) => if FirstFit(h.blocks, requested).Some? then m else ExtendMachine(m, h, requested)
  }

  /** What an allocation does to the block list, and the payload address. */
  function KallocBlocks(m: Machine, h: HeapState, size: nat): (HeapState, nat) {
    Kalloc(h, size, Requested(size).Some? && CanExtend(m, h, Requested(size).value))
  }

  /**
   * The whole allocation, told from block list and machine before the call: it succeeds exactly if the size is in
   * bounds and a free block holds it, or p pages fit behind the heap and can be mapped, p being the least number of
   * four or more that hold the size with a header. Only in the second case the machine changes, by growing p pages.
   */
  lemma KallocExact(m: Machine, h: HeapState, size: nat, p: nat)
    requires HeapOk(h) && PagesFor(size, p)
    ensures var fits, room := 0 < size <= 0x40_0000 - 48, h.end + 4096 * p <= HEAP_BASE + HEAP_SIZE;
      && (KallocBlocks(m, h, size).1 != 0 <==>
            fits && (HasFree(h.blocks, size) || (room && CanGrow(m, h.end, p))))
      && KallocMachine(m, h, size) ==
         if fits && !HasFree(h.blocks, size) && room then GrowFrom(m, h.end, 0, p).0 else m
  {
    hide CanGrow, GrowFrom, HasFree, FirstFit, Kalloc, CommitSize, Requested, HeapOk;
    RequestedExact(size);
    var mapped := Requested(size).Some? && CanExtend(m, h, Requested(size).value);
    KallocIff(h, size, mapped, p);
    if Requested(size).Some? {
      CommitExact(size, Requested(size).value, p);
      SizedBlocks(h);
      FitExact(h.blocks, size, Requested(size).value);
    }
  }

  lemma CommitRange(h: HeapState, payload: nat)
    requires HeapOk(h) && RoomFor(h, payload)
    ensures KernelRange(h.end, CommitSize(payload) / PAGE_SIZE)
  {
    TiledBounds(h.blocks, HEAP_BASE, h.end);
  }

  lemma TiledBounds(bs: seq<Block>, base: nat, end: nat)
    requires Shape(bs, base, end)
    ensures base <= end
  {
    if bs != [] {
      Aligned(bs, base, end, 0);
    }
  }

  // ----- a machine that leaks --------------------------------------------------------------------------------

  /** A bare root at 0x1000 beside four free pages, and the two lowest kernel pages to be mapped. */
  lemma LeakHappens() returns (m: Machine, pages: set<nat>)
    ensures Sound(m) && PhysicalPages.Conserved(m.pool, pages)
    ensures KernelRange(KERNEL_BASE, 2) && Leaks(m, KERNEL_BASE, 2)
  {
    var entries := [PhysicalPages.MemEntry(0x2000, 0x4000, true)];
    var stack := [0x2000, 0x3000, 0x4000, 0x5000];
    var pool := FourPages();
    pages := set x | x in PhysicalPages.AllPages(PhysicalPages.UsableRegions(entries));
    m := BareMachine(0x1000, pool);
    BareSound(0x1000, pool);
    var paths := PathsIn(KERNEL_BASE, 2);
    hide Sound, PathOf;
    forall j | 0 <= j < 2 ensures !Obstacle(m.mem, 0x1000, paths[j]) {
      BareEmpty(0x1000, pool, paths[j]);
    }
    BareEmpty(0x1000, pool, paths[0]);
    MissingIsRest(m.mem, 0x1000, LEVELS, paths[0]);
    assert paths[..0] == [];
    assert Need(m.mem, 0x1000, paths, 1) == 4;
    assert JustFor(m, paths, 1);
  }

  lemma FourPages() returns (pool: PhysicalPages.Pool)
    ensures var entries := [PhysicalPages.MemEntry(0x2000, 0x4000, true)];
      PhysicalPages.Conserved(pool, set x | x in PhysicalPages.AllPages(PhysicalPages.UsableRegions(entries)))
    ensures pool.stack == [0x2000, 0x3000, 0x4000, 0x5000] && pool.ready
  {
    var e := PhysicalPages.MemEntry(0x2000, 0x4000, true);
    var r := PhysicalPages.Region(0x2000, 0x4000);
    assert PhysicalPages.Trim(e) == Some(r);
    assert PhysicalPages.Pages(r) == [0x2000, 0x3000, 0x4000, 0x5000];
    assert [e][1..] == [] && [r][1..] == [];
    assert PhysicalPages.UsableRegions([e]) == [r];
    assert PhysicalPages.AllPages([r]) == PhysicalPages.Pages(r) + PhysicalPages.AllPages([]);
    PhysicalPages.InitConserves([e]);
    PhysicalPages.CollectAll(PhysicalPages.EMPTY, [e]);
    pool := PhysicalPages.Init([e]).0;
  }
}
