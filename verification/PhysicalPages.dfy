/** The physical page pool: a stack of free 4 KiB pages collected from the boot memory map. */
module PhysicalPages {
  import opened KernelTypes

  const MAX_PAGES: nat := 262144
  const MAX_REGIONS: nat := 128

  datatype Region = Region(base: nat, length: nat)

  /** One entry of the boot memory map; both numbers are 64-bit. */
  datatype MemEntry = MemEntry(base: nat, length: nat, usable: bool)

  /** The recorded usable and reserved regions. */
  datatype Regions = Regions(usable: seq<Region>, reserved: seq<Region>)

  datatype Pool = Pool(stack: seq<nat>, managed: nat, taken: nat, regions: Regions, ready: bool)

  const EMPTY: Pool := Pool([], 0, 0, Regions([], []), false)

  // ----- region predicates, in 64-bit arithmetic ------------------------------------------

  function AlignUp(v: nat): nat { (v + 4095) % TWO64 / 4096 * 4096 }
  function AlignDown(v: nat): nat { v / 4096 * 4096 }

  predicate ContainsPage(r: Region, phys: nat) {
    var end := (r.base + r.length) % TWO64;
    end >= r.base && phys >= r.base && (phys + PAGE_SIZE) % TWO64 <= end
  }

  predicate OverlapsPage(r: Region, phys: nat) {
    var pageEnd := (phys + PAGE_SIZE) % TWO64;
    var end := (r.base + r.length) % TWO64;
    pageEnd < phys || end < r.base || (phys < end && pageEnd > r.base)
  }

  predicate IsUsable(p: Regions, phys: nat) {
    PageAligned(phys) && exists i :: 0 <= i < |p.usable| && ContainsPage(p.usable[i], phys)
  }

  predicate IsReserved(p: Regions, phys: nat) {
    !PageAligned(phys)
    || (exists i :: 0 <= i < |p.reserved| && OverlapsPage(p.reserved[i], phys))
    || !IsUsable(p, phys)
  }

  /** The pages the region tables allow to be put on the stack. */
  predicate Freeable(p: Regions, phys: nat) { IsUsable(p, phys) && !IsReserved(p, phys) }

  // ----- allocation and release ------------------------------------------------------------

  function Alloc(p: Pool): (Pool, Result<nat>) {
    if !p.ready then (p, Bad(NotSup))
    else if p.stack == [] then (p, Bad(NoMem))
    else (p.(stack := p.stack[..|p.stack| - 1], taken := p.taken + 1), Good(p.stack[|p.stack| - 1]))
  }

  function Free(p: Pool, phys: nat): (Pool, Status) {
    if !p.ready then (p, NotSup)
    else if !PageAligned(phys) then (p, Inval)
    else if !Freeable(p.regions, phys) then (p, Bounds)
    else if phys in p.stack then (p, Busy)
    else if |p.stack| >= MAX_PAGES then (p, NoMem)
    else (p.(stack := p.stack + [phys], taken := if p.taken > 0 then p.taken - 1 else 0), Ok)
  }

  /** The managed pages are exactly those the region tables let back in. */
  ghost predicate Governs(g: Regions, pages: set<nat>) {
    && (forall x :: x in pages ==> Freeable(g, x) && x < PHYS_END)
    && (forall x: nat :: Freeable(g, x) && x < TWO64 - PAGE_SIZE ==> x in pages)
  }

  /** The free stack holds some of the pages, once each, and the counters add up. */
  ghost predicate Balanced(p: Pool, pages: set<nat>) {
    && NoDup(p.stack)
    && (forall x :: x in p.stack ==> x in pages)
    && |pages| == p.managed <= MAX_PAGES
    && |p.stack| + p.taken == p.managed
  }

  ghost predicate Conserved(p: Pool, pages: set<nat>) {
    p.ready && Governs(p.regions, pages) && Balanced(p, pages)
  }

  /** The pages that were handed out and not returned. */
  ghost function Out(p: Pool, pages: set<nat>): set<nat> {
    pages - set x | x in p.stack
  }

  lemma StackFits(p: Pool, pages: set<nat>)
    requires Balanced(p, pages)
    ensures |p.stack| + |Out(p, pages)| == p.managed
    ensures |Out(p, pages)| == p.taken
  {
    var free := set x | x in p.stack;
    NoDupCount(p.stack);
    assert pages == free + Out(p, pages);
  }

  lemma PopBalances(p: Pool, pages: set<nat>)
    requires Balanced(p, pages) && p.ready && p.stack != []
    ensures Balanced(Alloc(p).0, pages)
    ensures var top := p.stack[|p.stack| - 1];
      top in pages && top !in Out(p, pages) && Out(Alloc(p).0, pages) == Out(p, pages) + {top}
  {
    var q, top := Alloc(p).0, p.stack[|p.stack| - 1];
    assert top in p.stack;
    assert p.stack == q.stack + [top];
    assert forall x :: x in p.stack <==> x in q.stack || x == top;
    assert top !in q.stack;
  }

  lemma PushBalances(p: Pool, pages: set<nat>, phys: nat)
    requires Balanced(p, pages) && phys in Out(p, pages)
    ensures p.taken > 0 && |p.stack| < MAX_PAGES
    ensures var q := p.(stack := p.stack + [phys], taken := p.taken - 1);
      Balanced(q, pages) && Out(q, pages) == Out(p, pages) - {phys}
  {
    StackFits(p, pages);
    assert |Out(p, pages)| > 0;
    var stack := p.stack + [phys];
    assert forall x :: x in stack <==> x in p.stack || x == phys;
  }

  /** Allocation fails only when every page is out; otherwise it hands out a page that was not. */
  lemma AllocConserves(p: Pool, pages: set<nat>)
    requires Conserved(p, pages)
    ensures Conserved(Alloc(p).0, pages)
    ensures Alloc(p).1.Bad? <==> Out(p, pages) == pages
    ensures Alloc(p).1.Bad? ==> Alloc(p) == (p, Bad(NoMem))
    ensures Alloc(p).1.Good? ==>
      var page := Alloc(p).1.value;
      page in pages && page !in Out(p, pages) && Out(Alloc(p).0, pages) == Out(p, pages) + {page}
  {
    if p.stack == [] {
      assert Out(p, pages) == pages;
    } else {
      PopBalances(p, pages);
      assert p.stack[0] in p.stack && p.stack[0] !in Out(p, pages);
    }
  }

  /** The region tables do not mistake this address for a managed page. */
  predicate SafeAddress(g: Regions, phys: nat) {
    !PageAligned(phys) || phys < TWO64 - PAGE_SIZE || g.reserved != [] || g.usable == []
  }

  lemma FreeableIsManaged(g: Regions, pages: set<nat>, phys: nat)
    requires Governs(g, pages) && phys < TWO64 && SafeAddress(g, phys)
    ensures Freeable(g, phys) <==> phys in pages
  {
    if PageAligned(phys) && phys >= TWO64 - PAGE_SIZE && g.reserved != [] {
      assert OverlapsPage(g.reserved[0], phys);
    }
  }

  /**
   * Release succeeds exactly on the pages that are out, and takes exactly that page back. FreeExact says for
   * which addresses besides the safe ones.
   */
  lemma FreeConserves(p: Pool, pages: set<nat>, phys: nat)
    requires Conserved(p, pages) && phys < TWO64 && SafeAddress(p.regions, phys)
    ensures Conserved(Free(p, phys).0, pages)
    ensures Free(p, phys).1 == Ok <==> phys in Out(p, pages)
    ensures Free(p, phys).1 == Ok ==>
      Out(Free(p, phys).0, pages) == Out(p, pages) - {phys} && Alloc(Free(p, phys).0).1 == Good(phys)
    ensures Free(p, phys).1 != Ok ==> Free(p, phys).0 == p
  {
    FreeableIsManaged(p.regions, pages, phys);
    if phys in Out(p, pages) {
      PushBalances(p, pages, phys);
    }
  }

  /**
   * The end of the last page wraps to zero, so the bounds test of the usable table passes for it;
   * with no reserved region recorded the page enters the stack though it was never handed out.
   */
  lemma LastPageSlipsIn(p: Pool)
    requires p.ready && p.regions.reserved == [] && |p.stack| < MAX_PAGES && TWO64 - PAGE_SIZE !in p.stack
    requires |p.regions.usable| > 0 && p.regions.usable[0].base + p.regions.usable[0].length <= TWO64 - PAGE_SIZE
    ensures Free(p, TWO64 - PAGE_SIZE).1 == Ok
  {
    assert ContainsPage(p.regions.usable[0], TWO64 - PAGE_SIZE);
  }

  /**
   * Release succeeds exactly on the pages that are out if and only if the address is safe or the stack is full:
   * the one address that is not safe is the last page of the 64-bit space without a reserved region.
   */
  lemma FreeExact(p: Pool, pages: set<nat>, phys: nat)
    requires Conserved(p, pages) && phys < TWO64
    requires forall i :: 0 <= i < |p.regions.usable| ==>
      p.regions.usable[i].base + p.regions.usable[i].length <= TWO64 - PAGE_SIZE
    ensures (Free(p, phys).1 == Ok <==> phys in Out(p, pages)) <==>
      SafeAddress(p.regions, phys) || |p.stack| >= MAX_PAGES
  {
    if SafeAddress(p.regions, phys) {
      FreeConserves(p, pages, phys);
    } else {
      assert phys == TWO64 - PAGE_SIZE && phys !in pages && phys !in p.stack;
      if |p.stack| < MAX_PAGES {
        LastPageSlipsIn(p);
      }
    }
  }

  /** Why a release fails: not a page address, not a managed page, or a page that is free already. */
  lemma FreeErrors(p: Pool, pages: set<nat>, phys: nat)
    requires Conserved(p, pages) && phys < TWO64 && SafeAddress(p.regions, phys)
    ensures Free(p, phys).1 ==
      if !PageAligned(phys) then Inval else if phys !in pages then Bounds else if phys in p.stack then Busy else Ok
  {
    FreeableIsManaged(p.regions, pages, phys);
    FreeConserves(p, pages, phys);
  }

  /** Before initialisation nothing is handed out or taken back. */
  lemma NotReady(p: Pool, phys: nat)
    requires !p.ready
    ensures Alloc(p) == (p, Bad(NotSup)) && Free(p, phys) == (p, NotSup)
  {
  }

  // ----- every run -----------------------------------------------------------------------------

  datatype PoolOp = Take | Give(phys: nat)

  function Apply(p: Pool, op: PoolOp): Pool {
    match op
    case Take => Alloc(p).0
    case Give(phys) => Free(p, phys).0
  }

  function Run(p: Pool, ops: seq<PoolOp>): Pool
    decreases ops
  {
    if ops == [] then p else Run(Apply(p, ops[0]), ops[1..])
  }

  /** In every run no page is lost, duplicated or invented. */
  lemma {:induction false} RunConserves(p: Pool, pages: set<nat>, ops: seq<PoolOp>)
    requires Conserved(p, pages)
    requires forall op :: op in ops && op.Give? ==> op.phys < TWO64 && SafeAddress(p.regions, op.phys)
    ensures Conserved(Run(p, ops), pages)
    ensures |Run(p, ops).stack| + |Out(Run(p, ops), pages)| == p.managed
    decreases ops
  {
    if ops == [] {
      StackFits(p, pages);
    } else {
      match ops[0] {
        case Take => AllocConserves(p, pages);
        case Give(phys) =>
          assert ops[0] in ops;
          FreeConserves(p, pages, phys);
      }
      RunConserves(Apply(p, ops[0]), pages, ops[1..]);
    }
  }

  // ----- collecting the memory map ---------------------------------------------------------------

  /** The whole pages of an entry, if there are any and the entry does not wrap. */
  function Trim(e: MemEntry): Option<Region> {
    var rawEnd := (e.base + e.length) % TWO64;
    var base, end := AlignUp(e.base), AlignDown(rawEnd);
    if e.length == 0 || rawEnd < e.base || end <= base then None else Some(Region(base, end - base))
  }

  function Pages(r: Region): seq<nat> {
    seq(r.length / PAGE_SIZE, i requires 0 <= i => r.base + PAGE_SIZE * i)
  }

  function Record(regions: seq<Region>, r: Region): seq<Region> {
    if |regions| >= MAX_REGIONS then regions else regions + [r]
  }

  /** The prefix of pages for which the stack has room. */
  function Collected(stack: seq<nat>, pages: seq<nat>): seq<nat>
    requires |stack| <= MAX_PAGES
  {
    if |stack| + |pages| <= MAX_PAGES then pages else pages[..MAX_PAGES - |stack|]
  }

  /** Takes one entry in; the flag says that the stack overflowed and collection stops. */
  function TakeEntry(p: Pool, e: MemEntry): (r: (Pool, bool))
    requires |p.stack| <= MAX_PAGES
    ensures |r.0.stack| <= MAX_PAGES
  {
    match Trim(e)
    case None => (p, false)
    case Some(region) =>
      if e.usable then
        var got := Collected(p.stack, Pages(region));
        (p.(stack := p.stack + got, managed := p.managed + |got|,
            regions := p.regions.(usable := Record(p.regions.usable, region))),
         |got| < |Pages(region)|)
      else
        (p.(regions := p.regions.(reserved := Record(p.regions.reserved, region))), false)
  }

  function Collect(p: Pool, entries: seq<MemEntry>): (r: Pool)
    requires |p.stack| <= MAX_PAGES
    ensures |r.stack| <= MAX_PAGES
    decreases entries
  {
    if entries == [] then p
    else
      var (q, full) := TakeEntry(p, entries[0]);
      if full then q else Collect(q, entries[1..])
  }

  function Init(entries: seq<MemEntry>): (Pool, Status) {
    if entries == [] then (EMPTY, Inval)
    else
      var p := Collect(EMPTY, entries);
      if p.managed == 0 then (p, NoMem) else (p.(ready := true), Ok)
  }

  // What the boot protocol and the table sizes promise about a memory map.

  predicate Disjoint(a: MemEntry, b: MemEntry) {
    a.base + a.length <= b.base || b.base + b.length <= a.base
  }

  predicate Apart(a: Region, b: Region) {
    a.base + a.length <= b.base || b.base + b.length <= a.base
  }

  /** A nonempty run of whole pages in physical memory. */
  predicate WholePages(r: Region) {
    PageAligned(r.base) && PageAligned(r.length) && r.length > 0 && r.base + r.length <= PHYS_END
  }

  predicate Physical(e: MemEntry) { e.base + e.length <= PHYS_END }

  /** A 64-bit entry that does not begin inside the last page of the 64-bit space. */
  predicate Roundable(e: MemEntry) { e.base <= TWO64 - PAGE_SIZE && e.length < TWO64 }

  function UsableRegions(entries: seq<MemEntry>): seq<Region> {
    if entries == [] then []
    else
      var rest := UsableRegions(entries[1..]);
      if entries[0].usable && Trim(entries[0]).Some? then [Trim(entries[0]).value] + rest else rest
  }

  function AllPages(regions: seq<Region>): seq<nat> {
    if regions == [] then [] else Pages(regions[0]) + AllPages(regions[1..])
  }

  /** A memory map whose usable entries are physical, apart from all others, and hold a whole page. */
  ghost predicate PlainMap(entries: seq<MemEntry>) {
    && (forall i :: 0 <= i < |entries| ==> Roundable(entries[i]) && (entries[i].usable ==> Physical(entries[i])))
    && (forall i, j :: 0 <= i < j < |entries| && (entries[i].usable || entries[j].usable) ==>
          Disjoint(entries[i], entries[j]))
    && UsableRegions(entries) != []
  }

  /** The regions for which the region table has room. */
  function Kept(rs: seq<Region>): seq<Region> { if |rs| <= MAX_REGIONS then rs else rs[..MAX_REGIONS] }

  /**
   * The static tables hold the map: the stack has room for the regions that the region table keeps, and if there
   * are more regions, those fill the stack to the last page.
   */
  predicate TablesHold(rs: seq<Region>) {
    |AllPages(Kept(rs))| <= MAX_PAGES && (|rs| <= MAX_REGIONS || |AllPages(Kept(rs))| == MAX_PAGES)
  }

  ghost predicate GoodMap(entries: seq<MemEntry>) {
    PlainMap(entries) && TablesHold(UsableRegions(entries))
  }

  lemma TrimWhole(e: MemEntry)
    requires Trim(e).Some?
    ensures PageAligned(Trim(e).value.length)
  {
  }

  lemma TrimInside(e: MemEntry)
    requires Physical(e) && Trim(e).Some?
    ensures var r := Trim(e).value;
      WholePages(r) && e.base <= r.base && r.base + r.length <= e.base + e.length
  {
  }

  /** An entry is trimmed to pages inside it exactly when rounding its base up does not wrap. */
  lemma TrimInsideIff(e: MemEntry)
    requires e.base < TWO64 && e.length < TWO64 && Trim(e).Some?
    ensures var r := Trim(e).value;
      && (e.base <= r.base <==> Roundable(e))
      && PageAligned(r.base) && r.base + r.length <= e.base + e.length < TWO64 && (!Roundable(e) ==> r.base == 0)
  {
  }

  /** A reserved entry inside the last page of the 64-bit space is recorded as all of memory below that page. */
  lemma TopEntryReservesAll()
    ensures Trim(MemEntry(TWO64 - PAGE_SIZE + 1, 1, false)) == Some(Region(0, TWO64 - PAGE_SIZE))
  {
  }

  lemma InPages(r: Region, x: nat)
    requires WholePages(r)
    ensures x in Pages(r) <==> PageAligned(x) && r.base <= x && x + PAGE_SIZE <= r.base + r.length
  {
    if PageAligned(x) && r.base <= x && x + PAGE_SIZE <= r.base + r.length {
      var i := (x - r.base) / PAGE_SIZE;
      assert Pages(r)[i] == x;
    }
  }

  /** The pages taken from an entry in physical memory are exactly the whole pages that lie in it. */
  lemma TrimPages(e: MemEntry, x: nat)
    requires Physical(e) && PageAligned(x)
    ensures e.base <= x && x + PAGE_SIZE <= e.base + e.length <==> Trim(e).Some? && x in Pages(Trim(e).value)
  {
    if Trim(e).Some? {
      TrimInside(e);
      InPages(Trim(e).value, x);
    }
  }

  predicate Covers(e: MemEntry, x: nat) { e.usable && e.base <= x && x + PAGE_SIZE <= e.base + e.length }

  /** The pages of the usable regions are exactly the whole pages that lie in some usable entry. */
  lemma {:induction false} UsablePages(entries: seq<MemEntry>, x: nat)
    requires forall i :: 0 <= i < |entries| && entries[i].usable ==> Physical(entries[i])
    ensures x in AllPages(UsableRegions(entries)) <==>
      PageAligned(x) && exists i :: 0 <= i < |entries| && Covers(entries[i], x)
    decreases entries
  {
    hide Trim, Pages;
    if entries != [] {
      var e, rest := entries[0], entries[1..];
      UsablePages(rest, x);
      FirstPages(entries, x);
      assert forall i :: 0 <= i < |rest| ==> rest[i] == entries[i + 1];
      if i :| 0 <= i < |entries| && Covers(entries[i], x) {
        assert i > 0 ==> Covers(rest[i - 1], x);
      }
      if PageAligned(x) {
        if e.usable {
          TrimPages(e, x);
        }
      } else if e.usable && Trim(e).Some? {
        TrimInside(e);
        InPages(Trim(e).value, x);
      }
    }
  }

  lemma FirstPages(entries: seq<MemEntry>, x: nat)
    requires entries != []
    ensures x in AllPages(UsableRegions(entries)) <==>
      || x in AllPages(UsableRegions(entries[1..]))
      || (entries[0].usable && Trim(entries[0]).Some? && x in Pages(Trim(entries[0]).value))
  {
    hide Trim, Pages;
    var rest := UsableRegions(entries[1..]);
    if entries[0].usable && Trim(entries[0]).Some? {
      assert UsableRegions(entries) == [Trim(entries[0]).value] + rest;
      assert UsableRegions(entries)[1..] == rest;
    }
  }

  function ReservedRegions(entries: seq<MemEntry>): seq<Region> {
    if entries == [] then []
    else
      var rest := ReservedRegions(entries[1..]);
      if !entries[0].usable && Trim(entries[0]).Some? then [Trim(entries[0]).value] + rest else rest
  }

  /** Unless the stack overflows, the reserved regions are recorded in order until the table is full. */
  lemma {:induction false} CollectReserved(p: Pool, entries: seq<MemEntry>)
    requires |p.stack| <= MAX_PAGES && |p.regions.usable| <= MAX_REGIONS && |p.regions.reserved| <= MAX_REGIONS
    requires |p.stack| + |AllPages(UsableRegions(entries))| <= MAX_PAGES
    ensures Collect(p, entries).regions.reserved == Kept(p.regions.reserved + ReservedRegions(entries))
    decreases entries
  {
    hide Trim, Pages;
    if entries == [] {
      assert p.regions.reserved + [] == p.regions.reserved;
    } else {
      var e := entries[0];
      var (q, full) := TakeEntry(p, e);
      var rest, r := UsableRegions(entries[1..]), Trim(e);
      if r.Some? {
        if e.usable {
          assert UsableRegions(entries) == [r.value] + rest && UsableRegions(entries)[1..] == rest;
        } else {
          KeptTwice(p.regions.reserved, r.value, ReservedRegions(entries[1..]));
          assert q.regions.reserved == Kept(p.regions.reserved + [r.value]);
        }
      }
      CollectReserved(q, entries[1..]);
    }
  }

  /** How many regions collection takes in with this room on the stack; the last one need not fit. */
  function Entered(room: nat, rs: seq<Region>): (n: nat)
    ensures n <= |rs| && (rs != [] ==> n > 0)
  {
    if rs == [] then 0
    else if |Pages(rs[0])| > room then 1
    else 1 + Entered(room - |Pages(rs[0])|, rs[1..])
  }

  ghost predicate FromReserved(entries: seq<MemEntry>, r: Region) {
    exists i :: 0 <= i < |entries| && !entries[i].usable && Trim(entries[i]) == Some(r)
  }

  /** Taking one entry in: at most its own region and pages come to the tables. */
  lemma TakeOne(p: Pool, e: MemEntry)
    requires |p.stack| <= MAX_PAGES && |p.regions.usable| <= MAX_REGIONS
    ensures var (q, full) := TakeEntry(p, e);
      && q.taken == p.taken && q.ready == p.ready
      && (if e.usable && Trim(e).Some? then
            var pages := Pages(Trim(e).value);
            && q.stack == p.stack + Collected(p.stack, pages) && q.managed == p.managed + |Collected(p.stack, pages)|
            && q.regions.usable == Kept(p.regions.usable + [Trim(e).value])
            && (full <==> |pages| > MAX_PAGES - |p.stack|)
          else !full && q.stack == p.stack && q.managed == p.managed && q.regions.usable == p.regions.usable)
      && (forall r :: r in q.regions.reserved && r !in p.regions.reserved ==> !e.usable && Trim(e) == Some(r))
  {
    hide Trim, Pages;
  }

  /**
   * What collection does with any memory map: it stacks the pages of the usable entries in order until the stack
   * is full, and records the regions it took in, the one that did not fit included, until the table is full.
   */
  lemma {:induction false} CollectAll(p: Pool, entries: seq<MemEntry>)
    requires |p.stack| <= MAX_PAGES && |p.regions.usable| <= MAX_REGIONS
    ensures var q, rs := Collect(p, entries), UsableRegions(entries);
      && q.stack == p.stack + Collected(p.stack, AllPages(rs))
      && q.managed == p.managed + |Collected(p.stack, AllPages(rs))|
      && q.taken == p.taken && q.ready == p.ready
      && q.regions.usable == Kept(p.regions.usable + rs[..Entered(MAX_PAGES - |p.stack|, rs)])
    decreases entries
  {
    hide Trim, Pages, TakeEntry;
    if entries == [] {
      assert p.regions.usable + [] == p.regions.usable;
      assert p.stack + [] == p.stack;
    } else {
      hide Collected, Kept, Entered, AllPages;
      var e := entries[0];
      var (q, full) := TakeEntry(p, e);
      TakeOne(p, e);
      var rest := UsableRegions(entries[1..]);
      if e.usable && Trim(e).Some? {
        TakenThen(p, Trim(e).value, rest);
        assert UsableRegions(entries) == [Trim(e).value] + rest;
      }
      if !full {
        CollectAll(q, entries[1..]);
      }
    }
  }

  /** Each reserved region that collection records comes from an entry that is not usable. */
  lemma {:induction false} ReservedOrigin(p: Pool, entries: seq<MemEntry>, r: Region)
    requires |p.stack| <= MAX_PAGES && |p.regions.usable| <= MAX_REGIONS
    requires r in Collect(p, entries).regions.reserved && r !in p.regions.reserved
    ensures FromReserved(entries, r)
    decreases entries
  {
    hide Trim, Pages, TakeEntry, FromReserved;
    if entries != [] {
      var (q, full) := TakeEntry(p, entries[0]);
      TakeOne(p, entries[0]);
      ReservedLater(entries, r);
      if r !in q.regions.reserved {
        ReservedOrigin(q, entries[1..], r);
      }
    }
  }

  lemma ReservedLater(entries: seq<MemEntry>, r: Region)
    requires entries != []
    ensures !entries[0].usable && Trim(entries[0]) == Some(r) ==> FromReserved(entries, r)
    ensures FromReserved(entries[1..], r) ==> FromReserved(entries, r)
  {
    hide Trim;
    if FromReserved(entries[1..], r) {
      var i :| 0 <= i < |entries[1..]| && !entries[1..][i].usable && Trim(entries[1..][i]) == Some(r);
      assert entries[i + 1] == entries[1..][i];
    }
  }

  /** A region taken in before others. */
  lemma TakenThen(p: Pool, r: Region, rest: seq<Region>)
    requires |p.stack| <= MAX_PAGES && |p.regions.usable| <= MAX_REGIONS
    ensures var rs, room, got := [r] + rest, MAX_PAGES - |p.stack|, Collected(p.stack, Pages(r));
      && (|Pages(r)| > room ==> Collected(p.stack, AllPages(rs)) == got && rs[..Entered(room, rs)] == [r])
      && (|Pages(r)| <= room ==>
            && p.stack + got + Collected(p.stack + got, AllPages(rest)) == p.stack + Collected(p.stack, AllPages(rs))
            && |got| + |Collected(p.stack + got, AllPages(rest))| == |Collected(p.stack, AllPages(rs))|
            && Kept(Kept(p.regions.usable + [r]) + rest[..Entered(room - |got|, rest)])
               == Kept(p.regions.usable + rs[..Entered(room, rs)]))
  {
    hide Pages;
    var rs, room := [r] + rest, MAX_PAGES - |p.stack|;
    assert rs[1..] == rest;
    assert AllPages(rs) == Pages(r) + AllPages(rest);
    if |Pages(r)| <= room {
      var n := Entered(room - |Pages(r)|, rest);
      assert rs[..n + 1] == [r] + rest[..n];
      KeptTwice(p.regions.usable, r, rest[..n]);
    }
  }

  lemma KeptTwice(us: seq<Region>, r: Region, rest: seq<Region>)
    requires |us| <= MAX_REGIONS
    ensures Kept(Kept(us + [r]) + rest) == Kept(us + ([r] + rest))
  {
    assert us + ([r] + rest) == us + [r] + rest;
  }

  /** Each usable region comes from an entry. */
  lemma {:induction false} RegionOrigin(entries: seq<MemEntry>, n: nat) returns (j: nat)
    requires n < |UsableRegions(entries)|
    ensures j < |entries| && entries[j].usable && Trim(entries[j]) == Some(UsableRegions(entries)[n])
  {
    var first := entries[0].usable && Trim(entries[0]).Some?;
    if first && n == 0 {
      j := 0;
    } else {
      var k := RegionOrigin(entries[1..], if first then n - 1 else n);
      j := k + 1;
    }
  }

  lemma RegionsWhole(entries: seq<MemEntry>)
    requires forall i :: 0 <= i < |entries| && entries[i].usable ==> Physical(entries[i])
    ensures forall n :: 0 <= n < |UsableRegions(entries)| ==> WholePages(UsableRegions(entries)[n])
  {
    forall n | 0 <= n < |UsableRegions(entries)| ensures WholePages(UsableRegions(entries)[n]) {
      var j := RegionOrigin(entries, n);
      TrimInside(entries[j]);
    }
  }

  ghost predicate AllApart(rs: seq<Region>) {
    forall n, m :: 0 <= n < m < |rs| ==> Apart(rs[n], rs[m])
  }

  lemma {:induction false} RegionsApart(entries: seq<MemEntry>)
    requires forall i :: 0 <= i < |entries| && entries[i].usable ==> Physical(entries[i])
    requires forall i, j :: 0 <= i < j < |entries| && (entries[i].usable || entries[j].usable) ==>
      Disjoint(entries[i], entries[j])
    ensures AllApart(UsableRegions(entries))
  {
    if entries != [] {
      RegionsApart(entries[1..]);
      var rest := UsableRegions(entries[1..]);
      if entries[0].usable && Trim(entries[0]).Some? {
        var first := Trim(entries[0]).value;
        TrimInside(entries[0]);
        forall m | 0 <= m < |rest| ensures Apart(first, rest[m]) {
          var j := RegionOrigin(entries[1..], m);
          assert entries[1..][j] == entries[j + 1];
          assert Disjoint(entries[0], entries[j + 1]);
          TrimInside(entries[j + 1]);
        }
        assert UsableRegions(entries) == [first] + rest;
      }
    }
  }

  lemma {:induction false} InAllPages(rs: seq<Region>, x: nat)
    ensures x in AllPages(rs) <==> exists i :: 0 <= i < |rs| && x in Pages(rs[i])
  {
    if rs != [] {
      InAllPages(rs[1..], x);
      if x in AllPages(rs[1..]) {
        var i :| 0 <= i < |rs[1..]| && x in Pages(rs[1..][i]);
        assert x in Pages(rs[i + 1]);
      }
      if i :| 0 <= i < |rs| && x in Pages(rs[i]) {
        if i > 0 {
          assert x in Pages(rs[1..][i - 1]);
        }
      }
    }
  }

  lemma PagesApart(r: Region, q: Region)
    requires WholePages(r) && WholePages(q)
    ensures NoDup(Pages(r))
    ensures Apart(r, q) <==> forall x :: x in Pages(r) ==> x !in Pages(q)
  {
    if Apart(r, q) {
      forall x | x in Pages(r) ensures x !in Pages(q) {
        InPages(r, x);
        InPages(q, x);
      }
    } else {
      var x := if r.base < q.base then q.base else r.base;
      InPages(r, x);
      InPages(q, x);
    }
  }

  lemma NoDupConcat<T>(a: seq<T>, b: seq<T>)
    ensures NoDup(a + b) <==> NoDup(a) && NoDup(b) && forall x :: x in a ==> x !in b
  {
    var c := a + b;
    if NoDup(c) {
      forall i, j | 0 <= i < |a| && 0 <= j < |b| ensures a[i] != b[j] {
        assert c[i] == a[i] && c[|a| + j] == b[j];
      }
      forall i, j | 0 <= i < j < |b| ensures b[i] != b[j] {
        assert c[|a| + i] == b[i] && c[|a| + j] == b[j];
      }
      forall i, j | 0 <= i < j < |a| ensures a[i] != a[j] {
        assert c[i] == a[i] && c[j] == a[j];
      }
    }
    if NoDup(a) && NoDup(b) && forall x :: x in a ==> x !in b {
      forall i, j | 0 <= i < j < |c| ensures c[i] != c[j] {
        assert i < |a| ==> c[i] in a;
        assert j >= |a| ==> c[j] == b[j - |a|];
      }
    }
  }

  lemma FirstApart(rs: seq<Region>)
    requires rs != [] && forall n :: 0 <= n < |rs| ==> WholePages(rs[n])
    ensures (forall m :: 0 < m < |rs| ==> Apart(rs[0], rs[m]))
            <==> forall x :: x in Pages(rs[0]) ==> x !in AllPages(rs[1..])
  {
    if forall m :: 0 < m < |rs| ==> Apart(rs[0], rs[m]) {
      forall x | x in Pages(rs[0]) ensures x !in AllPages(rs[1..]) {
        InAllPages(rs[1..], x);
        forall i | 0 <= i < |rs[1..]| ensures x !in Pages(rs[1..][i]) {
          PagesApart(rs[0], rs[i + 1]);
        }
      }
    } else {
      var m :| 0 < m < |rs| && !Apart(rs[0], rs[m]);
      PagesApart(rs[0], rs[m]);
      var x :| x in Pages(rs[0]) && x in Pages(rs[m]);
      assert rs[1..][m - 1] == rs[m];
      InAllPages(rs[1..], x);
    }
  }

  /** The collected stack is free of duplicates exactly when the usable regions do not overlap. */
  lemma {:induction false} NoDupIffApart(rs: seq<Region>)
    requires forall n :: 0 <= n < |rs| ==> WholePages(rs[n])
    ensures NoDup(AllPages(rs)) <==> AllApart(rs)
  {
    if rs != [] {
      NoDupIffApart(rs[1..]);
      NoDupConcat(Pages(rs[0]), AllPages(rs[1..]));
      FirstApart(rs);
      PagesApart(rs[0], rs[0]);
      if AllApart(rs[1..]) && forall m :: 0 < m < |rs| ==> Apart(rs[0], rs[m]) {
        forall n, m | 0 <= n < m < |rs| ensures Apart(rs[n], rs[m]) {
          assert n > 0 ==> rs[n] == rs[1..][n - 1] && rs[m] == rs[1..][m - 1];
        }
      }
      if AllApart(rs) {
        forall n, m | 0 <= n < m < |rs[1..]| ensures Apart(rs[1..][n], rs[1..][m]) {
          assert Apart(rs[n + 1], rs[m + 1]);
        }
      }
    }
  }

  /** For regions in physical memory the 64-bit tests say what they seem to say. */
  lemma PlainTests(r: Region, x: nat)
    requires WholePages(r) && PageAligned(x) && x < TWO64 - PAGE_SIZE
    ensures ContainsPage(r, x) <==> r.base <= x && x + PAGE_SIZE <= r.base + r.length
    ensures OverlapsPage(r, x) <==> x < r.base + r.length && r.base < x + PAGE_SIZE
  {
  }

  lemma PlainOverlap(r: Region, x: nat)
    requires r.base + r.length < TWO64 && x + PAGE_SIZE < TWO64
    ensures OverlapsPage(r, x) <==> x < r.base + r.length && r.base < x + PAGE_SIZE
  {
  }

  lemma UsablePageFreeable(entries: seq<MemEntry>, n: nat, x: nat)
    requires PlainMap(entries) && n < |UsableRegions(entries)| && x in Pages(UsableRegions(entries)[n])
    requires UsableRegions(entries)[n] in Collect(EMPTY, entries).regions.usable
    ensures Freeable(Collect(EMPTY, entries).regions, x) && x < PHYS_END
  {
    hide Collect, UsableRegions, Pages, FromReserved;
    var g, r := Collect(EMPTY, entries).regions, UsableRegions(entries)[n];
    var j := RegionOrigin(entries, n);
    TrimInside(entries[j]);
    InPages(r, x);
    PlainTests(r, x);
    assert IsUsable(g, x);
    forall m | 0 <= m < |g.reserved| ensures !OverlapsPage(g.reserved[m], x) {
      ReservedOrigin(EMPTY, entries, g.reserved[m]);
      NotOverlapped(entries, g.reserved[m], j, x);
    }
  }

  lemma NotOverlapped(entries: seq<MemEntry>, r: Region, j: nat, x: nat)
    requires PlainMap(entries) && FromReserved(entries, r) && j < |entries| && entries[j].usable && PageAligned(x)
    requires entries[j].base <= x && x + PAGE_SIZE <= entries[j].base + entries[j].length
    ensures !OverlapsPage(r, x)
  {
    var i :| 0 <= i < |entries| && !entries[i].usable && Trim(entries[i]) == Some(r);
    TrimInsideIff(entries[i]);
    PlainOverlap(r, x);
    assert i < j ==> Disjoint(entries[i], entries[j]);
    assert j < i ==> Disjoint(entries[j], entries[i]);
  }

  lemma FreeableIsUsablePage(g: Regions, x: nat)
    requires forall n :: 0 <= n < |g.usable| ==> WholePages(g.usable[n])
    requires Freeable(g, x) && x < TWO64 - PAGE_SIZE
    ensures x in AllPages(g.usable)
  {
    var n :| 0 <= n < |g.usable| && ContainsPage(g.usable[n], x);
    PlainTests(g.usable[n], x);
    InPages(g.usable[n], x);
    InAllPages(g.usable, x);
  }

  // ----- when the tables hold a memory map -----------------------------------------------------------------

  lemma {:induction false} AllPagesConcat(a: seq<Region>, b: seq<Region>)
    ensures AllPages(a + b) == AllPages(a) + AllPages(b)
  {
    hide Pages;
    if a == [] {
      assert a + b == b;
    } else {
      AllPagesConcat(a[1..], b);
      assert (a + b)[1..] == a[1..] + b;
    }
  }

  /** Region k is taken in exactly when the pages of the regions before it fit. */
  lemma {:induction false} EnteredExact(room: nat, rs: seq<Region>, k: nat)
    requires k < |rs|
    ensures k < Entered(room, rs) <==> |AllPages(rs[..k])| <= room
  {
    hide Pages;
    if k > 0 {
      assert rs[..k][0] == rs[0] && rs[..k][1..] == rs[1..][..k - 1];
      if |Pages(rs[0])| <= room {
        EnteredExact(room - |Pages(rs[0])|, rs[1..], k - 1);
      }
    }
  }

  /** The pages of the kept regions come first. */
  lemma KeptFirst(rs: seq<Region>)
    ensures |Kept(rs)| <= |rs| && Kept(rs) == rs[..|Kept(rs)|]
    ensures AllPages(rs) == AllPages(Kept(rs)) + AllPages(rs[|Kept(rs)|..])
  {
    var k := |Kept(rs)|;
    assert Kept(rs) == rs[..k] && rs == rs[..k] + rs[k..];
    AllPagesConcat(rs[..k], rs[k..]);
  }

  lemma HeldTables(rs: seq<Region>)
    requires TablesHold(rs)
    ensures Kept(rs[..Entered(MAX_PAGES, rs)]) == Kept(rs)
    ensures Collected([], AllPages(rs)) == AllPages(Kept(rs))
  {
    hide AllPages, Entered;
    KeptFirst(rs);
    var k := |Kept(rs)|;
    if k < |rs| {
      EnteredExact(MAX_PAGES, rs, k);
    } else {
      assert rs[k..] == [] && rs[..k] == rs;
      NoPages();
      EnteredAll(MAX_PAGES, rs);
    }
  }

  lemma NoPages()
    ensures AllPages([]) == []
  {
  }

  lemma EnteredAll(room: nat, rs: seq<Region>)
    requires |AllPages(rs)| <= room
    ensures Entered(room, rs) == |rs|
  {
    if rs != [] {
      var k := |rs| - 1;
      AllPagesConcat(rs[..k], rs[k..]);
      assert rs == rs[..k] + rs[k..];
      EnteredExact(room, rs, k);
    }
  }

  /** What collection from nothing gives. */
  lemma MapCollected(entries: seq<MemEntry>)
    requires PlainMap(entries)
    ensures entries != []
    ensures var p, rs := Collect(EMPTY, entries), UsableRegions(entries);
      && p.stack == Collected([], AllPages(rs)) && p.managed == |p.stack| > 0 && p.taken == 0
      && p.regions.usable == Kept(rs[..Entered(MAX_PAGES, rs)])
      && (forall n :: 0 <= n < |rs| ==> WholePages(rs[n])) && NoDup(AllPages(rs))
  {
    assert entries != [];
    hide Collect, UsableRegions, Pages, Entered;
    var rs := UsableRegions(entries);
    CollectAll(EMPTY, entries);
    RegionsWhole(entries);
    RegionsApart(entries);
    NoDupIffApart(rs);
    SomePage(rs);
    assert [] + Collected([], AllPages(rs)) == Collected([], AllPages(rs));
    assert [] + rs[..Entered(MAX_PAGES, rs)] == rs[..Entered(MAX_PAGES, rs)];
  }

  lemma SomePage(rs: seq<Region>)
    requires rs != [] && WholePages(rs[0])
    ensures AllPages(rs) != []
  {
    assert rs[0].base in Pages(rs[0]) by {
      InPages(rs[0], rs[0].base);
    }
  }

  lemma GoodMapGoverns(entries: seq<MemEntry>, pages: set<nat>)
    requires GoodMap(entries)
    requires forall x :: x in pages <==> x in AllPages(Kept(UsableRegions(entries)))
    ensures Governs(Collect(EMPTY, entries).regions, pages)
  {
    hide Freeable, Collect, AllPages, UsableRegions, Pages, Entered, Collected, WholePages;
    var g, rs := Collect(EMPTY, entries).regions, UsableRegions(entries);
    MapCollected(entries);
    HeldTables(rs);
    KeptFirst(rs);
    forall x | x in pages ensures Freeable(g, x) && x < PHYS_END {
      InAllPages(Kept(rs), x);
      var n :| 0 <= n < |Kept(rs)| && x in Pages(Kept(rs)[n]);
      UsablePageFreeable(entries, n, x);
    }
    forall x: nat | Freeable(g, x) && x < TWO64 - PAGE_SIZE ensures x in pages {
      FreeableIsUsablePage(g, x);
    }
  }

  /** A boot memory map that keeps its promises gives a pool in which everything is conserved. */
  lemma InitConserves(entries: seq<MemEntry>)
    requires GoodMap(entries)
    ensures var (p, s) := Init(entries);
      s == Ok && Conserved(p, set x | x in AllPages(Kept(UsableRegions(entries))))
  {
    hide Collect, UsableRegions, AllPages, Pages, Entered, Collected, Governs;
    var rs := UsableRegions(entries);
    var all := AllPages(Kept(rs));
    MapCollected(entries);
    HeldTables(rs);
    KeptFirst(rs);
    NoDupConcat(all, AllPages(rs[|Kept(rs)|..]));
    NoDupCount(all);
    GoodMapGoverns(entries, set x | x in all);
  }

  /** The first page of the first region without a place in the table is stacked, and can never come back. */
  lemma UnrecordedPage(entries: seq<MemEntry>, pages: set<nat>)
    requires PlainMap(entries) && |UsableRegions(entries)| > MAX_REGIONS
    requires |AllPages(Kept(UsableRegions(entries)))| < MAX_PAGES
    ensures !Conserved(Init(entries).0, pages)
  {
    hide Freeable, Collect, AllPages, UsableRegions, Pages, Entered, WholePages;
    var p, rs := Init(entries).0, UsableRegions(entries);
    var kept, rest := AllPages(Kept(rs)), AllPages(rs[MAX_REGIONS..]);
    MapCollected(entries);
    KeptFirst(rs);
    EnteredExact(MAX_PAGES, rs, MAX_REGIONS);
    assert p.regions.usable == Kept(rs);
    SomePage(rs[MAX_REGIONS..]);
    NoDupConcat(kept, rest);
    var x := rest[0];
    assert p.stack[|kept|] == x;
    assert x in p.stack && x in rest;
    if Conserved(p, pages) {
      FreeableIsUsablePage(p.regions, x);
    }
  }

  /** The first page that found no room on the stack lies in a recorded region, so it could be freed. */
  lemma UncollectedPage(entries: seq<MemEntry>, pages: set<nat>)
    requires PlainMap(entries) && |AllPages(Kept(UsableRegions(entries)))| > MAX_PAGES
    ensures !Conserved(Init(entries).0, pages)
  {
    hide Freeable, Collect, AllPages, UsableRegions, Pages, Entered, WholePages;
    var p, rs := Init(entries).0, UsableRegions(entries);
    MapCollected(entries);
    KeptFirst(rs);
    var x := AllPages(rs)[MAX_PAGES];
    assert x !in p.stack;
    var n := OverflowRegion(rs);
    assert rs[n] == Kept(rs[..Entered(MAX_PAGES, rs)])[n];
    UsablePageFreeable(entries, n, x);
    if Conserved(p, pages) {
      StackFits(p, pages);
    }
  }

  /** The region of the first page without room, which is among those taken in. */
  lemma OverflowRegion(rs: seq<Region>) returns (n: nat)
    requires |AllPages(Kept(rs))| > MAX_PAGES
    ensures |AllPages(rs)| > MAX_PAGES
    ensures n < |Kept(rs)| && n < Entered(MAX_PAGES, rs) && AllPages(rs)[MAX_PAGES] in Pages(rs[n])
  {
    hide AllPages, Pages;
    KeptFirst(rs);
    var e, k := Entered(MAX_PAGES, rs), |Kept(rs)|;
    if e < |rs| {
      EnteredExact(MAX_PAGES, rs, e);
    }
    if k < |rs| {
      EnteredExact(MAX_PAGES, rs, k);
    }
    assert rs[..|rs|] == rs == rs[..e] + rs[e..];
    AllPagesConcat(rs[..e], rs[e..]);
    var x := AllPages(rs)[MAX_PAGES];
    assert AllPages(rs[..e])[MAX_PAGES] == x;
    InAllPages(rs[..e], x);
    n :| 0 <= n < |rs[..e]| && x in Pages(rs[..e][n]);
  }

  /**
   * For every map whose usable entries are physical and apart from all others, the pool is conserved exactly
   * when the static tables hold the map.
   */
  lemma InitConservesIff(entries: seq<MemEntry>)
    requires PlainMap(entries)
    ensures Init(entries).1 == Ok
    ensures (exists pages :: Conserved(Init(entries).0, pages)) <==> TablesHold(UsableRegions(entries))
  {
    hide Conserved, Collect, AllPages, UsableRegions, Entered, Kept, Collected;
    MapCollected(entries);
    if TablesHold(UsableRegions(entries)) {
      InitConserves(entries);
    } else {
      forall pages ensures !Conserved(Init(entries).0, pages) {
        if |AllPages(Kept(UsableRegions(entries)))| > MAX_PAGES {
          UncollectedPage(entries, pages);
        } else {
          UnrecordedPage(entries, pages);
        }
      }
    }
  }

  /** A map of a single usable entry. */
  lemma OneRegion(e: MemEntry, r: Region)
    requires e.usable && Trim(e) == Some(r)
    ensures UsableRegions([e]) == [r] && AllPages([r]) == Pages(r) && Entered(MAX_PAGES, [r]) == 1
  {
    hide Trim, Pages;
    assert [e][1..] == [] && [r][1..] == [];
    assert UsableRegions([]) == [] && AllPages([]) == [] && Entered(0, []) == 0;
    assert Pages(r) + [] == Pages(r);
  }

  /** One page more than the stack holds: after one allocation the page that was never handed out can be freed. */
  lemma UncollectedSlipsIn()
    ensures var p, phys := Init([MemEntry(0, (MAX_PAGES + 1) * PAGE_SIZE, true)]).0, MAX_PAGES * PAGE_SIZE;
      phys !in p.stack && Alloc(p).1 != Good(phys) && Free(Alloc(p).0, phys).1 == Ok
  {
    var e, r := MemEntry(0, (MAX_PAGES + 1) * PAGE_SIZE, true), Region(0, (MAX_PAGES + 1) * PAGE_SIZE);
    var p, phys := Init([e]).0, MAX_PAGES * PAGE_SIZE;
    assert Trim(e) == Some(r);
    OneRegion(e, r);
    hide Collect, UsableRegions, AllPages, Entered, Trim;
    MapCollected([e]);
    assert Kept([r][..Entered(MAX_PAGES, [r])]) == [r];
    assert phys !in p.stack;
    InPages(r, phys);
    UsablePageFreeable([e], 0, phys);
  }

  /** Two usable entries for the same page put it on the stack twice: it is handed out twice. */
  lemma OverlapHandsOutTwice()
    ensures var e := MemEntry(0x1000, 0x1000, true);
      var p := Init([e, e]).0;
      Alloc(p).1 == Good(0x1000) && Alloc(Alloc(p).0).1 == Good(0x1000)
  {
    var e := MemEntry(0x1000, 0x1000, true);
    assert Trim(e) == Some(Region(0x1000, 0x1000));
    assert Pages(Region(0x1000, 0x1000)) == [0x1000];
    var (q, f) := TakeEntry(EMPTY, e);
    assert q.stack == [0x1000] && !f;
    var (r, g) := TakeEntry(q, e);
    assert [e, e][1..] == [e];
    assert Collect(q, [e]) == Collect(r, []);
    assert Collect(EMPTY, [e, e]) == Collect(q, [e]);
    assert r.stack == [0x1000, 0x1000];
  }
}
