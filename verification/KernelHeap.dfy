/** Allocation, release and growth of the kernel heap over the block list and the page tables. */
module KernelHeap {
  import opened KernelTypes
  import opened HeapBlocks
  import opened HeapGrowth
  import opened GrowthCost
  import opened TableGrowth
  import opened Heap
  import opened Paging
  import opened PageTables
  import PhysicalPages
  import Pmm
  import Vmm
  import opened Words
  import opened VirtualMemory

  lemma EndNotInList(h: HeapState)
    requires HeapOk(h)
    ensures h.end != 0 && forall i :: 0 <= i < |h.blocks| ==> h.blocks[i].addr != h.end
  {
    TiledBounds(h.blocks, HEAP_BASE, h.end);
    forall i | 0 <= i < |h.blocks| ensures h.blocks[i].addr != h.end {
      Aligned(h.blocks, HEAP_BASE, h.end, i);
    }
  }

  /** The place where a block would be split is no block's start. */
  lemma SplitPointFree(h: HeapState, k: nat, requested: nat)
    requires HeapOk(h) && k < |h.blocks|
    ensures Splits(h.blocks[k], requested) ==>
      forall i :: 0 <= i < |h.blocks| ==> h.blocks[i].addr != h.blocks[k].addr + HEADER + requested
  {
    forall i | 0 <= i < |h.blocks| && Splits(h.blocks[k], requested)
      ensures h.blocks[i].addr != h.blocks[k].addr + HEADER + requested
    {
      NoStartInside(h.blocks, HEAP_BASE, h.end, k, i);
    }
  }

  /** A pointer that is no payload address inside the heap belongs to no block. */
  lemma OutsideIsNoBlock(h: HeapState, ptr: nat)
    requires HeapOk(h)
    ensures ptr < HEAP_BASE + HEADER || ptr >= h.end ==> HeapBlocks.Kfree(h, ptr) == h
  {
    if (ptr < HEAP_BASE + HEADER || ptr >= h.end) && ptr >= HEADER {
      var b := BlockAt(h.blocks, ptr - HEADER);
      if b.Some? {
        Aligned(h.blocks, HEAP_BASE, h.end, b.value);
      }
    }
  }

  lemma UnlistedIsNoBlock(h: HeapState, ptr: nat)
    requires ptr >= HEADER
    ensures (forall i :: 0 <= i < |h.blocks| ==> h.blocks[i].addr != ptr - HEADER) ==> HeapBlocks.Kfree(h, ptr) == h
  {
  }

  lemma KfreeAt(h: HeapState, ptr: nat, j: nat)
    requires HeapOk(h) && ptr >= HEADER && j < |h.blocks| && h.blocks[j].addr == ptr - HEADER
    ensures HeapBlocks.Kfree(h, ptr) == h.(blocks := if h.blocks[j].free then h.blocks else Release(h.blocks, j))
  {
    hide Release;
    var k := BlockAt(h.blocks, ptr - HEADER).value;
    NoStartInside(h.blocks, HEAP_BASE, h.end, k, j);
    NoStartInside(h.blocks, HEAP_BASE, h.end, j, k);
    if k < j {
      InOrder(h.blocks, HEAP_BASE, h.end, k, j);
    } else if j < k {
      InOrder(h.blocks, HEAP_BASE, h.end, j, k);
    }
  }

  /**
   * Every page of the committed range is mapped writable, for the kernel, to a frame of its own that is neither
   * free nor in use as a table.
   */
  ghost predicate Backed(m: Machine, end: nat, frames: seq<nat>) {
    && HEAP_BASE + PAGE_SIZE * |frames| == end && NoDup(frames)
    && (forall i :: 0 <= i < |frames| ==> frames[i] !in m.pool.stack && frames[i] !in m.mem)
    && (forall i :: 0 <= i < |frames| ==>
          Lookup(m.mem, m.active, PathOf(PageAt(HEAP_BASE, i))) == Some(Mapping(frames[i], true, false)))
  }

  /** Pages behind the committed range have other paths. */
  lemma BehindApart(end: nat, n: nat, i: nat, k: nat)
    requires KernelRange(end, n) && HEAP_BASE + PAGE_SIZE * k == end && i < k
    ensures PathOf(PageAt(HEAP_BASE, i)) !in PathsIn(end, n) && ValidPath(PathOf(PageAt(HEAP_BASE, i)))
  {
    var page := PageAt(HEAP_BASE, i);
    assert CanonicalPage(page);
    forall j | 0 <= j < n ensures PathsIn(end, n)[j] != PathOf(page) {
      RangePages(end, n, j);
      if PathsIn(end, n)[j] == PathOf(page) {
        PathDetermines(PageAt(end, j), page);
      }
    }
  }

  /** Growth keeps the committed range backed and, if it succeeds, backs the new pages. */
  lemma GrowthBacks(m: Machine, m': Machine, end: nat, n: nat, paths: seq<Path>, frames: seq<nat>, qs: seq<nat>)
    requires Backed(m, end, frames) && KernelRange(end, n) && paths == PathsIn(end, n) && PathsOf(end, paths)
    requires Extra(m, m', paths, qs) && Held(m, m', qs) && m'.active == m.active
    ensures Backed(m', end, frames)
    ensures |qs| == n ==> Backed(m', end + PAGE_SIZE * n, frames + qs)
  {
    hide PathOf, KernelRange, PathsIn, Shares, SameSharing, KeepsTops;
    forall i | 0 <= i < |frames|
      ensures Lookup(m'.mem, m.active, PathOf(PageAt(HEAP_BASE, i))) == Some(Mapping(frames[i], true, false))
    {
      BehindApart(end, n, i, |frames|);
      assert PathOf(PageAt(HEAP_BASE, i)) !in paths[..|qs|];
      SameWalkSameLookup(m, m', PathOf(PageAt(HEAP_BASE, i)));
    }
    hide Walk, Lookup;
    if |qs| == n {
      BothBacked(m, m', end, n, frames, qs);
    }
  }

  lemma SameWalkSameLookup(m: Machine, m': Machine, p: Path)
    requires Walk(m'.mem, m.active, p) == Walk(m.mem, m.active, p)
    ensures Lookup(m'.mem, m.active, p) == Lookup(m.mem, m.active, p)
  {
  }

  lemma BothBacked(m: Machine, m': Machine, end: nat, n: nat, frames: seq<nat>, qs: seq<nat>)
    requires Backed(m, end, frames) && Backed(m', end, frames) && Held(m, m', qs) && |qs| == n && m'.active == m.active
    requires forall j :: 0 <= j < n ==>
      Lookup(m'.mem, m.active, PathsIn(end, n)[j]) == Some(Mapping(qs[j], true, false))
    ensures Backed(m', end + PAGE_SIZE * n, frames + qs)
  {
    hide Walk, Lookup, PathOf;
    var all := frames + qs;
    forall i | 0 <= i < |all| ensures
      && all[i] !in m'.pool.stack && all[i] !in m'.mem
      && Lookup(m'.mem, m.active, PathOf(PageAt(HEAP_BASE, i))) == Some(Mapping(all[i], true, false))
    {
      if i >= |frames| {
        var j := i - |frames|;
        assert all[i] == qs[j] && qs[j] in qs;
        assert PageAt(HEAP_BASE, i) == PageAt(end, j);
        assert PathsIn(end, n)[j] == PathOf(PageAt(end, j));
      }
    }
    assert forall x :: x in qs ==> x in m.pool.stack;
  }

  class PageSource {
    const vmm: Vmm.PageTableManager

    constructor (v: Vmm.PageTableManager)
      ensures vmm == v
    {
      vmm := v;
    }

    /** Takes a page and maps it writable at virt. */
    method MapFreshPage(virt: nat) returns (g: Growth)
      requires vmm.Valid() && Sound(MapFresh(vmm.Value(), virt).0)
      modifies vmm, vmm.pmm, vmm.pmm.pageStack
      ensures vmm.Valid() && (vmm.Value(), g) == MapFresh(old(vmm.Value()), virt)
    {
      hide MapInRoot;
      PopSound(vmm.Value());
      var page := vmm.pmm.PageAlloc();
      if page.Bad? {
        return OutOfPages(page.error);
      }
      var s := vmm.MapPage(virt, page.value, WRITE_FLAGS);
      if s != Ok {
        var ignored := vmm.pmm.PageFree(page.value);
        return MapFailed(s);
      }
      return Mapped;
    }

    /** Unmaps virt, if it is mapped, and gives its frame back. */
    method UnmapPageBack(virt: nat)
      requires vmm.Valid() && Sound(UnmapBack(vmm.Value(), virt))
      modifies vmm, vmm.pmm, vmm.pmm.pageStack
      ensures vmm.Valid() && vmm.Value() == UnmapBack(old(vmm.Value()), virt)
    {
      hide UnmapInRoot, Translate;
      var t := vmm.VirtToPhysInRoot(vmm.activeRoot, virt);
      if t.Good? {
        var s := vmm.UnmapPage(virt);
        s := vmm.pmm.PageFree(t.value.0);
      }
    }

    /** Commits n pages from base on, or rolls back when a mapping fails. */
    method MapHeapPages(base: nat, n: nat) returns (g: Growth)
      requires vmm.Valid() && GrowSound(vmm.Value(), base, 0, n)
      modifies vmm, vmm.pmm, vmm.pmm.pageStack
      ensures vmm.Valid() && (vmm.Value(), g) == GrowFrom(old(vmm.Value()), base, 0, n)
    {
      hide MapFresh, UnmapBack, Sound;
      var mapped := 0;
      while mapped < n
        invariant mapped <= n && vmm.Valid() && GrowSound(vmm.Value(), base, mapped, n)
        invariant GrowFrom(old(vmm.Value()), base, 0, n) == GrowFrom(vmm.Value(), base, mapped, n)
      {
        g := MapFreshPage(PageAt(base, mapped));
        if g.OutOfPages? {
          return;
        }
        if g.MapFailed? {
          Rollback(base, mapped);
          return;
        }
        mapped := mapped + 1;
      }
      g := Mapped;
    }

    method Rollback(base: nat, count: nat)
      requires vmm.Valid() && UnwindSound(vmm.Value(), base, count)
      modifies vmm, vmm.pmm, vmm.pmm.pageStack
      ensures vmm.Valid() && vmm.Value() == Unwind(old(vmm.Value()), base, count)
    {
      hide UnmapBack;
      var mapped := count;
      while mapped > 0
        invariant vmm.Valid() && UnwindSound(vmm.Value(), base, mapped)
        invariant Unwind(old(vmm.Value()), base, count) == Unwind(vmm.Value(), base, mapped)
      {
        mapped := mapped - 1;
        UnmapPageBack(PageAt(base, mapped));
      }
    }
  }

  class Allocator {
    const blocks: BlockList
    const source: PageSource
    /** The pages the page allocator manages. */
    ghost const pages: set<nat>
    /** The frames behind the pages of the committed range. */
    ghost var frames: seq<nat>

    ghost predicate Valid()
      reads this, blocks, source.vmm, source.vmm.pmm, source.vmm.pmm.pageStack, source.vmm.pmm.usable,
        source.vmm.pmm.reserved
    {
      && blocks.Valid() && HeapOk(blocks.Value())
      && source.vmm.Valid() && PhysicalPages.Conserved(source.vmm.Value().pool, pages)
      && Backed(source.vmm.Value(), blocks.commitEnd, frames)
    }

    constructor (v: Vmm.PageTableManager, ghost managed: set<nat>)
      requires v.Valid() && PhysicalPages.Conserved(v.Value().pool, managed)
      ensures Valid() && fresh(blocks) && source.vmm == v && pages == managed
      ensures blocks.Value() == HeapState([], HEAP_BASE)
    {
      blocks := new BlockList();
      source := new PageSource(v);
      pages := managed;
      frames := [];
    }

    /** Commits pages behind the heap and links them in as one free block; on failure the list stays as it was. */
    method HeapExtend(payload: nat) returns (s: Status)
      requires Valid()
      modifies this`frames, blocks, source.vmm, source.vmm.pmm, source.vmm.pmm.pageStack
      ensures Valid()
      ensures s == Ok <==>
        RoomFor(old(blocks.Value()), payload) && CanExtend(old(source.vmm.Value()), old(blocks.Value()), payload)
      ensures blocks.Value() == if s == Ok then Extend(old(blocks.Value()), payload) else old(blocks.Value())
      ensures source.vmm.Value() == ExtendMachine(old(source.vmm.Value()), old(blocks.Value()), payload)
    {
      hide HeapOk, PhysicalPages.Conserved, Sound, KernelRange, GrowFrom, CommitSize, Extend, Vmm.MemOf, Linked,
        BlocksOf, CanGrow, Backed;
      var commit := CommitSize(payload);
      if blocks.commitEnd + commit > HEAP_BASE + HEAP_SIZE {
        return NoMem;
      }
      CommitRange(blocks.Value(), payload);
      ghost var qs;
      s, qs := CommitPages(commit / PAGE_SIZE);
      if s != Ok {
        return;
      }
      assert PAGE_SIZE * (commit / PAGE_SIZE) == commit;
      LinkCommitted(payload);
      frames := frames + qs;
    }

    /** Maps n pages behind the committed range. */
    method CommitPages(n: nat) returns (s: Status, ghost qs: seq<nat>)
      requires Valid() && KernelRange(blocks.commitEnd, n)
      modifies source.vmm, source.vmm.pmm, source.vmm.pmm.pageStack
      ensures Valid()
      ensures s == Ok <==> CanGrow(old(source.vmm.Value()), blocks.commitEnd, n)
      ensures source.vmm.Value() == GrowFrom(old(source.vmm.Value()), blocks.commitEnd, 0, n).0
      ensures s == Ok ==> Backed(source.vmm.Value(), blocks.commitEnd + PAGE_SIZE * n, frames + qs)
    {
      hide HeapOk, PhysicalPages.Conserved, Sound, KernelRange, GrowSound, GrowFrom, Vmm.MemOf, Linked, BlocksOf,
        CanGrow, Backed, Extra, Held, PathsOf;
      ghost var m, end := source.vmm.Value(), blocks.commitEnd;
      ghost var paths;
      paths, qs := GrowthOutcome(m, end, n, pages);
      CanGrowIff(m, end, n);
      FailedStatus(m, end, 0, n);
      var g := source.MapHeapPages(blocks.commitEnd, n);
      GrowthBacks(m, source.vmm.Value(), end, n, paths, frames, qs);
      s := if g.Mapped? then Ok else g.status;
    }

    /** Puts the committed pages into the list and coalesces with a free last block. */
    method LinkCommitted(payload: nat)
      requires blocks.Valid() && HeapOk(blocks.Value()) && RoomFor(blocks.Value(), payload)
      modifies blocks
      ensures blocks.Valid() && HeapOk(blocks.Value())
        && blocks.commitEnd == old(blocks.commitEnd) + CommitSize(payload)
      ensures blocks.Value() == Extend(old(blocks.Value()), payload)
    {
      hide HeapOk, CommitSize, Merge;
      ghost var h := blocks.Value();
      ExtendOk(h, payload);
      EndNotInList(h);
      var commit := CommitSize(payload);
      var last := blocks.tail;
      assert blocks.list != [] ==> LinkedAt(blocks.headers, blocks.list, |blocks.list| - 1);
      var coalesce := last != 0 && blocks.headers[last].free;
      blocks.InsertTail(blocks.commitEnd, commit - HEADER);
      blocks.commitEnd := blocks.commitEnd + commit;
      if coalesce {
        blocks.CoalesceForward(last, |h.blocks| - 1);
      }
    }

    /** The size to search for, within the bounds of the heap. */
    static method RequestSize(size: nat) returns (r: Option<nat>)
      ensures r == Requested(size)
    {
      if size == 0 || size > HEAP_SIZE - HEADER {
        return None;
      }
      var requested := AlignTo(size, ALIGN);
      if requested < size || requested > HEAP_SIZE - HEADER {
        return None;
      }
      return Some(requested);
    }

    /** Finds a free block, growing the heap if there is none; the second search then succeeds. */
    method FindOrGrow(requested: nat) returns (addr: nat, ghost k: nat)
      requires Valid() && requested > 0 && requested % ALIGN == 0
      modifies this`frames, blocks, source.vmm, source.vmm.pmm, source.vmm.pmm.pageStack
      ensures Valid()
      ensures addr == 0 <==> FirstFit(old(blocks.Blocks()), requested).None?
                             && !(RoomFor(old(blocks.Value()), requested)
                                  && CanExtend(old(source.vmm.Value()), old(blocks.Value()), requested))
      ensures source.vmm.Value() ==
        if FirstFit(old(blocks.Blocks()), requested).Some? then old(source.vmm.Value())
        else ExtendMachine(old(source.vmm.Value()), old(blocks.Value()), requested)
      ensures blocks.Value() ==
        if addr == 0 || FirstFit(old(blocks.Blocks()), requested).Some? then old(blocks.Value())
        else Extend(old(blocks.Value()), requested)
      ensures addr != 0 ==>
        k < |blocks.list| && blocks.list[k] == addr && FirstFit(blocks.Blocks(), requested) == Some(k)
    {
      hide HeapOk, PhysicalPages.Conserved, Sound, CommitSize, Extend, CanExtend, ExtendMachine, RoomFor, Live,
        FirstFit, Backed;
      ghost var h := blocks.Value();
      addr, k := blocks.FindFreeBlock(requested);
      if addr == 0 {
        var s := HeapExtend(requested);
        if s == Ok {
          ExtendOk(h, requested);
          addr, k := blocks.FindFreeBlock(requested);
        }
      }
    }

    /** First-fit allocation of size bytes; 0 when it fails. */
    method Kalloc(size: nat) returns (ptr: nat)
      requires Valid()
      modifies this`frames, blocks, source.vmm, source.vmm.pmm, source.vmm.pmm.pageStack
      ensures Valid()
      ensures (blocks.Value(), ptr) == KallocBlocks(old(source.vmm.Value()), old(blocks.Value()), size)
      ensures source.vmm.Value() == KallocMachine(old(source.vmm.Value()), old(blocks.Value()), size)
    {
      hide HeapOk, PhysicalPages.Conserved, Sound, CommitSize, Extend, CanExtend, ExtendMachine, Requested, TakeFirst,
        RoomFor, FirstFit, Backed;
      var request := RequestSize(size);
      if request.None? {
        return 0;
      }
      var addr, k := FindOrGrow(request.value);
      if addr == 0 {
        return 0;
      }
      ptr := TakeBlock(addr, request.value, k);
    }

    /** Splits the free block found and marks it used. */
    method TakeBlock(addr: nat, requested: nat, ghost k: nat) returns (ptr: nat)
      requires blocks.Valid() && HeapOk(blocks.Value()) && requested > 0 && requested % ALIGN == 0
      requires FirstFit(blocks.Blocks(), requested) == Some(k) && k < |blocks.list| && blocks.list[k] == addr
      modifies blocks
      ensures blocks.Valid() && HeapOk(blocks.Value()) && blocks.commitEnd == old(blocks.commitEnd)
      ensures (blocks.Value(), ptr) == TakeFirst(old(blocks.Value()), requested)
    {
      hide HeapOk, Split, AddsRange, Live;
      ghost var n := TakeFirstOk(blocks.Value(), requested);
      SplitPointFree(blocks.Value(), k, requested);
      blocks.SplitBlock(addr, requested, k);
      assert LinkedAt(blocks.headers, blocks.list, k);
      blocks.SetFields(addr, blocks.headers[addr].size, false, k);
      return addr + HEADER;
    }

    /** Any pointer: what is not the payload of a block in use is ignored. */
    method Kfree(ptr: nat)
      requires Valid()
      modifies blocks
      ensures Valid()
      ensures blocks.Value() == HeapBlocks.Kfree(old(blocks.Value()), ptr)
    {
      hide HeapOk, PhysicalPages.Conserved, Sound, Backed;
      FreePayload(ptr);
    }

    method FreePayload(ptr: nat)
      requires blocks.Valid() && HeapOk(blocks.Value())
      modifies blocks
      ensures blocks.Valid() && HeapOk(blocks.Value()) && blocks.commitEnd == old(blocks.commitEnd)
      ensures blocks.Value() == HeapBlocks.Kfree(old(blocks.Value()), ptr)
    {
      hide HeapOk, Release, HeapBlocks.Kfree, Live;
      ghost var h := blocks.Value();
      KfreeOk(h, ptr);
      OutsideIsNoBlock(h, ptr);
      if ptr == 0 || ptr < HEAP_BASE || ptr >= blocks.commitEnd {
        return;
      }
      if ptr < HEAP_BASE + HEADER {
        return;
      }
      var addr := ptr - HEADER;
      UnlistedIsNoBlock(h, ptr);
      if addr !in blocks.headers || blocks.headers[addr].magic != MAGIC || blocks.headers[addr].free {
        if addr in blocks.list {
          ghost var j :| 0 <= j < |blocks.list| && blocks.list[j] == addr;
          blocks.HeaderOf(j);
          assert LinkedAt(blocks.headers, blocks.list, j);
          KfreeAt(h, ptr, j);
        } else {
          assert forall i :: 0 <= i < |h.blocks| ==> h.blocks[i].addr == blocks.list[i];
        }
        return;
      }
      ghost var j :| 0 <= j < |blocks.list| && blocks.list[j] == addr;
      KfreeAt(h, ptr, j);
      ReleaseBlock(addr, j);
    }

    method ReleaseBlock(addr: nat, ghost k: nat)
      requires blocks.Valid() && k < |blocks.list| && blocks.list[k] == addr
      modifies blocks
      ensures blocks.Valid() && blocks.commitEnd == old(blocks.commitEnd)
      ensures blocks.Blocks() ==
        if old(blocks.Blocks())[k].free then old(blocks.Blocks()) else Release(old(blocks.Blocks()), k)
    {
      hide Merge;
      assert LinkedAt(blocks.headers, blocks.list, k);
      if blocks.headers[addr].free {
        return;
      }
      blocks.SetFields(addr, blocks.headers[addr].size, true, k);
      blocks.CoalesceForward(addr, k);
      assert LinkedAt(blocks.headers, blocks.list, k);
      assert k > 0 ==> LinkedAt(blocks.headers, blocks.list, k - 1);
      var prev := blocks.headers[addr].prev;
      if prev != 0 && blocks.headers[prev].free {
        blocks.CoalesceForward(prev, k - 1);
      }
    }
  }
}
