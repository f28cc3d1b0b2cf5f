/** The page allocator as the kernel keeps it: static tables and counters, updated in place. */
module Pmm {
  import opened KernelTypes
  import opened PhysicalPages

  class PageAllocator {
    const pageStack: array<nat>
    const usable: array<Region>
    const reserved: array<Region>
    var freePages: nat
    var managedPages: nat
    var takenPages: nat
    var usableCount: nat
    var reservedCount: nat
    var initialized: bool

    ghost predicate Valid()
      reads this
    {
      && pageStack.Length == MAX_PAGES && usable.Length == MAX_REGIONS && reserved.Length == MAX_REGIONS
      && usable != reserved
      && freePages <= MAX_PAGES && usableCount <= MAX_REGIONS && reservedCount <= MAX_REGIONS
    }

    ghost function Value(): Pool
      requires Valid()
      reads this, pageStack, usable, reserved
    {
      Pool(pageStack[..freePages], managedPages, takenPages,
           Regions(usable[..usableCount], reserved[..reservedCount]), initialized)
    }

    constructor ()
      ensures Valid() && fresh(pageStack) && fresh(usable) && fresh(reserved)
      ensures Value() == EMPTY
    {
      pageStack := new nat[MAX_PAGES];
      usable := new Region[MAX_REGIONS];
      reserved := new Region[MAX_REGIONS];
      freePages, managedPages, takenPages, usableCount, reservedCount := 0, 0, 0, 0, 0;
      initialized := false;
    }

    method PageAlloc() returns (r: Result<nat>)
      requires Valid()
      modifies this
      ensures Valid() && (Value(), r) == Alloc(old(Value()))
    {
      if !initialized {
        return Bad(NotSup);
      }
      if freePages == 0 {
        return Bad(NoMem);
      }
      freePages := freePages - 1;
      takenPages := takenPages + 1;
      assert pageStack[..freePages] == old(pageStack[..freePages])[..freePages];
      r := Good(pageStack[freePages]);
    }

    method StackContains(phys: nat) returns (found: bool)
      requires Valid()
      ensures found <==> phys in Value().stack
    {
      for i := 0 to freePages
        invariant phys !in pageStack[..i]
      {
        if pageStack[i] == phys {
          return true;
        }
      }
      return false;
    }

    method IsUsablePage(phys: nat) returns (yes: bool)
      requires Valid()
      ensures yes <==> IsUsable(Value().regions, phys)
    {
      if phys % PAGE_SIZE != 0 {
        return false;
      }
      for i := 0 to usableCount
        invariant forall k :: 0 <= k < i ==> !ContainsPage(usable[..usableCount][k], phys)
      {
        if ContainsPage(usable[i], phys) {
          assert ContainsPage(Value().regions.usable[i], phys);
          return true;
        }
      }
      return false;
    }

    method IsReservedPage(phys: nat) returns (yes: bool)
      requires Valid()
      ensures yes <==> IsReserved(Value().regions, phys)
    {
      if phys % PAGE_SIZE != 0 {
        return true;
      }
      for i := 0 to reservedCount
        invariant forall k :: 0 <= k < i ==> !OverlapsPage(reserved[..reservedCount][k], phys)
      {
        if OverlapsPage(reserved[i], phys) {
          assert OverlapsPage(Value().regions.reserved[i], phys);
          return true;
        }
      }
      var ok := IsUsablePage(phys);
      return !ok;
    }

    method PageFree(phys: nat) returns (s: Status)
      requires Valid()
      modifies this, pageStack
      ensures Valid() && (Value(), s) == Free(old(Value()), phys)
    {
      if !initialized {
        return NotSup;
      }
      if phys % PAGE_SIZE != 0 {
        return Inval;
      }
      var ok := IsUsablePage(phys);
      var kept := IsReservedPage(phys);
      if !ok || kept {
        return Bounds;
      }
      var there := StackContains(phys);
      if there {
        return Busy;
      }
      if freePages >= MAX_PAGES {
        return NoMem;
      }
      pageStack[freePages] := phys;
      freePages := freePages + 1;
      if takenPages > 0 {
        takenPages := takenPages - 1;
      }
      assert pageStack[..freePages] == old(pageStack[..freePages]) + [phys];
      return Ok;
    }

    method RecordUsable(r: Region)
      requires Valid()
      modifies this`usableCount, usable
      ensures Valid()
      ensures var p := old(Value());
        Value() == p.(regions := p.regions.(usable := Record(p.regions.usable, r)))
    {
      if usableCount < MAX_REGIONS {
        usable[usableCount] := r;
        usableCount := usableCount + 1;
        assert usable[..usableCount] == old(usable[..usableCount]) + [r];
      }
    }

    method RecordReserved(r: Region)
      requires Valid()
      modifies this`reservedCount, reserved
      ensures Valid()
      ensures var p := old(Value());
        Value() == p.(regions := p.regions.(reserved := Record(p.regions.reserved, r)))
    {
      if reservedCount < MAX_REGIONS {
        reserved[reservedCount] := r;
        reservedCount := reservedCount + 1;
        assert reserved[..reservedCount] == old(reserved[..reservedCount]) + [r];
      }
    }

    /** Pushes the pages of one region until they run out or the stack is full. */
    method CollectUsable(r: Region) returns (s: Status)
      requires Valid() && PageAligned(r.length)
      modifies this`freePages, this`managedPages, pageStack
      ensures Valid()
      ensures var got := Collected(old(Value()).stack, Pages(r));
        && Value() == old(Value()).(stack := old(Value()).stack + got, managed := old(Value()).managed + |got|)
        && s == if |got| < |Pages(r)| then Busy else Ok
    {
      ghost var all := Pages(r);
      ghost var before := pageStack[..freePages];
      var n := 0;
      while (n + 1) * PAGE_SIZE <= r.length
        invariant 0 <= n <= |all| && |all| == r.length / PAGE_SIZE
        invariant Valid() && freePages == old(freePages) + n && managedPages == old(managedPages) + n
        invariant pageStack[..freePages] == before + all[..n]
        decreases |all| - n
      {
        if freePages >= MAX_PAGES {
          return Busy;
        }
        pageStack[freePages] := r.base + n * PAGE_SIZE;
        assert all[n] == r.base + PAGE_SIZE * n;
        freePages := freePages + 1;
        managedPages := managedPages + 1;
        n := n + 1;
        assert all[..n] == all[..n - 1] + [all[n - 1]];
        assert pageStack[..freePages] == (before + all[..n - 1]) + [all[n - 1]];
      }
      assert n == |all|;
      assert all[..n] == all;
      return Ok;
    }

    /** Takes one memory map entry in; stop says that the stack is full. */
    method TakeMapEntry(e: MemEntry) returns (stop: bool)
      requires Valid()
      modifies this, pageStack, usable, reserved
      ensures Valid() && (Value(), stop) == TakeEntry(old(Value()), e)
    {
      stop := false;
      match Trim(e) {
        case None =>
        case Some(region) =>
          if e.usable {
            TrimWhole(e);
            RecordUsable(region);
            var s := CollectUsable(region);
            stop := s != Ok;
          } else {
            RecordReserved(region);
          }
      }
    }

    method PmmInit(entries: seq<MemEntry>) returns (s: Status)
      requires Valid()
      modifies this, pageStack, usable, reserved
      ensures Valid()
      ensures entries != [] ==> (Value(), s) == Init(entries)
      ensures entries == [] ==> s == Inval && Value() == old(Value())
    {
      if entries == [] {
        return Inval;
      }
      freePages, managedPages, takenPages, usableCount, reservedCount := 0, 0, 0, 0, 0;
      initialized := false;
      var i := 0;
      var stop := false;
      while i < |entries| && !stop
        invariant 0 <= i <= |entries| && Valid()
        invariant Collect(EMPTY, entries) == if stop then Value() else Collect(Value(), entries[i..])
      {
        assert entries[i..][1..] == entries[i + 1..];
        stop := TakeMapEntry(entries[i]);
        i := i + 1;
      }
      if managedPages == 0 {
        return NoMem;
      }
      initialized := true;
      return Ok;
    }
  }
}
