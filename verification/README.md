# SCDK kernel model

A Dafny model of the hard parts of SCDK, a small x86_64 capability kernel with static tables, and proofs about
whole runs of it. `dafny verify dfyconfig.toml` checks everything. Each component comes as pure functions on
values (what the state is and what an operation does to it), as lemmas about them, and, where the kernel updates
tables in place, as a class over arrays and fields whose methods are proved to compute exactly those functions.

| component | specification and theorems | in-place form |
|---|---|---|
| physical pages | `PhysicalPages` | `Pmm` |
| page tables, translation, cache | `Words`, `PageTables`, `Paging`, `TableGrowth`, `VirtualMemory`, `MemoryRuns`, `AddressSpaces`, `SpaceTokens` | `Vmm` |
| user memory | `UserIpc` | `UserIpc` |
| kernel heap | `HeapBlocks`, `HeapGrowth`, `GrowthCost` | `Heap`, `KernelHeap` |
| scheduler | `Scheduling`, `ThreadRevocation` | `Scheduler` |
| objects and capabilities | `Capabilities`, `CapabilityHistory` | `CapTable` |
| user grants, open tmpfs files | `UserGrants`, `Tmpfs` | `GrantTable`, `OpenFiles` |
| rings and the console pipeline | `RingQueues`, `RingPipeline`, `UserRings` | `Ring`, `RingPipeline`, `UserRings` |
| text console | `TextScreen`, `TextHistory` | `TextConsole` |
| initrd | `Tar`, `TarArchive`, `Directory` | `Tar`, `Directory` |

Properties that fail as one would first state them, each with the exact condition under which they hold:

- `is_canonical` accepts 0x0000800000000000, which walks the same entries as 0xffff800000000000: an accepted
  address is its own key in the address map exactly when it is canonical (section 3.3.7.1 of the Intel SDM
  Volume 1) (`VirtualMemory.AcceptedAliases`). A physical address at or above 2^52 is stored truncated; the
  mapping holds its frame part.
- INVLPG does nothing on a non-canonical address (Intel SDM Volume 2, INVLPG), so unmapping the lowest kernel
  page under its alias 0x0000800000000000 leaves a cached translation behind
  (`MemoryRuns.AliasUnmapIsStale`). Unmapping keeps every coherent cache coherent exactly when it fails, or
  the root is active and the address canonical, or the active root does not share the top-level entry
  (`MemoryRuns.UnmapStepGood`).
- The page at 2^64 - 4096 can be freed although it is not managed: release is exact if and only if the address
  is another one, or a reserved region was recorded, or none is usable, or the stack is full
  (`PhysicalPages.FreeExact`, `PhysicalPages.LastPageSlipsIn`); the stack of pages is free of duplicates
  exactly when the usable regions are apart (`PhysicalPages.NoDupIffApart`,
  `PhysicalPages.OverlapHandsOutTwice`); an entry is trimmed to pages inside it exactly when it does not begin
  inside the last page of the 64-bit space, and otherwise to all pages below (`PhysicalPages.TrimInsideIff`,
  `PhysicalPages.TopEntryReservesAll`). A memory map larger than the static tables leaves recorded pages
  uncollected, which can then be freed (`PhysicalPages.UncollectedSlipsIn`), or stacks pages whose region is not
  recorded, which cannot: the pool is conserved exactly if the stack has room for the first 128 usable regions
  and there are no more regions, or those fill it to the last page (`PhysicalPages.InitConservesIff`).
- A kernel page mapped after an address space was created is visible in it exactly if the top-level entry was
  there at its creation (`MemoryRuns.LaterPageSeenIff`); in no run do two roots start or cease to share a
  top-level entry (`MemoryRuns.RunSharing`).
- Copying to the user and back is the identity for all bytes exactly if no two addresses of the range are the
  same physical byte (`UserIpc.CopyRoundTripIff`).
- Heap growth that runs out of pages part-way leaves its pages mapped, and every later growth then fails. This
  happens exactly when, for some 0 < j < n with nothing in the way, the free stack holds just the data pages
  and missing tables of the first j pages (`GrowthCost.LeakIff`, `GrowthCost.LeakBlocksGrowth`, and a machine
  on which it does, `GrowthCost.LeakHappens`); growth that fails because of mapping gives every data page back.
- A thread at position k of the queue whose token is revoked leaves it within k + 1 yields, stays READY for
  ever and never runs (`ThreadRevocation.RevokedThreadIsLost`); READY and queued stay the same over a run
  exactly if no yield of it meets a revoked token at the head of the queue (`ThreadRevocation.RunQueuedIff`).
- A revoked token is accepted again exactly when its slot's generation has moved through a multiple of
  2(2^32 - 1) steps (`CapabilityHistory.StaleUntilCycle`).
- A ring is a FIFO in every run exactly if its size divides 2^32 (`RingQueues.FifoIff`); for any other size a
  run reaches the wrap-around of its counters and takes an item out of turn (`RingQueues.WrapReached`).
- A processing call loses the completion of one consumed descriptor exactly when the room for completions is
  smaller than the batch and than what waits, and the writes up to there succeed (`RingPipeline.BatchExact`).
- Incremental drawing differs from a full redraw on one row and on more than 256 rows, and only there
  (`TextHistory.RedrawIff`); a tab on one to three columns never ends (`TextScreen.TabDiverges`).
- Listing and stat disagree about a path that is both a file and a directory, or whose only descendant is the
  path with a trailing slash (`Directory.StatAgreesIff`, `Directory.StatCanDisagree`, `Directory.StatCanMiss`);
  a listing fails although the directory exists exactly if a first component is empty or too long or there are
  more different ones than the buffer holds (`Directory.ListOfGoodIff`).

## Model

| member | source | states |
|---|---|---|
| PhysicalPages.AllocConserves | src/mm/pmm.c:195-211 | allocation hands out a managed page that was not out, fails exactly when every managed page is out, and conserves free plus allocated |
| PhysicalPages.FreeConserves | src/mm/pmm.c:213-240 | a free succeeds exactly on pages currently out, takes exactly that page back, and the next allocation returns it; a refused free changes nothing |
| PhysicalPages.LastPageSlipsIn | src/mm/pmm.c:60-81 | without reserved regions the wrap-around in the containment test lets the last page of the 64-bit space be freed |
| PhysicalPages.FreeExact | src/mm/pmm.c:213-240 | a free succeeds exactly on pages currently out if and only if the address is not the last page, or a reserved region is recorded, or no region is usable, or the stack is full |
| PhysicalPages.FreeErrors | src/mm/pmm.c:213-240 | why a release fails: not a page address, not a managed page, or free already |
| PhysicalPages.RunConserves | src/mm/pmm.c:195-240 | in every run of allocations and frees at addresses the region tables do not mistake, the stack has no duplicates and free plus out equals managed |
| PhysicalPages.CollectAll | src/mm/pmm.c:108-193 | for every memory map, collection stacks the whole pages of the usable entries in order until the stack is full, and records the regions taken in, the one that did not fit included, until the table is full |
| PhysicalPages.CollectReserved | src/mm/pmm.c:83-183 | unless the stack overflows, the reserved regions are recorded in order until the table is full |
| PhysicalPages.UsablePages | src/mm/pmm.c:27-33 | the pages of the usable regions are exactly the whole pages that lie in some usable entry |
| PhysicalPages.NoDupIffApart | src/mm/pmm.c:108-120 | the collected stack is free of duplicates exactly when the usable regions do not overlap |
| PhysicalPages.InitConserves | src/mm/pmm.c:122-193 | after initialisation from a map whose usable entries are physical and apart and that the static tables hold, the pool conserves exactly the pages of the recorded regions, with reserved entries anywhere below the last page |
| PhysicalPages.InitConservesIff | src/mm/pmm.c:83-193 | for every map whose usable entries are physical and apart, some set of pages is conserved exactly if the stack has room for the recorded regions and no region is unrecorded, or the recorded ones fill the stack exactly |
| PhysicalPages.UncollectedSlipsIn | src/mm/pmm.c:108-161 | with one page more than the stack holds, a page that was never handed out can be freed after one allocation |
| PhysicalPages.TrimInsideIff | src/mm/pmm.c:27-33 | an entry is trimmed to whole pages inside it exactly when it does not begin inside the last page of the 64-bit space |
| PhysicalPages.TopEntryReservesAll | src/mm/pmm.c:27-33 | one byte inside the last page is trimmed to the region of all pages below it |
| PhysicalPages.OverlapHandsOutTwice | src/mm/pmm.c:136-183 | a map with the same usable entry twice makes the allocator hand the same page out twice |
| Pmm.PageAllocator.PageAlloc | src/mm/pmm.c:195-211 | the stack pop on the array is the specification's allocation |
| Pmm.PageAllocator.PageFree | src/mm/pmm.c:213-240 | the checked push on the array is the specification's free, errors included |
| Pmm.PageAllocator.StackContains | src/mm/pmm.c:98-106 | the scan answers whether the page is on the stack |
| Pmm.PageAllocator.IsUsablePage | src/mm/pmm.c:242-254 | the region scan answers whether some usable region contains the page |
| Pmm.PageAllocator.IsReservedPage | src/mm/pmm.c:256-268 | the region scan answers whether some reserved region overlaps the page |
| Pmm.PageAllocator.CollectUsable | src/mm/pmm.c:108-120 | the collection loop pushes the region's pages as far as the stack has room |
| Pmm.PageAllocator.PmmInit | src/mm/pmm.c:122-193 | the initialisation loop over the memory map is the specification's initialisation |
| Words.FrameFits | src/mm/vmm.c:14-15 | the address mask keeps a page-aligned physical address exactly if it is below 2^52 |
| Words.MakeWord | src/mm/vmm.c:268-279 | the word built for a page decodes to a present small-page entry with its writable and user flags and the masked address |
| Words.EntryLayout | src/mm/vmm.c:11-15 | an entry's present, writable, user and large-page bits and its address are bits 0, 1, 2, 7 and 12 to 51 (section 4.5 of the Intel SDM Volume 3A) |
| Words.LayoutIsPath | src/mm/vmm.c:45-59 | the four indices and the offset taken from an address are the ones the processor takes: 9 bits each from bits 39, 30, 21 and 12, and the low 12 bits |
| Words.AcceptedRange | src/mm/vmm.c:36-39 | the accepted addresses are the lowest and the highest 2^48 |
| Words.PathDetermines | src/mm/vmm.c:45-59 | two canonical pages with the same four indices are the same page |
| Words.CanonSamePath | src/mm/vmm.c:36-59 | every accepted address has the indices of its canonical form |
| Paging.CreatePath | src/mm/vmm.c:102-160 | walking down with creation keeps the tables well formed, adds only empty tables on this path, and succeeds exactly when no large page is in the way and the pool covers the missing tables |
| Paging.NextSound | src/mm/vmm.c:102-130 | one step down keeps soundness, reaches the next level's table of the path, and is one step of the whole walk |
| Paging.MapPathEffect | src/mm/vmm.c:235-285 | mapping changes exactly one walk, in the roots that share its top-level entry; a failing call, even after creating tables, changes no walk; exact success condition and errors |
| Paging.UnmapPathEffect | src/mm/vmm.c:293-323 | unmapping removes exactly that walk, keeps the pool, and fails exactly when nothing is mapped there |
| Paging.CreateRootEffect | src/mm/vmm.c:192-221 | a new root has an empty user half and the active root's kernel half, no other walk changes, and it fails exactly without pages |
| Paging.DropRootEffect | src/mm/address_space.c:103-112 | giving a fresh root's page back restores every other root's walks |
| Paging.BareSound | src/mm/vmm.c:162-177 | a single root with nothing mapped, beside any distinct free pages, is a sound machine |
| TableGrowth.MapDeepens | src/mm/vmm.c:102-160 | a successful mapping takes exactly the missing tables off the stack, gives every other path exactly the tables it shares with the mapped one, obstructs no path, and changes no sharing between roots |
| VirtualMemory.MapRefines | src/mm/vmm.c:235-285 | mapping refines update of a finite map from canonical pages to mappings: one new key in the sharing roots, none on failure |
| VirtualMemory.UnmapRefines | src/mm/vmm.c:293-323 | unmapping refines removal of one key and succeeds exactly if the key is there; a failing call changes no map and no machine state |
| VirtualMemory.MapOkIff | src/mm/vmm.c:235-285 | mapping succeeds exactly for well-formed arguments, a free key, no large page in the way, and a free page for each missing table |
| VirtualMemory.TranslateRefines | src/mm/vmm.c:329-373 | translation returns the key's physical address with the offset kept and its leaf flags, and fails exactly when the key is absent |
| VirtualMemory.TranslateByTables | src/mm/vmm.c:329-373 | told from the tables alone, index by index from the root: translation returns the leaf entry's frame plus the offset with its flags; without a present leaf it fails, as busy exactly if a large page is in the way |
| VirtualMemory.MapByTables | src/mm/vmm.c:235-285 | told from the tables alone: the leaf at the address's own indices was absent and is the new entry, and every other leaf of that root is what it was |
| VirtualMemory.AddressMapByTables | src/mm/vmm.c:45-59 | the address map has a canonical page exactly if the four tables lead to a present leaf, with its frame and flags |
| VirtualMemory.UserPagesArePrivate | src/mm/vmm.c:235-323 | mapping or unmapping a user page in one root changes no other root's map |
| VirtualMemory.AcceptedAliases | src/mm/vmm.c:36-39 | an accepted address is its own key exactly when it is canonical, and 0x0000800000000000 is an accepted alias |
| MemoryRuns.MapStepGood | src/mm/vmm.c:276-284 | mapping keeps every coherent translation cache coherent, in whatever root |
| MemoryRuns.UnmapStepGood | src/mm/vmm.c:312-322 | unmapping keeps every coherent cache coherent exactly when it fails, or acts on the active root under a canonical address, or the active root does not share the entry; otherwise some coherent cache becomes stale |
| MemoryRuns.AliasUnmapIsStale | src/mm/vmm.c:36-39 | a machine and a cached translation that survives unmapping the lowest kernel page under 0x0000800000000000 |
| MemoryRuns.StepGood | src/mm/vmm.c:223-323 | every entry point, kernel pages being unmapped under canonical addresses, keeps tables sound, cache coherent (section 4.10 of the Intel SDM Volume 3A) and present top-level entries unchanged |
| MemoryRuns.RunGood | src/mm/vmm.c:223-323 | in every such run all cached translations agree with the current tables |
| MemoryRuns.SharedForever | src/mm/vmm.c:192-221 | equal present top-level entries of two roots show the same mappings through both, in every run |
| MemoryRuns.CreatedRootShares | src/mm/vmm.c:207-215 | in every later run a new root shares exactly the kernel entries that pointed to tables in its creator at creation, and below those present the two agree on every walk |
| MemoryRuns.RunSharing | src/mm/vmm.c:192-323 | in every run two roots share exactly the top-level entries that they shared at its start |
| MemoryRuns.LaterPageSeenIff | src/mm/vmm.c:207-285 | a kernel page mapped later through the creator's root appears in the new root if the top-level entry was there at creation, and otherwise changes none of its walks |
| MemoryRuns.RunPrivate | src/mm/address_space.c:135-181 | in every run that does not map or unmap user pages in a root, that root's user half does not change |
| MemoryRuns.LeafDecides | src/mm/vmm.c:361-370 | in a root filled only through address spaces, the permission combined over four levels (section 4.6 of the Intel SDM Volume 3A) is the leaf's |
| MemoryRuns.RunOpen | src/mm/address_space.c:156-160 | in every run that fills a root's user half only through address spaces, all its upper levels stay open to user writes |
| MemoryRuns.CreatedRootOpen | src/mm/vmm.c:192-221 | a new root starts with that property |
| Vmm.PageTableManager.NextTable | src/mm/vmm.c:102-130 | the step on raw 64-bit words is the specification's step, creation included |
| Vmm.PageTableManager.LeafTableForRoot | src/mm/vmm.c:132-160 | the three steps reach the path's leaf table or the specification's error |
| Vmm.PageTableManager.MapPageInRoot | src/mm/vmm.c:235-285 | the whole call on raw words, flush included, is the specification's step |
| Vmm.PageTableManager.UnmapPageInRoot | src/mm/vmm.c:293-323 | the whole call on raw words is the specification's step, the flush included, which has no effect on a non-canonical address |
| Vmm.PageTableManager.MapPage | src/mm/vmm.c:287-291 | mapping in the active root |
| Vmm.PageTableManager.UnmapPage | src/mm/vmm.c:325-327 | unmapping in the active root, with that flush |
| Vmm.PageTableManager.VirtToPhysInRoot | src/mm/vmm.c:329-373 | translation over raw words is the specification's translation |
| Vmm.PageTableManager.CreateRoot | src/mm/vmm.c:192-221 | the copy loop builds the specification's new root |
| Vmm.PageTableManager.ActivateRoot | src/mm/vmm.c:223-233 | activation switches the root and empties the cache, or refuses a bad root |
| AddressSpaces.SpaceMapEffect | src/mm/address_space.c:73-161 | mapping through a token needs map, read and for writable pages write rights, adds exactly one free user page to the map of the root made for the token's object, and changes no map on failure |
| AddressSpaces.LookupMeaning | src/mm/address_space.c:38-71 | a lookup succeeds exactly through a token last issued, with the right, for an object that a root was made for, and not revoked since; it finds that root |
| AddressSpaces.HomesApart | src/mm/address_space.c:95-119 | two address-space objects never share a root |
| AddressSpaces.SpaceMapIff | src/mm/address_space.c:73-161 | mapping through a token succeeds exactly with the rights, window, alignment and flags right, the page free, no large page in the way and a free page for each missing table |
| AddressSpaces.SpaceUnmapEffect | src/mm/address_space.c:163-181 | unmapping through a token removes exactly one user page of the root made for the token's object, and succeeds exactly if the token has the map and read rights and the page is there |
| AddressSpaces.SpaceTranslateMeaning | src/mm/address_space.c:196-221 | translation through a token with the read right reads the map of the root made for its object, and fails exactly where that has no user-window page |
| AddressSpaces.SpaceActivateOk | src/mm/address_space.c:183-194 | activation makes the root made for the token's object active exactly if the token has the read right, and changes no map |
| AddressSpaces.AllocatedOk | src/mm/heap.c:249-282 | an allocation from the kernel heap, growth included, keeps tables, cache, pool and heap consistent, changes walks only behind the heap, no cached one, and no user page of any root |
| AddressSpaces.SpaceCreateOk | src/mm/address_space.c:85-133 | a new space has a root no other space has and no user pages; the user half of every other root stays as it was, and outside the pages that the record's allocation may map so does every walk |
| AddressSpaces.SpaceCreateIff | src/mm/address_space.c:85-133 | creation succeeds exactly if the heap serves the record, a page is left for the root, and an object and a token slot are free |
| AddressSpaces.SpaceCreateKeeps | src/mm/address_space.c:85-133 | creation leaks nothing: without a new space the heap's live ranges and the pages free after growth are still there, with one it keeps one range for the record and one page for the root |
| AddressSpaces.CreatedToken | src/mm/address_space.c:119-133 | the token returned gives read, write, map and bind rights to a root that no space had, and what other tokens stand for stays as it was |
| SpaceTokens.TokenForLife | src/mm/address_space.c:38-71 | in every run a token gives the same rights to the same root until it is revoked, and none from then on for 2^32 - 2 further issues on its slot |
| AddressSpaces.OnlyThroughItsTokens | src/mm/address_space.c:38-221 | in every run, with kernel mappings, heap growth and page allocation in between, the user map of a root changes only through tokens in force that carry the map right for it |
| UserIpc.ValidateRange | src/ipc/user_ipc.c:18-79 | accepts a range exactly when it is nonempty, does not wrap, and every byte lies in the user window and is mapped user, and writable when asked |
| UserIpc.CopyFrom | src/ipc/user_ipc.c:81-97 | succeeds exactly on such ranges and returns exactly the bytes the active root maps there |
| UserIpc.CopyTo | src/ipc/user_ipc.c:99-115 | succeeds exactly on writable ranges and stores the bytes in ascending order through the active root; otherwise nothing is stored |
| UserIpc.CopyRoundTripIff | src/ipc/user_ipc.c:81-115 | copying to the user and back is the identity for all bytes exactly if no two addresses of the range are the same physical byte |
| UserIpc.AcceptedIsPermitted | src/ipc/user_ipc.c:54-70 | in roots filled through address spaces, a byte is accepted exactly when all four levels permit user mode the access |
| HeapBlocks.PayloadsDisjoint | src/mm/heap.c:64-70 | payloads are 16-aligned, in address order, disjoint and inside the committed range |
| HeapBlocks.TakeKeeps | src/mm/heap.c:111-135 | splitting and taking a free block keeps the tiling, the size rule and that no two neighbours are free |
| HeapBlocks.ReleaseKeeps | src/mm/heap.c:99-109 | marking free and coalescing both ways keeps the same shape |
| HeapBlocks.GrownKeeps | src/mm/heap.c:205-225 | appending a committed range, coalesced with a free last block, keeps the shape up to the new end |
| HeapBlocks.ReleaseUndoesTake | src/mm/heap.c:99-135 | freeing the block just taken restores the block list exactly |
| HeapBlocks.GrownFits | src/mm/heap.c:262-281 | after an extension the second search always succeeds |
| HeapBlocks.KallocOk | src/mm/heap.c:249-282 | allocation keeps the shape and every live range, and adds exactly one aligned range of at least the size that overlaps no live one |
| HeapBlocks.KallocIff | src/mm/heap.c:249-282 | allocation succeeds exactly for 1 to 4 MiB - 48 bytes if a free block holds the size, or the least number of pages, four or more, that hold it with a header fit behind the heap and can be mapped |
| HeapBlocks.KallocCarves | src/mm/heap.c:111-145 | it takes the first free block that holds the size, cuts it to the size rounded up to 16 with a free remainder exactly if 64 bytes or more are left, and returns its payload |
| HeapBlocks.KfreeOk | src/mm/heap.c:294-312 | freeing removes exactly the allocation at that pointer and keeps the shape |
| HeapBlocks.KfreeUndoesKalloc | src/mm/heap.c:249-312 | without growth, allocating and freeing restores the whole heap state |
| HeapBlocks.RunOk | src/mm/heap.c:249-312 | in every run the blocks tile the committed range, with positive sizes that are multiples of 16 and no two free neighbours |
| HeapBlocks.RunKeepsLive | src/mm/heap.c:249-312 | an allocation that is not freed stays live, unmoved, through every run |
| HeapGrowth.GrowthOutcome | src/mm/heap.c:147-183 | growth maps all its pages, or runs out of pages with the stack empty, or fails in mapping and then leaves every walk of every root as it was and every data page back on the stack; otherwise only the range changes, in the roots that share it |
| HeapGrowth.UnwindAll | src/mm/heap.c:163-177 | the rollback loop unmaps and returns every page mapped so far |
| GrowthCost.CanGrowIff | src/mm/heap.c:147-183 | growth succeeds exactly when nothing is in the way and the free stack covers the data pages and the missing tables, each table counted once, and runs out of pages exactly when the stack holds just what the first j pages need |
| GrowthCost.LeakIff | src/mm/heap.c:150-156 | a growth that fails leaves pages mapped exactly when that holds for some 0 < j < n |
| GrowthCost.LeakWithTables | src/mm/heap.c:150-156 | with all leaf tables present that is: some free pages, but fewer than asked for |
| GrowthCost.LeakBlocksGrowth | src/mm/heap.c:150-156 | after such a growth the first page stays mapped and every later growth at that address fails |
| GrowthCost.LeakHappens | src/mm/heap.c:150-156 | a machine on which it happens |
| GrowthCost.KallocExact | src/mm/heap.c:186-282 | told from block list and machine before the call: exactly when an allocation succeeds, and that the machine changes only by growing that number of pages |
| Heap.BlockList.InsertTail | src/mm/heap.c:72-83 | the linked headers represent the old list with one block appended |
| Heap.BlockList.Remove | src/mm/heap.c:85-97 | the linked headers represent the old list without that block |
| Heap.BlockList.CoalesceForward | src/mm/heap.c:99-109 | merges with a free, adjacent next block and otherwise does nothing |
| Heap.BlockList.SplitBlock | src/mm/heap.c:111-135 | splits off a free remainder behind the block when it is large enough |
| Heap.BlockList.FindFreeBlock | src/mm/heap.c:137-145 | finds the first free block that fits, or none exactly when there is none |
| KernelHeap.PageSource.MapHeapPages | src/mm/heap.c:147-183 | the page loop is the specification's growth |
| KernelHeap.PageSource.Rollback | src/mm/heap.c:163-177 | the loop is the specification's unwinding |
| KernelHeap.Allocator.HeapExtend | src/mm/heap.c:185-226 | succeeds exactly with room in the heap, nothing in the way and enough free pages for data and tables; the list is extended or unchanged, the machine is the one after growth, and every committed page stays mapped to a frame of its own that is neither free nor a table |
| KernelHeap.Allocator.Kalloc | src/mm/heap.c:249-282 | allocation over raw headers and real page tables is the specification's, in block list, pointer and machine, and keeps the committed range backed |
| KernelHeap.Allocator.Kfree | src/mm/heap.c:294-312 | for any pointer, release over raw headers is the specification's release; a pointer that is not the payload of a block in use, such as one behind a merged-away header, is ignored |
| Scheduling.QueueHasRoom | src/core/scheduler.c:134-155 | by counting, the queue has room whenever some thread is not READY, so re-enqueueing in a yield never fails |
| Scheduling.YieldResult | src/core/scheduler.c:516-552 | a yield hands over to the head of the queue, else to the driver, else does nothing |
| Scheduling.DeadFindsSuccessor | src/core/scheduler.c:216-227 | a dead thread always finds a successor |
| Scheduling.YieldKeeps | src/core/scheduler.c:516-552 | after every yield exactly one thread is RUNNING and is current, and a thread is READY exactly if it is queued, once |
| Scheduling.StartKeeps | src/core/scheduler.c:357-386 | starting keeps the invariant and appends exactly a startable fresh thread to the queue, or changes nothing |
| Scheduling.CreateKeeps | src/core/scheduler.c:274-355 | creating a thread keeps the invariant |
| Scheduling.CreateExact | src/core/scheduler.c:274-355 | creation succeeds exactly if a slot is vacant; the first such slot then holds a fresh, unqueued thread under the new token, startable as asked, and nothing else changes |
| Scheduling.StartExact | src/core/scheduler.c:357-386 | starting succeeds exactly on an accepted token of a fresh, startable thread, which becomes ready and queued last; nothing else changes |
| Scheduling.CreatedStarts | src/core/scheduler.c:314-386 | a thread created with an entry point can be started at once, and one without is refused |
| Scheduling.StepKeeps | src/core/scheduler.c:202-568 | every operation keeps the invariant |
| Scheduling.DeadForever | src/core/scheduler.c:216-227 | in every run a dead thread stays dead and is never current again |
| Scheduling.StillWaiting | src/core/scheduler.c:157-178 | a queued thread moves up by exactly one position per yield |
| Scheduling.RunsInTurn | src/core/scheduler.c:516-552 | a thread at position k becomes current at exactly the (k+1)-th later yield |
| Scheduling.RunTerminates | src/core/scheduler.c:554-568 | if every thread, also one created during the run, acts finitely often, the run ends with the driver RUNNING and current, the queue empty and every started thread DEAD |
| ThreadRevocation.StepLoose | src/core/scheduler.c:134-568 | what survives any revocation: one name per thread, a queue of distinct READY threads, at most the current thread RUNNING |
| ThreadRevocation.YieldDrops | src/core/scheduler.c:157-178 | a yield drops the revoked tokens at the head of the queue without a trace and is then the yield of the scheduler without them |
| ThreadRevocation.RevokedThreadIsLost | src/core/scheduler.c:165-177 | a thread at position k whose token is revoked stays READY and never runs in any later run, and its token is out of the queue after k + 1 yields |
| ThreadRevocation.YieldQueuedIff | src/core/scheduler.c:157-178 | a yield keeps READY and queued the same exactly when no revoked token stands at the head of the queue |
| ThreadRevocation.YieldAllLiveIff | src/core/scheduler.c:516-552 | it does so under tokens that are all live exactly when all were, and the current thread's is if that thread is re-enqueued |
| ThreadRevocation.RunQueuedIff | src/core/scheduler.c:516-552 | after any run with any revocations READY and queued are the same exactly if no yield met a revoked token at the head |
| ThreadRevocation.DeadStuckIff | src/core/scheduler.c:216-227 | a dying thread finds no successor exactly when no queued token is live and no driver waits |
| Scheduler.RunQueueScheduler.EnqueueThread | src/core/scheduler.c:134-155 | the circular array represents the queue with the thread appended |
| Scheduler.RunQueueScheduler.DequeueThread | src/core/scheduler.c:157-178 | the loop over the circular array takes the first entry that names a READY thread |
| Scheduler.RunQueueScheduler.SwitchToThread | src/core/scheduler.c:202-214 | the switch changes states and current as specified |
| Scheduler.RunQueueScheduler.SchedYield | src/core/scheduler.c:516-552 | the yield on the in-place tables is the specification's yield |
| Scheduler.RunQueueScheduler.ThreadStart | src/core/scheduler.c:357-386 | start on the in-place tables, errors included |
| Scheduler.RunQueueScheduler.ThreadCreate | src/core/scheduler.c:274-355 | creation takes the first vacant slot |
| Scheduler.RunQueueScheduler.RevokeToken | src/core/capability.c:155-167 | the token is no longer accepted |
| Scheduler.RunQueueScheduler.EnterRun | src/core/scheduler.c:554-560 | entering the run records the driver |
| Scheduler.RunQueueScheduler.LeaveRun | src/core/scheduler.c:561-568 | leaving the run restores the driver |
| Scheduler.RunQueueScheduler.ThreadExit | src/core/scheduler.c:216-227 | exit marks the thread dead and yields |
| Capabilities.LookupCreated | src/core/object.c:34-87 | a created object is found under its fresh id with its type and payload, and every older id finds what it found |
| Capabilities.ObjectCreateIff | src/core/object.c:34-63 | an object is made exactly if it has a type and a slot is free |
| Capabilities.CapCreateIff | src/core/capability.c:55-87 | a token is minted exactly if it carries a right, its object exists, and a slot is unused or revoked |
| Capabilities.OneRight | src/core/capability.c:113-142 | each right is a bit of its own |
| Capabilities.LookupIsSlot | src/core/capability.c:34-111 | on well-formed tables a lookup succeeds exactly when the slot's generation matches and it is in use |
| CapabilityHistory.TokensDistinct | src/core/capability.c:23-32 | the n-th and m-th token of a slot are equal exactly when n and m differ by a multiple of 2^32 - 1 |
| CapabilityHistory.StepRecorded | src/core/capability.c:55-167 | every step keeps tables and history in agreement: creation and revocation alternate per slot, and a token is accepted exactly if it was last issued |
| CapabilityHistory.CheckMeaning | src/core/capability.c:113-142 | in every run a check succeeds exactly if the token was issued with those rights for an object of that type and not revoked since |
| CapabilityHistory.CheckErrors | src/core/capability.c:89-142 | why a check fails: nothing asked for or no token, a token never issued or revoked, or another kind of object or a missing right |
| CapabilityHistory.StaleUntilCycle | src/core/capability.c:155-167 | a revoked token stays rejected until its slot has moved through 2(2^32 - 1) steps, and is accepted exactly at the multiples |
| CapTable.KernelTables.CreateObject | src/core/object.c:34-63 | the slot scan on the arrays is the specification's creation |
| CapTable.KernelTables.LookupObject | src/core/object.c:65-87 | lookup on the arrays, errors included |
| CapTable.KernelTables.CreateCap | src/core/capability.c:55-87 | the slot scan on the arrays is the specification's creation |
| CapTable.KernelTables.LookupCap | src/core/capability.c:34-111 | lookup on the arrays, errors included |
| CapTable.KernelTables.CheckCap | src/core/capability.c:113-142 | check on the arrays, errors included |
| CapTable.KernelTables.RevokeCap | src/core/capability.c:155-167 | revocation marks the slot and moves its generation |
| UserGrants.GrantCreateOk | src/core/user_grant.c:114-193 | creation keeps that every accepted grant token denotes what it was created with, also over a reused slot and when minting fails; the new token was not accepted before |
| UserGrants.LookupDenotes | src/core/user_grant.c:39-90 | a lookup that succeeds leads to the slot with what the token was created with |
| UserGrants.LookupIff | src/core/user_grant.c:39-90 | a lookup succeeds exactly through an accepted grant token whose rights cover what is asked for, and, for a live one, with task and endpoint tokens in force |
| UserGrants.GrantCreateIff | src/core/user_grant.c:114-193 | creation succeeds exactly for a complete request under grantable rights, tokens in force and an accepted range, while a grant slot, a token slot and, for a new slot, an object slot are free |
| UserGrants.GrantCreateFails | src/core/user_grant.c:114-193 | a failing creation withdraws nothing, records nothing and takes no slot |
| UserGrants.CheckRangeExact | src/core/user_grant.c:92-112 | a part of a grant may be used exactly if it is not empty, lies in the grant, and the grant has the grantable rights asked for |
| UserGrants.GrantRevokeIff | src/core/user_grant.c:195-206 | revocation succeeds exactly on accepted grant tokens, takes out that token alone and marks its slot for reuse |
| UserGrants.GrantRevokeOk | src/core/user_grant.c:195-206 | revocation keeps the invariant and takes the token out |
| UserGrants.TokenDenotes | src/core/user_grant.c:39-193 | in every run, whatever lookup a token passes leads to its own base, length, rights, task and endpoint |
| UserGrants.WithdrawnStaysOut | src/core/user_grant.c:195-206 | a withdrawn token reaches no later occupant of its slot until its generation comes round |
| GrantTable.LookupExact | src/core/user_grant.c:39-90 | a live lookup for reading succeeds exactly for a readable grant whose task and endpoint tokens are in force |
| GrantTable.UserGrantTable.Lookup | src/core/user_grant.c:39-90 | the checks on the in-place tables are the specification's lookup |
| GrantTable.UserGrantTable.Create | src/core/user_grant.c:114-193 | the scan and reuse on the in-place tables is the specification's creation, with the range validated through the active root |
| GrantTable.UserGrantTable.Revoke | src/core/user_grant.c:195-206 | revocation on the in-place tables is the specification's |
| GrantTable.UserGrantTable.CopyFrom | src/core/user_grant.c:223-252 | succeeds exactly inside the granted range, for the grant's endpoint, while grant, task and endpoint tokens are in force and the bytes are user-readable, and returns exactly those bytes |
| Tmpfs.OpenOk | src/services/tmpfs_service.c:90-136 | opening keeps that accepted tokens find what they were opened on, keeps closed files closed, and the new token reads the new file |
| Tmpfs.CloseOk | src/services/tmpfs_service.c:231-246 | closing shuts exactly the object behind the token and leaves the capability tables alone |
| Tmpfs.OpenIff | src/services/tmpfs_service.c:90-136 | opening succeeds exactly for a file that was found, with a file slot, an object slot and a token slot free |
| Tmpfs.OpenReads | src/services/tmpfs_service.c:90-136 | opening makes its token read the file, and whatever other tokens read stays as it was |
| Tmpfs.ReadExact | src/services/tmpfs_service.c:190-229 | reading succeeds exactly through a token that reads some bytes, from an offset not past their end or for no bytes, and returns what is asked for as far as there is any |
| Tmpfs.CloseReads | src/services/tmpfs_service.c:231-246 | closing succeeds exactly on a token that reads; tokens of that object then read nothing and all others what they read |
| Tmpfs.OpenForLife | src/services/tmpfs_service.c:28-65 | an open file stays open with its bytes over every run that does not close it or revoke its token |
| Tmpfs.FileTokenDenotes | src/services/tmpfs_service.c:28-55 | in every run a token that reads at all reads the requested part of the bytes it was opened on |
| Tmpfs.ClosedStaysOut | src/services/tmpfs_service.c:28-65 | a closed file's token finds no file after any further run, whoever holds its slot, until its generation comes round |
| OpenFiles.OpenFileTable.SlotForCap | src/services/tmpfs_service.c:28-55 | the checks on the in-place tables are the specification's lookup |
| OpenFiles.OpenFileTable.HandleOpenPath | src/services/tmpfs_service.c:67-136 | the open request opens the bytes of the first initrd file of exactly that path, or fails as the lookup does |
| OpenFiles.BackingExact | src/services/tmpfs_service.c:67-100 | a path of 1 to 127 bytes leads to the bytes of the first file of exactly the text before its first NUL |
| OpenFiles.OpenFileTable.HandleOpen | src/services/tmpfs_service.c:108-136 | after the lookup, the scan and fill on the in-place tables is the specification's opening |
| OpenFiles.OpenFileTable.HandleRead | src/services/tmpfs_service.c:190-229 | the bounded copy is the specification's read |
| OpenFiles.OpenFileTable.HandleClose | src/services/tmpfs_service.c:231-246 | closing on the in-place table is the specification's |
| RingQueues.CountIsLength | src/core/ring.c:17-19 | the 32-bit counter difference is the number of waiting items, and the counters are equal exactly when none waits, across wrap-around |
| RingQueues.PushRefines | src/core/ring.c:173-178 | a push is accepted exactly when there is room, appends, and keeps the contents in order within the bound |
| RingQueues.PopRefines | src/core/ring.c:196-202 | a pop succeeds exactly when something waits and returns the oldest item within the bound |
| RingQueues.RunIsFifo | src/core/ring.c:219-248 | in every run what was taken is a prefix of what was accepted, without bound for sizes dividing 2^32 and through 2^32 pushes for the others |
| RingQueues.ApartIffDivides | src/core/ring.c:177 | neighbouring positions keep distinct slots for ever exactly for the sizes dividing 2^32 |
| RingQueues.FifoIff | src/core/ring.c:55-202 | for every size from 1 to 64, what was taken is a prefix of what was accepted in every run from the fresh queue exactly if the size divides 2^32 |
| RingQueues.WrapReached | src/core/ring.c:55-202 | for every other size, a run from the fresh queue that takes out an item out of turn |
| RingQueues.WrapLosesFirst | src/core/ring.c:173-201 | for every other size, an empty queue just before the wrap-around accepts items of which the last is popped first |
| Ring.RingLookupMeaning | src/core/ring.c:21-49 | a ring token is good for a right exactly if it was last issued for a ring with that right and not revoked since |
| Ring.RingObject.BindTarget | src/core/ring.c:108-129 | binding succeeds exactly with an endpoint in force and the bind right |
| Ring.RingObject.BoundTarget | src/core/ring.c:131-157 | returns the bound endpoint while its token is in force |
| Ring.RingObject.Submit | src/core/ring.c:159-180 | the array write and counter step are the specification's push |
| Ring.RingObject.Consume | src/core/ring.c:182-203 | the array read and counter step are the specification's pop |
| Ring.RingObject.Complete | src/core/ring.c:205-226 | the array write and counter step are the specification's push |
| Ring.RingObject.Poll | src/core/ring.c:228-249 | the array read and counter step are the specification's pop |
| RingPipeline.OneResult | src/services/console_service.c:124-171 | one round consumes the oldest descriptor and posts a completion that reports on it, or finds none, or consumes it and loses the answer because there is no room |
| RingPipeline.AnswersReport | src/services/console_service.c:135-160 | every completion of a batch echoes op and flags of its descriptor, has status INVAL for one that is no write to this endpoint of 1 to 128 bytes out of a grant and otherwise the outcome of its write, and the length as result exactly on success |
| RingPipeline.BatchResult | src/services/console_service.c:124-172 | a processing call consumes at most one descriptor more than it answers; answers are in order; with room and all writes succeeding it answers the whole batch |
| RingPipeline.BatchExact | src/services/console_service.c:124-172 | told from the state before the call: exactly how many descriptors it consumes and answers and what it returns; an answer is lost exactly when the room is smaller than the batch and than what waits, and the writes up to there succeed |
| RingPipeline.PipelineMeaning | src/services/console_service.c:157-165 | submitted is consumed followed by pending, polled is a prefix of posted, and each posted completion reports in that way on the descriptor it answers |
| RingPipeline.ProcessOne | src/services/console_service.c:130-171 | one round on the ring object is the specification's round |
| RingPipeline.ProcessRing | src/services/console_service.c:97-173 | nothing is consumed unless arguments, rights and binding are right, and then the loop is the specification's batch |
| UserRings.SubmitAllResult | src/core/user_ring.c:177-191 | as many descriptors as fit are accepted in order, and the call fails as busy exactly when not all fit |
| UserRings.PollAllResult | src/core/user_ring.c:248-267 | a poll returns exactly the oldest waiting completions, up to the number asked for |
| UserRings.BatchRoundTrip | src/core/user_ring.c:136-275 | on an idle ring, a batch that fits and succeeds is submitted, consumed, answered and polled completely and in order |
| UserRings.RunKeepsOrder | src/core/user_ring.c:177-269 | in every run of batches, submitted is consumed followed by pending, and completions report on consumed descriptors in order |
| UserRings.UserRingTable.SlotFor | src/core/user_ring.c:36-67 | finds a slot exactly for a ring the task itself created, with both tokens in force |
| UserRings.UserRingTable.Create | src/core/user_ring.c:69-110 | makes an unbound, empty ring and registers it for exactly that task, or leaves the table as it was, with the exact condition |
| UserRings.UserRingTable.NewRing | src/core/ring.c:51-106 | making the ring takes a free slot, an object and a token, and gives the slot back if the token fails |
| UserRings.MakeRingExact | src/core/ring.c:51-106 | a ring is made exactly if slots for ring, object and token are free; its token then gives read, write and bind rights to the object of the one slot that changed |
| UserRings.UserRingTable.Bind | src/core/user_ring.c:112-134 | exactly the owner with the rights binds the ring and its slot to the endpoint |
| UserRings.UserRingTable.SubmitBatch | src/core/user_ring.c:136-204 | acts exactly for the owner of a bound ring on descriptors readable through the active root, and submits what those bytes say; a batch that does not fit is submitted as far as it goes and not processed; one that fits is processed |
| UserRings.UserRingTable.PollBatch | src/core/user_ring.c:206-275 | succeeds exactly for the owner of a bound ring and a writable user range, stores the oldest completions there one after the other and returns their number |
| UserRings.PolledReadBack | src/core/user_ring.c:243-267 | the user then reads each completion at its place, if no two addresses of the range are the same physical byte |
| UserRings.StatusWords | src/include/scdk/status.h:11-18 | status words are the codes 0 to -7 in 64-bit two's complement |
| UserRings.PolledReport | src/core/user_ring.c:206-275 | the four words the user then reads at each place are op, status, result and flags as the submitted descriptor and the outcome of its write determine them |
| UserRings.DescReadBack | src/core/user_ring.c:177-190 | a descriptor laid out in user memory is read back field by field, if no two of its bytes are the same physical byte |
| TextScreen.TabIsBlanks | src/arch/x86_64/framebuffer.c:690-698 | on four or more columns a tab is a determined number of blanks ending at a tab stop |
| TextScreen.TabWidthIs | src/arch/x86_64/framebuffer.c:690-698 | that number leads to the next multiple of four if the line has it, and else to the end of the line and four more on the next |
| TextScreen.TabDiverges | src/arch/x86_64/framebuffer.c:690-698 | on one to three columns no number of blanks reaches a tab stop |
| TextHistory.RenderShows | src/arch/x86_64/framebuffer.c:461-497 | a full redraw shows the window of everything written that the history still holds |
| TextHistory.NewlineOk | src/arch/x86_64/framebuffer.c:499-524 | scrolling the picture, redrawing or leaving it alone all end with the grid showing the window of the text |
| TextHistory.PutOk | src/arch/x86_64/framebuffer.c:700-725 | a character changes the text in one place and the grid follows |
| TextHistory.BackspaceOk | src/arch/x86_64/framebuffer.c:531-540 | backspace blanks the previous column of the text and the grid follows |
| TextHistory.ScrollOk | src/arch/x86_64/framebuffer.c:778-819 | scrolling shows another window of the same text, inside the history |
| TextHistory.ScrollExact | src/arch/x86_64/framebuffer.c:778-819 | scrolling moves the view by exactly so many lines as far as there are any, and changes no text |
| TextHistory.ViewFollows | src/arch/x86_64/framebuffer.c:499-524 | a view that ends with the current line goes on doing so; any other stays where it is while its first line is kept |
| TextHistory.GridIsRedraw | src/arch/x86_64/framebuffer.c:329-819 | after every run from a clear with no rows or 2 to 256 rows, the incrementally drawn grid equals a full redraw and the window of the text, and oldest <= top <= bottom |
| TextHistory.OneRowFails | src/arch/x86_64/framebuffer.c:340-342 | on one row a letter is left standing after a new line |
| TextHistory.TallFails | src/arch/x86_64/framebuffer.c:389-400 | on more than 256 rows a line that left the history is left standing |
| TextHistory.RedrawIff | src/arch/x86_64/framebuffer.c:329-524 | grid and redraw agree in every run exactly for no columns, no rows, or 2 to 256 rows |
| TextConsole.FramebufferText.RenderConsole | src/arch/x86_64/framebuffer.c:461-497 | the cell loops draw the specification's frame after clamping the view |
| TextConsole.FramebufferText.ScrollPixelsUp | src/arch/x86_64/framebuffer.c:329-357 | the in-place copy moves the cell grid up by one row and blanks the last, on two rows or more |
| TextConsole.FramebufferText.ConsoleNewline | src/arch/x86_64/framebuffer.c:499-524 | the new line on the in-place history, view and grid is the specification's |
| TextConsole.FramebufferText.PutPrinting | src/arch/x86_64/framebuffer.c:700-725 | the printing character on the in-place state is the specification's |
| TextConsole.FramebufferText.ConsoleBackspace | src/arch/x86_64/framebuffer.c:531-540 | the backspace on the in-place state is the specification's |
| TextConsole.FramebufferText.PutTab | src/arch/x86_64/framebuffer.c:690-698 | the tab loop ends, with the specification's result |
| TextConsole.FramebufferText.PutChar | src/arch/x86_64/framebuffer.c:664-726 | the dispatch on the character, with its status |
| TextConsole.FramebufferText.Write | src/arch/x86_64/framebuffer.c:643-662 | writing a text is pressing its characters in turn up to the first that is refused, which only a console without columns does |
| TextConsole.FramebufferText.ScrollView | src/arch/x86_64/framebuffer.c:778-819 | the view movement on the in-place state is the specification's |
| TextConsole.FramebufferText.Clear | src/arch/x86_64/framebuffer.c:728-752 | clearing leaves the blank screen |
| Tar.ParseOctal | src/mm/initrd.c:98-129 | the digit loop yields the octal value of the text before the first NUL or space, and fails exactly on no digit or a bad one |
| Tar.Normalized | src/mm/initrd.c:141-220 | a normalised path is absolute, at least two and less than 128 characters long, and free of NUL |
| Tar.ParseTarImage | src/mm/initrd.c:244-294 | the header loop ends and fills the table with the specification's entries, or returns its error |
| TarArchive.ParseSafe | src/mm/initrd.c:244-294 | on arbitrary bytes every recorded file lies inside the image behind a header of its own, disjoint from the others and in order, at most 32, under paths that fit |
| TarArchive.OctalOfDigits | src/mm/initrd.c:98-129 | eleven octal digits and a terminator read back as the number they encode |
| TarArchive.PathSurvives | src/mm/initrd.c:167-220 | an encoded prefix and name normalise to the member's full path |
| TarArchive.RoundTrip | src/mm/initrd.c:244-294 | parsing a ustar archive (IEEE Std 1003.1, pax utility, ustar Interchange Format) with 1 to 32 regular files yields the same paths, sizes and bytes in order |
| TarArchive.ArchiveOutcome | src/mm/initrd.c:227-293 | parsing an encoded archive succeeds exactly with 1 to 32 regular files, and fails as NOENT without and as NOMEM with more |
| Directory.Find | src/mm/initrd.c:348-371 | finds the first file of exactly this path, and fails exactly when there is none |
| Directory.StatPath | src/mm/initrd.c:373-484 | the two loops compute the specification's stat |
| Directory.StatExact | src/mm/initrd.c:373-484 | stat of any path: refused if empty or relative, a directory for the root, else for the path without trailing slashes the first file of exactly that path, or a directory if some file goes on below it, or NOENT |
| Directory.AddDirent | src/mm/initrd.c:403-444 | the buffer gets the name once, a directory overriding a file, with the specification's errors |
| Directory.ListDir | src/mm/initrd.c:486-562 | the loop fills the buffer with the specification's listing, errors included |
| Directory.ListingMeaning | src/mm/initrd.c:517-558 | a successful listing names each child exactly once, as a directory exactly if some file lies under it and otherwise with the first match's size |
| Directory.ListingGoodIff | src/mm/initrd.c:403-558 | a listing succeeds exactly if every first component below the directory is nonempty and shorter than 64 bytes and there are no more different ones than the buffer holds |
| Directory.ListOfGoodIff | src/mm/initrd.c:486-562 | the call succeeds exactly if, besides, the path names a directory and the buffer is not empty; otherwise its error for arguments, missing path and file |
| Directory.StatAgreesIff | src/mm/initrd.c:446-484 | stat agrees with a listed file always, and with a listed directory exactly if no file has its path and some path goes on below it |
| Directory.ListingAgreesWithStat | src/mm/initrd.c:446-562 | in a table without trailing slashes and without a path above another, stat of every listed child gives the listed type and size |
| Directory.StatCanDisagree | src/mm/initrd.c:467-482 | with files /a and /a/a the listing says directory and stat says file |
| Directory.StatCanMiss | src/mm/initrd.c:446-484 | with the file /a/ the listing says directory and stat of /a finds nothing |

## Left out

- Assembly and hardware entry, MSR, GDT, IDT, PIT and PIC code: a context switch is a change of the current thread, user execution any permitted step.
- Timer preemption inside kernel code: every operation is one atomic step.
- Pixels, glyphs, colours and `scdk_fb_text_set_cursor`: the console model is the cell grid, the history and the view, from a clear on.
- Line numbers of the text console are unbounded; the kernel's are 64 bits wide.
- `usermode.c`, `loader.c`, `task.c`, `syscall_dispatch.c`, `endpoint.c`, the vfs, proc, session, tty and devmgr services: routing and sequencing around the modelled checks, which would only add easy members.
- `grant.c`: kernel-pointer grants share an object type with user grants under another payload layout; only grants made by `scdk_user_grant_create` are modelled.
- The choice of the initrd module, the initialised flags of the page-table, heap, initrd and scheduler modules, statistics, logging and selftests.
- Address spaces are modelled on values, over the specification of the page tables: the record on the kernel heap is an entry of a sequence, not an object updated in place.
- Owner core, flags and lifetime fields of objects, address spaces and grants: nothing reads them.
- Object payload pointers are slot indices of the subsystem's own table; a ring token is taken to lead to the ring it names.
- Huge pages are not created by this kernel; a present large-page entry is an obstacle that walks report as busy.
- The bytes inside heap allocations: headers are kept apart from payloads, so a caller that writes outside its allocation is not modelled.
- KernelHeap.Allocator.Kfree: takes headers to be written by the heap alone, because the kernel trusts a magic number that a caller's payload bytes could imitate; any pointer is accepted.
- KernelHeap.Allocator.constructor: starts from an empty committed range; the first extension made by `scdk_heap_init` is one more call of HeapExtend.
- GrantTable.UserGrantTable.CopyFrom: reads through whichever root is active, as the kernel does; it does not claim to read the source task's space.
- PhysicalPages.InitConserves: takes the memory map's usable entries to lie below 2^52, and apart from each other and from reserved ones, one of them to hold a whole page, and no entry to begin inside the last page of the 64-bit space.
- Scheduling.Create: the task check and the making of the thread's object, kernel stack and token are taken to succeed; when one of them fails the slot stays vacant.
- Scheduling.RunTerminates: takes what each thread, created or still to be created, does as given and finite, no token to be revoked, and no nested `scdk_scheduler_run`.
- RingPipeline.ProcessRing: takes the outcome of copying and writing each descriptor as a function of its position and contents.
- UserRings.UserRingTable.SubmitBatch: takes the endpoint to be the console service.
- UserRings.PolledReadBack: takes the fields of the completion to be 64-bit words, which in the kernel they are.
- Scheduler.RunQueueScheduler.RevokeToken: the scheduler sees the capability table as the set of tokens it accepts; the generation step behind a revocation is CapTable.KernelTables.RevokeCap.
- Mapped data pages are never pages in use as tables: `scdk_address_space_map` accepts any physical page, so this is up to its callers, and no theorem speaks of what stores through such a mapping would do to the tables. For the kernel heap's own pages it is proved.
