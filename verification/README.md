# Rhubarb: a verified model of its core

Rhubarb is a small x86-64 operating system.  This project models, in Dafny, the parts of it
whose correctness is hard to see from the code, and proves what they promise over all inputs,
all runs and all interleavings.

`dafny verify dfyconfig.toml` checks everything.

Each component has a specification on values (functions and lemmas about them) and, where the
source updates things in place, classes and loops that are proved equal to the specification.

| component | modules |
|---|---|
| linked-list first-fit heap | `HoleList`, `HoleWords`, `HeapRuns`, `HeapMemory` |
| four-level page tables | `VirtualMemory`, `PageTable`, `PageRights`, `PageRuns`, `Paging` |
| physical frames and address spaces | `FrameView`, `FrameAllocator`, `Ownership`, `Ledger`, `AddressSpaces`, `SpaceRuns`, `SpaceObjects` |
| kernel mappings and process heaps | `KernelMapping`, `KernelTables` |
| split virtqueue and input device | `Virtqueue`, `VirtqueueBlocks`, `VirtqueueRuns`, `VirtqueueDriver` |
| scheduler and shell protocol | `ShellRing`, `Scheduler`, `ShellProtocol`, `SchedulerRuns`, `ProcessState`, `KernelScheduler` |
| object loader | `LoaderLayout`, `LoaderPasses`, `LoaderSections`, `LoaderLinking`, `LinkedObjects`, `ObjectLoader` |
| PCI enumeration | `PciDevices` |

`Alignment`, `Sequences` and `Options` hold arithmetic, collections and optional results that
several components use.

## Conventions

Memory is explicit: heap nodes live in a map from addresses to words, page tables in a map from
frames to 512 entries, so that aliasing and framing are proved.  Integers are unbounded, and
the places where the source's width shows are written out: the 64-bit wrap of `split_hole`, the
16-bit ring indices of the virtqueue, the 64-bit wrap of relocations.  A panic of the source is
an explicit outcome.  Input from outside (which frames the firmware frees, what the device
writes, whether a mapping is granted, which objects exist) is a parameter of each step, so that
the theorems hold for all of it.

## Where the code departs from what one would expect

The model follows the code.  These departures are lemmas:

- A heap request whose end wraps past 2^64 is accepted by a hole that is too small, because the
  comparison wraps in a release build (`HoleWords.SplitWrapsIff`, `HoleWords.AllocatedWrapsIff`).
- A heap smaller than a node is accepted and never serves a request
  (`HeapRuns.SmallRegionServesNothing`).
- `map_to` reports `PageAlreadyMapped` with the frame that was asked for, so the check in
  `map_pages` always takes an occupied page for a repeated mapping and passes over it
  (`AddressSpaces.AddressSpace.MapPages`).
- `map_to` widens a huge entry before it reports the huge page (`PageRuns.HugeMapStaysIff`).
- A heap that is followed directly by another kernel mapping cannot grow
  (`KernelMapping.NeighbourBlocksForever`).
- On a fault in a mapped heap page the assertion meant for it passes if the subtraction wraps, and
  a checked addition panics instead (`KernelMapping.FaultPanicsIff`).
- `pop` follows links to a zero, not to the last NEXT flag, which is right for one chain length
  only (`VirtqueueRuns.MixedLengthsOverrun`), and its emptiness test is right for 65,536 pops
  only (`VirtqueueRuns.PopRightIff`).
- A ninth unread request to the shell replaces the first (`ShellProtocol.NinthRequestPanics`),
  and so does a ninth message to the kernel (`ShellProtocol.NinthAnswerPanicsIff`).
- The two loader passes part on writable code, a writable empty `.text` and TLS data of an odd
  type (`LoaderPasses.WritableCodeOverruns`, `LoaderPasses.OddTextOverruns`,
  `LoaderPasses.OddTlsOverruns`), and an empty section at the very end of a mapping trips a strict
  assertion (`LoaderLayout.StepPanicsIff`, `LoaderPasses.EmptyAtEndPanics`).
- A start message for an object that cannot be loaded panics the kernel
  (`ShellProtocol.FailedStartPanics`).
- A symbol defined by two objects changes its address when the second is loaded
  (`LinkedObjects.SecondDefinerWins`, `LinkedObjects.SymbolMovesIff`).
- An object whose load fails stays registered (`LinkedObjects.FailedLoadStaysRegistered`).
- The comment on the PCI iterator puts function 0 last; the code yields it first
  (`PciDevices.DocumentedOrder`).

## Model

| member | source | states |
|---|---|---|
| `HoleList.CanonicalUnique` | crates/heap/src/llff.rs:82-146 | a hole list in canonical form (sorted, apart, 8-aligned, at least 16 bytes) is determined by the bytes it covers |
| `HoleList.SplitHoleTiles` | crates/heap/src/llff.rs:166-217 | front padding, block and back padding of a split tile the hole exactly; each padding is a legal hole and the block is aligned |
| `HoleList.SplitHoleComplete` | crates/heap/src/llff.rs:166-217 | if any legal placement exists in a hole the split succeeds, at the lowest legal address |
| `HoleList.AllocatedLowest` | crates/heap/src/llff.rs:222-269 | first fit fails exactly when no legal address exists in any hole, and otherwise returns the lowest one |
| `HoleList.AllocatedExact` | crates/heap/src/llff.rs:222-269 | allocation removes exactly the bytes of the block from the holes, keeps canonical form, and conserves the total |
| `HoleList.AlignLayout` | crates/heap/src/llff.rs:130-139 | a request is rounded to the least multiple of 8 that is at least 16 and at least its size |
| `HoleList.ReleasedExact` | crates/heap/src/llff.rs:271-356 | freeing adds exactly the bytes of the block, merging on either side into canonical form, and conserves the total |
| `HoleWords.SplitWrapsIff` | crates/heap/src/llff.rs:166-217 | over all holes and layouts, a split in wrapping 64-bit arithmetic equals the unbounded one exactly unless the end of the block wraps round and lands at or below the end of the hole |
| `HoleWords.AllocatedWrapsIff` | crates/heap/src/llff.rs:222-269 | first fit in wrapping 64-bit arithmetic gives the block and the list of the unbounded one exactly if no hole before the first fit wraps |
| `HoleWords.OversizedRequestAccepted` | crates/heap/src/llff.rs:180-190 | an input on which the wrapped comparison accepts a request larger than the hole |
| `HoleWords.OveralignedRequestAccepted` | crates/heap/src/llff.rs:166-190 | an input whose aligned address already lies behind the hole and is accepted all the same |
| `HeapRuns.StepInv` | crates/heap/src/llff.rs:63-75 | every allocation and every free of a live block keeps: holes and live blocks tile the region, nothing is owned twice, `used` is the total of the live blocks |
| `HeapRuns.RunInv` | crates/heap/src/llff.rs:63-75 | the same over every run |
| `HeapRuns.RequestServed` | crates/heap/src/llff.rs:63-71 | for any request: the block has the least size that will do, at the lowest address with room for it, and the request fails exactly if there is no such address |
| `HeapRuns.HolesFromLive` | crates/heap/src/llff.rs:82-127 | the hole list is a function of the bytes of the live blocks alone, whatever the history |
| `HeapRuns.FreeUndoesAlloc` | crates/heap/src/llff.rs:63-75 | freeing the block just allocated restores the identical state |
| `HeapRuns.FreesCommute` | crates/heap/src/llff.rs:73-75 | two frees give one state in either order |
| `HeapRuns.DrainedIsInitial` | crates/heap/src/llff.rs:56-75 | after any run that leaves nothing live the state is the initial single hole |
| `HeapRuns.SmallRegionServesNothing` | crates/heap/src/llff.rs:92-105 | a region too small for a node stays one hole that no request ever fits, over every run |
| `HeapRuns.FreedAddressIsCovered` | crates/heap/src/llff.rs:271-300 | a freed address lies in a hole afterwards and did not before, which is what the double-free assertion tests |
| `HeapMemory.Heap.constructor` | crates/heap/src/llff.rs:92-106 | the list in memory is one node over the aligned region, of size zero where alignment uses the region up; it is a proper hole list exactly if a node fits in the region |
| `HeapMemory.Heap.SplitFirstFit` | crates/heap/src/llff.rs:222-269 | the walk over linked nodes returns the block of the specification and relinks its leftovers; only words inside holes are written |
| `HeapMemory.Heap.AllocateFirstFit` | crates/heap/src/llff.rs:63-71 | in place, state equal to the specification step; the answer is the lowest place for a block of the least size, and none exactly if there is none |
| `HeapMemory.Heap.Release` | crates/heap/src/llff.rs:271-356 | the merging loop terminates, its result in memory is the merged list, and it refuses exactly addresses inside a hole |
| `HeapMemory.Heap.Deallocate` | crates/heap/src/llff.rs:73-75 | in place, a free of a live block equals the specification step; a second free is refused and changes nothing |
| `HeapMemory.LiveWordsKept` | crates/heap/src/llff.rs:222-356 | no call writes a word of a block that stays live |
| `VirtualMemory.IndicesOfFromIndices` | crates/memory-types/src/virtual_memory.rs:170-193 | the four indices of an address assembled from indices are those indices |
| `VirtualMemory.FromIndicesOfIndices` | crates/memory-types/src/virtual_memory.rs:260-277 | assembling the indices of a page gives the page back exactly if it is canonical |
| `VirtualMemory.IndicesInjective` | crates/memory-types/src/virtual_memory.rs:260-277 | different canonical pages differ in an index |
| `PageTable.NextTableKeeps` | crates/memory-types/src/paging.rs:371-405 | one step down keeps the table tree valid in each of its cases and reports which frames it took |
| `PageTable.NextTableLookups` | crates/memory-types/src/paging.rs:371-405 | one step down changes no translation |
| `PageTable.DescendKeeps` | crates/memory-types/src/paging.rs:343-365 | the descent to the last table keeps validity and every translation, also when it stops part way |
| `PageTable.MapToRefines` | crates/memory-types/src/paging.rs:343-369 | a successful `map_to` changes the translation of its page only, to the frame and flags given; every error, and the panic on a huge-page flag, changes no translation even where tables were created |
| `PageRights.EffectiveIsLeaf` | crates/memory-types/src/paging.rs:371-405 | where ancestors grant at least the rights of the leaves below, the rights combined over four levels are the leaf flags |
| `PageRights.MapToRights` | crates/memory-types/src/paging.rs:343-405 | `map_to` keeps that ancestors grant at least their leaves and never forbid execution |
| `PageRuns.SetPageFlagsExact` | crates/memory-types/src/paging.rs:287-341 | changing one page keeps its frame, sets its flags, and leaves every other page alone |
| `PageRuns.SetFlagsExact` | crates/memory-types/src/paging.rs:287-341 | over a range: the pages reached get the flags where they are mapped, all others keep their translation, and the loop stops early only for want of a frame |
| `PageRuns.StepRefines` | crates/memory-types/src/paging.rs:287-369 | one `map_to` or `set_flags` does to the flat map what its specification does |
| `PageRuns.RunRefines` | crates/memory-types/src/paging.rs:287-425 | over every run, with allocations failing at any point and working again later, the four-level table refines a flat map from page to frame and flags, with effective rights equal to the flags |
| `PageRuns.ClearedRoot` | crates/memory-types/src/paging.rs:53-58 | a cleared root satisfies every invariant and maps nothing |
| `PageRuns.HugeMapStaysIff` | crates/memory-types/src/paging.rs:343-405 | a `map_to` that runs into a huge page is without effect exactly if every entry on the way, the huge one included, granted the rights before |
| `FrameView.AllocateLowest` | kernel/src/memory.rs:444-476 | the hinted search returns the lowest free frame of all, and out of memory exactly when none is free |
| `FrameView.SearchExact` | kernel/src/memory.rs:444-476 | wherever the search starts and whatever the bitmap, it finds the lowest free frame from there on, or else the lowest of all, and none exactly if none is free |
| `FrameView.DeallocateInv` | kernel/src/memory.rs:478-498 | a deallocation frees exactly its frame, is an error exactly behind the bitmap, and keeps the free count and the hint exact |
| `FrameView.DeallocateUndoes` | kernel/src/memory.rs:444-498 | giving back the frame just allocated restores which frames are free |
| `FrameView.ReserveExact` | kernel/src/memory.rs:407-421 | reserving marks exactly the range, clipped to the bitmap |
| `FrameView.InitCountExact` | kernel/src/memory.rs:373-405 | the counter left by `init` is exact if and only if no frame was freed twice |
| `FrameView.DisjointNoRepeats` | kernel/src/memory.rs:373-405 | disjoint regions free no frame twice |
| `FrameView.InitInv` | kernel/src/memory.rs:373-405 | after `init` on disjoint regions a frame is free exactly if it lies entirely in a free region, and the invariant holds |
| `FrameView.FreedIff` | kernel/src/memory.rs:373-405 | for any regions, exactly the frames of the bitmap that lie entirely in a free region are freed |
| `FrameView.RunInv` | kernel/src/memory.rs:407-498 | over every run of reserving, allocating and deallocating the counter and the hint stay exact, and the next allocation is the lowest free frame or fails exactly if there is none |
| `FrameAllocator.FrameAllocator.Init` | kernel/src/memory.rs:373-405 | the bitmap in place after `init` is the specified one |
| `FrameAllocator.FrameAllocator.Find` | kernel/src/memory.rs:444-476 | the word-wise search finds the frame of the specification |
| `FrameAllocator.FrameAllocator.Allocate` | kernel/src/memory.rs:444-476 | in place, equal to the specification |
| `FrameAllocator.FrameAllocator.Deallocate` | kernel/src/memory.rs:478-498 | in place, equal to the specification, including its error |
| `FrameAllocator.FrameAllocator.ReserveRange` | kernel/src/memory.rs:407-421 | in place, equal to the specification |
| `Ownership.MapToOwns` | crates/memory-types/src/paging.rs:343-405 | whatever `map_to` answers, tables and data frames of a space all come from its proxy and are pairwise distinct, so pages map injectively |
| `Ledger.RunPartition` | kernel/src/memory.rs:444-498 | over every run of proxies taking and dropping, used frames are partitioned among the proxies |
| `Ledger.AllDroppedRestores` | kernel/src/memory.rs:763-776 | dropping every proxy restores the free set |
| `Paging.FrameAllocatorProxy.AllocateFrame` | kernel/src/memory.rs:750-761 | a frame is taken from the allocator and recorded |
| `Paging.FrameAllocatorProxy.Drop` | kernel/src/memory.rs:763-776 | every recorded frame is given back, none else |
| `Paging.Level4PageTable.NextTable` | crates/memory-types/src/paging.rs:371-405 | in place, equal to the specification step |
| `Paging.Level4PageTable.MapTo` | crates/memory-types/src/paging.rs:343-369 | in place, equal to the specification; frames taken are recorded by the proxy |
| `Paging.Level4PageTable.SetFlags` | crates/memory-types/src/paging.rs:287-341 | in place: the pages reached get the flags where mapped, every page keeps its frame, exactly the frames taken become tables and used, and other memory is as before |
| `Paging.Level4PageTable.TranslatePage` | crates/memory-types/src/paging.rs:412-425 | the walk in memory gives the translation |
| `AddressSpaces.AddressSpace.constructor` | kernel/src/memory.rs:558-605 | a new space takes the frame the allocator returns as its cleared root, owns that frame alone and maps nothing |
| `AddressSpaces.AddressSpace.MapPages` | kernel/src/memory.rs:629-664 | fresh pages get distinct frames of the space; a page already mapped is passed over without an error; it stops early only when no frame is free, or on a huge-page flag |
| `AddressSpaces.AddressSpace.MapPage` | kernel/src/memory.rs:638-656 | one page: a frame from the allocator, then `map_to` with what the allocator returns next, or no change where no frame is free |
| `AddressSpaces.AddressSpace.MapPagesBeside` | kernel/src/memory.rs:629-664 | mapping in one space leaves all other spaces, their frames and their translations alone |
| `AddressSpaces.AddressSpace.SetFlags` | kernel/src/memory.rs:684-695 | the range is reflagged in place, the space keeps owning all it uses, and it stops early only for want of a frame |
| `AddressSpaces.AddressSpace.SetFlagsBeside` | kernel/src/memory.rs:684-695 | a protection change in one space leaves all other spaces alone |
| `AddressSpaces.AddressSpace.CreateBeside` | kernel/src/memory.rs:558-605 | a space created beside others shares no frame with them and leaves their tables and translations alone |
| `AddressSpaces.AddressSpace.Drop` | kernel/src/memory.rs:763-776 | a frame is used afterwards exactly if it was and the space did not own it |
| `AddressSpaces.AddressSpace.DropBeside` | kernel/src/memory.rs:734-776 | dropping one space leaves all other spaces sound, with their frames still marked used |
| `AddressSpaces.DropRestores` | kernel/src/memory.rs:763-776 | dropping a space puts its frames back as they were before it took them and no others, so the bitmap is as before exactly if the others left the rest as before |
| `SpaceRuns.EventKeeps` | kernel/src/memory.rs:544-776 | any creation, any page of a mapping or protection change, and any drop, done by `map_to`, `set_flags` and the allocator as specified, keeps every space sound, the used frames partitioned among them, and the translations of all other spaces |
| `SpaceRuns.BehaviourInv` | kernel/src/memory.rs:544-776 | the same over every behaviour of any number of spaces, page operations interleaved at will |
| `SpaceRuns.NeverShared` | kernel/src/memory.rs:544-776 | in every reachable state no two pages, of one space or of two, lead to one frame, and no page leads to a page table of any space |
| `SpaceRuns.Undisturbed` | kernel/src/memory.rs:544-776 | a space keeps its frames and all translations over every behaviour of the others |
| `SpaceRuns.EachAlone` | kernel/src/memory.rs:544-776 | over every behaviour the translations of a space are those of a flat map to which its own operations alone were applied |
| `SpaceRuns.AllDroppedRestores` | kernel/src/memory.rs:763-776 | once every space is dropped, the free frames and their count are those before the first |
| `SpaceObjects.Create` | kernel/src/memory.rs:558-605 | creating an object beside others is an event of the world they make up, and keeps its invariant |
| `SpaceObjects.MapPage` | kernel/src/memory.rs:638-656 | one page of `map_pages` on an object is such an event, or changes nothing where no frame is free |
| `SpaceObjects.SetFlags` | crates/memory-types/src/paging.rs:287-341 | one page of `set_flags` on an object is such an event |
| `SpaceObjects.Drop` | kernel/src/memory.rs:763-776 | dropping an object is such an event |
| `KernelMapping.MapRangeExact` | kernel/src/memory.rs:629-682 | mapping a range adds pages of the range only, all of them on success, and the untracked form succeeds only on unmapped ones |
| `KernelMapping.MapRangeSucceedsIff` | kernel/src/memory.rs:629-682 | a range is mapped completely exactly if each page is free and has a frame, or is mapped and passed over |
| `KernelMapping.UntrackedSucceedsIff` | kernel/src/memory.rs:666-682 | extending in place works, frames permitting, exactly when the pages behind are unmapped |
| `KernelMapping.MapPairsExact` | kernel/src/memory.rs:697-719 | user pages get the frames of the kernel pages one for one |
| `KernelMapping.StepInv` | kernel/src/memory.rs:225-347 | new mappings, extensions that work and extensions that fail at any point keep the windows disjoint and below the offset |
| `KernelMapping.RunInv` | kernel/src/memory.rs:225-347 | over every run: windows disjoint and below the offset, and page `i` of a process heap has the frame of page `i` of its window |
| `KernelMapping.BootRunInv` | kernel/src/memory.rs:225-347 | the same over every run from the empty state |
| `KernelTables.LoopIsMapRange` | kernel/src/memory.rs:629-682 | the loops of `map_pages` and `map_pages_untracked` over four-level tables, with any frames and failures, do to the flat maps what the model of a range says, and succeed exactly if it does |
| `KernelTables.LoopIsMapPairs` | kernel/src/memory.rs:697-719 | the same for the loop that maps kernel pages into a process |
| `KernelMapping.FaultInv` | kernel/src/idt.rs:176-246 | a heap fault, successful or fatal, keeps the invariant |
| `KernelMapping.FaultExtendsIff` | kernel/src/idt.rs:203-206 | the assertion that there is something to extend by holds exactly for pages that are not mapped |
| `KernelMapping.FaultPanicsIff` | kernel/src/idt.rs:195-206 | with wrapping subtraction the assertion or the checked addition behind it panics exactly for a page that is mapped |
| `KernelMapping.FaultMapsPage` | kernel/src/idt.rs:195-237 | a fault survived leaves the heap reaching exactly to the faulting page |
| `KernelMapping.FaultServedIff` | kernel/src/idt.rs:195-245 | a process survives its fault exactly if there are frames and tables for all pages and the pages behind its window are unmapped (or no heap could be made at all); the new pages have the frames given, and other processes and windows are untouched |
| `KernelMapping.NewMappingIff` | kernel/src/memory.rs:237-259 | a new mapping succeeds exactly if there is a frame for each page, and has those frames behind all other windows |
| `KernelMapping.SpawnedEmpty` | kernel/src/scheduler.rs:410-470 | a new process begins without a heap, and nothing else changes |
| `KernelMapping.NeighbourBlocksHeap` | kernel/src/memory.rs:319-331 | an extension of a heap that another window follows directly fails |
| `KernelMapping.NeighbourBlocksForever` | kernel/src/memory.rs:225-347 | over every run a window that another follows directly keeps its bounds |
| `Virtqueue.GrabUndone` | drivers/virtio/src/virtio.rs:302-315 | returning the descriptors taken so far restores the table: a failed push leaves no trace |
| `Virtqueue.PushedChain` | drivers/virtio/src/virtio.rs:295-370 | for any queue and any messages, the device finds the chain in the ring and reads it message by message, each buffer with the data, length and direction of its message; `pop` reads it back exactly if the last descriptor taken had a zero link |
| `Virtqueue.PushFailsIff` | drivers/virtio/src/virtio.rs:302-315 | a push fails exactly if fewer descriptors are available than messages, and then changes nothing |
| `VirtqueueBlocks.GrabLowestBlock` | drivers/virtio/src/virtio.rs:425-438 | with one chain length, a push takes the lowest aligned block of consecutive descriptors, or too few |
| `VirtqueueBlocks.FirstFits` | drivers/virtio/src/virtio.rs:295-315 | a block is free exactly if fewer chains are outstanding than blocks fit |
| `VirtqueueRuns.PushRefines` | drivers/virtio/src/virtio.rs:295-370 | a push appends to the posted requests, and fails exactly when all blocks are outstanding, changing nothing |
| `VirtqueueRuns.PostedHolds` | drivers/virtio/src/virtio.rs:318-341 | the request that a push posts holds the data of its messages, and blanks where the device is to write |
| `VirtqueueRuns.PopRefines` | drivers/virtio/src/virtio.rs:372-423 | a pop returns the buffers of the oldest completion in message order, never overruns its output, and frees its block |
| `VirtqueueRuns.FetchRefines` | drivers/virtio/src/virtio.rs:353-367 | the device sees every posted chain, in order: no unread slot of the available ring is overwritten |
| `VirtqueueRuns.CompleteRefines` | drivers/virtio/src/virtio.rs:372-389 | a completion of any request in flight, in any order, reaches the used ring unharmed and changes only buffers the device may write |
| `VirtqueueRuns.RunRefines` | drivers/virtio/src/virtio.rs:295-438 | over every interleaving of driver and device that stays in time (at each pop fewer than 65,536 requests were handed out, or a completion waits), the driver sees what three lists of requests say |
| `VirtqueueRuns.RunRefinesIff` | drivers/virtio/src/virtio.rs:295-438 | the driver sees what the lists say exactly if the run stays in time |
| `VirtqueueRuns.FewPushesInTime` | drivers/virtio/src/virtio.rs:295-438 | every run with fewer than 65,536 accepted pushes is in time, however often the driver polls |
| `VirtqueueRuns.NewQueueRel` | drivers/virtio/src/virtio.rs:132-178 | a new queue represents no requests |
| `VirtqueueRuns.Partition` | drivers/virtio/src/virtio.rs:295-438 | available descriptors and outstanding chains partition the table; available index minus pop index counts the chains |
| `VirtqueueRuns.PopRightIff` | drivers/virtio/src/virtio.rs:373-377 | `pop` answers as the lists say exactly while fewer than 65,536 chains were popped or a completion waits |
| `VirtqueueRuns.RepostFits` | drivers/virtio/src/virtio_input.rs:37-49 | after a pop that returned something a push succeeds, whatever the device does in between |
| `VirtqueueRuns.DeviceKeepsCount` | drivers/virtio/src/virtio.rs:372-389 | no step of the device changes the number of outstanding requests or takes back a completion |
| `VirtqueueRuns.MixedLengthsOverrun` | drivers/virtio/src/virtio.rs:343-346 | once a longer chain has come back, a chain of one from the same descriptor makes `pop` overrun |
| `VirtqueueDriver.DriverQueue.constructor` | drivers/virtio/src/virtio.rs:132-178 | in place, the new queue |
| `VirtqueueDriver.DriverQueue.Push` | drivers/virtio/src/virtio.rs:295-370 | in place, equal to the specification, including the failing push |
| `VirtqueueDriver.DriverQueue.Pop` | drivers/virtio/src/virtio.rs:372-423 | in place, equal to the specification, and panics exactly where it does |
| `VirtqueueDriver.InputDevice.constructor` | drivers/virtio/src/virtio_input.rs:24-35 | the fill loop ends with every buffer posted |
| `VirtqueueDriver.InputDevice.Poll` | drivers/virtio/src/virtio_input.rs:37-52 | while the device works between any two queue operations, the events returned are those of the specified poll, and every repost succeeds |
| `VirtqueueDriver.PollDrains` | drivers/virtio/src/virtio_input.rs:37-52 | every event complete at the start comes out first and in order, none is complete at the end, and as many buffers are outstanding as before |
| `ShellRing.PushHolds` | crates/process/src/process.rs:170-176 | a push into a ring with room appends |
| `ShellRing.PushFull` | crates/process/src/process.rs:170-176 | a push into a full ring puts the newest message in the place of the oldest, at the front |
| `ShellRing.PushAppendsIff` | crates/process/src/process.rs:170-176 | a pushed message is delivered last exactly if the ring was not full |
| `ShellRing.FullPushNoQueue` | crates/process/src/process.rs:170-176 | after a push into a full ring the slots no longer hold a queue |
| `ShellRing.PopHolds` | crates/process/src/process.rs:178-188 | a pop delivers the oldest message |
| `ShellRing.SizedQueue.Push` | crates/process/src/process.rs:170-176 | in place, equal to the specification |
| `ShellRing.SizedQueue.Pop` | crates/process/src/process.rs:178-188 | in place, equal to the specification |
| `Scheduler.PreemptPlaced` | kernel/src/scheduler.rs:311-317 | preemption moves the process from current to the end of its queue and nothing else |
| `Scheduler.BlockPlaced` | kernel/src/scheduler.rs:321-341 | blocking moves the process from current to the blocked list |
| `Scheduler.HandlePlaced` | kernel/src/scheduler.rs:222-264 | each message from the shell keeps every process in exactly one place |
| `Scheduler.PickPlaced` | kernel/src/scheduler.rs:270-283 | there is always a process to dispatch |
| `Scheduler.DispatchPlaced` | kernel/src/scheduler.rs:266-290 | after dispatching exactly the current process has no saved registers |
| `ShellProtocol.PollSafe` | kernel/src/scheduler.rs:206-264 | the id assertion and the demand for a blocked process never fail, and a start panics only if its process cannot be started |
| `ShellProtocol.StepSafe` | kernel/src/scheduler.rs:199-341 | no step of kernel or shell with room in the ring it writes to, and a process to start that can be started, panics, and the blocked ids remain, in order, the pending answers, the request held, and the pending requests |
| `ShellProtocol.StepKeepsOrderIff` | kernel/src/scheduler.rs:199-341 | a step that can happen goes through and keeps that order exactly if the ring it writes to is not full and the process it is to start can be started |
| `ShellProtocol.FailedStartPanics` | kernel/src/scheduler.rs:410-446 | a pending start whose object, entry point or stack cannot be had stops the kernel at the next interrupt |
| `ShellProtocol.FewWaitingFit` | crates/process/src/process.rs:166-188 | no ring is full while blocked processes and pending starts are fewer than eight |
| `ShellProtocol.ShellSafe` | shell/src/shell.rs:216-232 | taking a request, answering it and starting a process keep that order and overwrite nothing |
| `ShellProtocol.NinthRequestPanics` | kernel/src/scheduler.rs:321-341 | with eight requests unread a ninth is delivered first and its answer trips the id assertion |
| `ShellProtocol.NinthAnswerPanicsIff` | kernel/src/scheduler.rs:206-252 | with eight messages to the kernel unread an answer is handled first, and trips the id assertion exactly if another answer was pending |
| `SchedulerRuns.RunSafe` | kernel/src/scheduler.rs:199-341 | the same over every run that writes to no full ring and starts only what can be started: each process in one place, idle always there, only the running process unsaved, order of answers kept, no panic |
| `Scheduler.BootSaved` | kernel/src/main.rs:84-92 | boot hands over a kernel exactly if the shell can be started; it has shell and idle in their places, saved |
| `SchedulerRuns.BootSafe` | kernel/src/scheduler.rs:68-71 | from that kernel the first dispatch succeeds and establishes the invariant |
| `SchedulerRuns.BootRunSafe` | kernel/src/scheduler.rs:68-341 | every run from boot that writes to no full ring and starts only what can be started keeps the invariant |
| `SchedulerRuns.QueueStep` | kernel/src/scheduler.rs:199-204 | only a pick removes a process from the queue, only the front one, and arrivals go behind |
| `SchedulerRuns.BoundedWaiting` | kernel/src/scheduler.rs:199-283 | a normal process with `i` ahead of it is the one picked `i` picks later, whatever arrives, blocks or is unblocked |
| `SchedulerRuns.IdleOnlyAlone` | kernel/src/scheduler.rs:270-276 | the idle process is picked only when no normal process is ready |
| `ProcessState.StepConserves` | kernel/src/scheduler.rs:206-341 | a step removes a process only by its exit or a refused mapping, and adds one only by a start |
| `ProcessState.StepRegisters` | kernel/src/scheduler.rs:254-309 | no step of the kernel, the shell or another process changes the registers or the FPU state of a process, except the result of a translation |
| `ProcessState.BornRegisters` | kernel/src/scheduler.rs:410-470 | a started process has the next identifier, its entry registers, a fresh FPU state, normal priority, and must ask for access |
| `ProcessState.StepKind` | kernel/src/scheduler.rs:206-341 | no step changes the priority or the access policy of a process that stays |
| `ProcessState.ExitRemoves` | kernel/src/scheduler.rs:222-229 | an exit message ends the process blocked first, and panics exactly if none is |
| `ProcessState.RunRegisters` | kernel/src/scheduler.rs:254-309 | however long it is stopped, a process resumes with the registers and FPU state it was stopped with |
| `ProcessState.RegistersUnique` | kernel/src/scheduler.rs:131-136 | a process has one set of registers |
| `KernelScheduler.KernelScheduler.StoreContext` | kernel/src/scheduler.rs:293-307 | in place, equal to the specification |
| `KernelScheduler.KernelScheduler.Preempt` | kernel/src/scheduler.rs:311-317 | in place, equal to the specification |
| `KernelScheduler.KernelScheduler.Block` | kernel/src/scheduler.rs:321-341 | in place, equal to the specification |
| `KernelScheduler.KernelScheduler.HandleShell` | kernel/src/scheduler.rs:206-264 | in place, equal to the specification, and fails exactly where it panics, a start that cannot be carried out included |
| `KernelScheduler.KernelScheduler.Resume` | kernel/src/scheduler.rs:266-290 | in place, equal to the specification |
| `KernelScheduler.KernelScheduler.constructor` | kernel/src/main.rs:84-92 | in place, the kernel of boot |
| `KernelScheduler.KernelScheduler.ScheduleNext` | kernel/src/scheduler.rs:206-290 | in place, a message is handled and a process dispatched as specified, and fails exactly where that panics |
| `KernelScheduler.KernelScheduler.Interrupt` | kernel/src/scheduler.rs:206-341 | in place, a whole interrupt is one step of the machine, and gives no result exactly where the step panics |
| `KernelScheduler.KernelScheduler.InterruptSafely` | kernel/src/scheduler.rs:206-341 | under the invariant, with room in its ring and only possible starts, an interrupt never panics and keeps the invariant |
| `LoaderLayout.AllocateSectionMappings` | kernel/src/loader.rs:1385-1437 | the measuring loop computes the specified lengths |
| `LoaderLayout.LoadedLayout` | kernel/src/loader.rs:776-1140 | whenever loading succeeds each data section is aligned, inside the mapping measured for it, disjoint from the others, and holds its own bytes or zeros; each text section lies within the executable mapping |
| `LoaderLayout.TextMeasured` | kernel/src/loader.rs:727-742 | text sections lie within the executable mapping |
| `LoaderLayout.TextLoaded` | kernel/src/loader.rs:727-742 | after a successful load each text section is found in the executable mapping with its own bytes |
| `LoaderSections.EverySectionPlaced` | kernel/src/loader.rs:779-1140 | exactly the allocated sections with a usable name and a mapping are loaded, each once, with the content they stand for, in the mapping their flags ask for |
| `LoaderSections.NothingElseWritten` | kernel/src/loader.rs:779-1140 | bytes of the mappings that belong to no section are as they were handed out |
| `LoaderSections.LoadEndsIff` | kernel/src/loader.rs:779-1140 | for any table, a load is an error or a panic exactly if the flags, names, types and sizes of a section reached say so |
| `LoaderSections.SnugFit` | kernel/src/loader.rs:1385-1443 | where every section is placed, the second pass uses exactly the bytes the first measured |
| `LoaderSections.ExecMeasured` | kernel/src/loader.rs:1402-1430 | the executable mapping reaches exactly to the rounded end of the last code section |
| `LoaderLayout.PassesAgree` | kernel/src/loader.rs:776-1140 | for tables without writable code, odd TLS data or an odd `.text`, the second pass stays behind the first, and has panicked exactly if it came to an empty section at the very end of its mapping |
| `LoaderLayout.StepPanicsIff` | kernel/src/loader.rs:945-951 | a section makes the second pass panic exactly if it is empty and begins at the very end of its mapping |
| `LoaderLayout.NeverPanics` | kernel/src/loader.rs:776-1140 | without empty sections loading succeeds or reports an error |
| `LoaderPasses.LoadObjectSections` | kernel/src/loader.rs:776-1140 | the placing loop, in place, is the specified second pass |
| `LoaderPasses.PutInPlace` | kernel/src/loader.rs:945-959 | in place, a section is copied or zeroed at the next aligned offset and every other byte is kept |
| `LoaderPasses.WritableCodeOverruns` | kernel/src/loader.rs:1424-1443 | writable code is measured as code and placed as data: a table on which loading panics |
| `LoaderPasses.OddTextOverruns` | kernel/src/loader.rs:1402-1418 | an empty writable `.text` is measured as empty and placed as the section behind it: a table on which loading panics |
| `LoaderPasses.OddTlsOverruns` | kernel/src/loader.rs:877-906 | TLS data of a type the first pass does not count is copied by the second: a table on which loading panics |
| `LoaderPasses.EmptyAtEndPanics` | kernel/src/loader.rs:945-951 | a table with neither of these on which an empty last section makes loading panic |
| `LoaderLinking.FetchStore` | kernel/src/loader.rs:1331-1365 | a relocation window decodes little-endian to the value written |
| `LoaderLinking.StoredBytes` | kernel/src/loader.rs:1353-1368 | the eight bytes of a value are stored lowest first, and no other byte changes |
| `LoaderLinking.ApplyExact` | kernel/src/loader.rs:1331-1380 | type 1 puts S+A and type 24 puts S+A-P modulo 2^64 into the window; any other type is an error, a window behind the object a panic |
| `LoaderLinking.Load` | kernel/src/loader.rs:637-665 | loading terminates for every finite set of objects, cycles included, and registers the object before relocating it |
| `LoaderLinking.Search` | kernel/src/loader.rs:508-576 | registered objects are skipped, so the set of objects not loaded shrinks along the recursion |
| `LoaderLinking.SearchFinds` | kernel/src/loader.rs:508-576 | a symbol is found if, along its owners, every object is registered or loads, up to one that defines it |
| `LoaderLinking.SearchFound` | kernel/src/loader.rs:508-576 | a symbol found is known afterwards, at the address returned |
| `LinkedObjects.ApplyLinks` | kernel/src/loader.rs:1244-1255 | one relocation puts S+A for type 1, or S+A-P for type 24, modulo 2^64 into its window and keeps every other byte |
| `LinkedObjects.RelocateLinks` | kernel/src/loader.rs:1156-1260 | however the relocation loop ends, although other objects are loaded in the middle of it, the first relocations of the object are applied, and all of them on success; every address used is one at which a loaded object defines the symbol |
| `LinkedObjects.LoadLinks` | kernel/src/loader.rs:637-665 | however a load ends, memory loaded before is unchanged and every object brought in has its first relocations applied and its other bytes as in the file; on success all relocations of all of them; also for an object loaded again and for symbols defined twice; without reloads the objects concerned are those registered |
| `LinkedObjects.OneDefinerOneAddress` | kernel/src/loader.rs:508-576 | where one registered object defines a symbol, the address a relocation refers to is the one in the registry |
| `LinkedObjects.LoadCompletes` | kernel/src/loader.rs:637-665 | a successful load of an object not loaded before leaves every registered object completely relocated if they all were before |
| `LinkedObjects.LoadedAddresses` | kernel/src/loader.rs:637-665 | from the empty loader, after any successful loads, every window of every registered object is congruent modulo 2^64 to S+A for type 1, or S+A-P for type 24, S being the address of its own symbol, if no two objects define that symbol |
| `LinkedObjects.FailedLoadStaysRegistered` | kernel/src/loader.rs:654-662 | whatever made it fail, the object stays registered with its first relocations applied, and later references to its symbols succeed |
| `LinkedObjects.SecondDefinerWins` | kernel/src/loader.rs:508-576 | an object that defines a symbol again takes it over: later references get another address than earlier ones |
| `LinkedObjects.SymbolMovesIff` | kernel/src/loader.rs:594-606 | a load of an unregistered object, successful or not, changes the address of a known symbol exactly if an object it registers defines the symbol again |
| `ObjectLoader.Loader.LoadObject` | kernel/src/loader.rs:637-665 | in place, equal to the specification |
| `ObjectLoader.Loader.RelocateObject` | kernel/src/loader.rs:1156-1260 | in place, equal to the specification |
| `ObjectLoader.Loader.GetOrLoadSection` | kernel/src/loader.rs:508-576 | in place, equal to the specification |
| `ObjectLoader.Loader.WriteRelocation` | kernel/src/loader.rs:1331-1380 | in place, equal to the specified application; types other than 1 and 24 are errors that write nothing |
| `PciDevices.DeviceIter.Next` | drivers/pci/src/pci.rs:542-611 | each call yields the first of the remaining devices and leaves the others; at the end it stays at the end |
| `PciDevices.Enumerate` | drivers/pci/src/pci.rs:33-39 | iterating to the end collects exactly what the nested loops collect, in their order |
| `PciDevices.BusesExact` | drivers/pci/src/pci.rs:543-561 | a device is listed exactly if it is function 0 of an address that answers, or an answering function of one that has several |
| `PciDevices.BusesOrdered` | drivers/pci/src/pci.rs:543-561 | devices come in strictly ascending bus, device and function order, each once |
| `PciDevices.DocumentedOrder` | drivers/pci/src/pci.rs:543-561 | the comment lists the same devices, in the same order exactly if no further function answers |

## Left out

- KernelMapping.RunInv: the runs are over flat maps from page to frame; `KernelTables` ties each mapping loop to four-level tables, and the objects that hold the windows are not modelled in place.
- KernelMapping.StepInv: rounding of byte sizes to pages and the 1 GiB limit of a heap are not modelled; a failed `new`, which stops the kernel, is a step that changes nothing.
- HeapMemory.Heap.Deallocate: a free of an address that is neither live nor inside a hole is not modelled, because the source gives it no meaning.
- FrameAllocator.FrameAllocator.Find: a bitmap word is a sequence of 64 booleans, so the count of trailing ones is modelled by the position of the first clear bit, not by bit operations.
- HoleList.SplitHoleTiles: `align_up` is rounding up to a multiple; its mask form is not modelled.
- PageRuns.SetFlagsExact: the branches of `set_flags` for huge pages are left out, because they skip a further huge page and satisfy no range statement.
- AddressSpaces.AddressSpace.constructor: entries shared with the kernel's or a parent's root table and tables built by the firmware are left out; statements about several spaces, `SpaceRuns` included, are about private slots.
- SpaceRuns.BehaviourInv: mapping kernel pages into a space, which shares frames on purpose, is left to `KernelMapping`.
- VirtqueueRuns.RunRefines: for queue sizes that divide 65,536, as section 2.7 of VirtIO 1.3 demands, and one chain length for all pushes.
- VirtqueueDriver.InputDevice.Poll: for fewer than 65,536 events since the device was opened; beyond that the emptiness test is wrong, as `VirtqueueRuns.PopRightIff` shows.
- ShellProtocol.StepSafe: the shell sends no `ExitProcess`; killing a process from the page-fault handler is left out, because it stores a context twice and trips an assertion.
- ProcessState.RunRegisters: registers are one value and the result register, the FPU area is one value; address spaces and I/O permission of a process are left out.
- LoaderLayout.LoadedLayout: sections are given by their headers and bytes; parsing of the file, the copy of the text mapping from the file and section indices beyond 16 bits are left out.
- LinkedObjects.LoadLinks: for objects with disjoint relocation windows; an object is one range of memory instead of three mappings, and mapping it into an address space is left out.
- LoaderLinking.Search: the objects named in a symbol are a table; the scan of a symbol for crate names, demangling, the three symbol aliases and the skipping of half-precision symbols are left out.
- PciDevices.DeviceIter.Next: configuration space does not change while devices are enumerated.
- Translation of addresses that are not page-aligned, and TLB flushes.
- Spin locks and waiting on them: each locked section is one step.
- The memory tracker, logging and names: diagnostics only.
- Interrupt, segment, APIC, ACPI and port I/O set-up, the boot loader, and the external kernel heap.
- Framebuffer, fonts, geometry and the disassembler.
