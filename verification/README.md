# A verified model of the kernel's memory, scheduler, MD5 and file reading

This project models five components of the kernel in Dafny and proves what they keep.

* **Physical memory and paging.** Frames come from a free list threaded through the frames
  themselves and from the untouched tail of each region; the page tables are a tree of such
  frames; the heap is marked available by moving the break and is backed page by page on faults.
  `KernelMemory`, `PageWalk`, `HeapPaging` and `MemoryRuns` are the abstract state, its steps and
  its runs; `FrameStore` says how the state lies in the 512 words of each frame; the class `Mmu`
  updates static variables and frames in place and is proved to take exactly those steps;
  `TableWords` reads the same frames as 64-bit words, as the processor does. `PageCount` counts
  the tables a walk needs.
* **Memory regions.** `MemRegions` subtracts the ELF sections from the available entries of the
  memory map (Multiboot2 Specification, sections 3.6.8 and 3.6.7) into the region table, and
  `Boot` joins the result to the allocator: over every run after boot usable pages have exactly
  one owner and pages of the kernel's own sections have none.
* **Scheduler, keyboard ring and wakeups.** `ProcessQueues` is the circular list with its `next`
  and `prev` links; the class `Kernel` keeps all queues, `cur_proc` and `next_proc`, and refines
  the state machine of `SchedulerModel`; `SchedulerFairness` bounds how long a ready process can
  wait and shows the bound is reached; `SchedulerWakeups` shows that blocked processes are woken first
  come, first served. `RingBuffers` is the buffer with its two cursors,
  `KeyboardModel` the machine of readers and interrupt handler, `Ps2Keyboard` the same on the
  real ring and queues.
* **MD5.** `Md5Spec` is RFC 1321; `Md5` is the streaming context. Both are written for any type
  of words with the operations the algorithm uses; `UINT4`, 32-bit words, is the algorithm's own,
  and the digest theorem is stated for it. `Md5Words` says what its functions compute, bit by bit and
  as numbers; `Md5Suite` proves values of the appendix of the RFC.
* **kmalloc and ext2.** `KmallocModel` is the segregated allocator over abstract blocks and
  `Kmalloc` the pool heads, headers and overlaid free links over the page allocator above.
  The links and headers are words of the frames behind the heap pages: `HeapWords` reads and writes
  them by virtual address, and the allocator keeps what it knows of them in a ghost map that
  memory is proved to hold. `HeapUse` follows an allocation from kmalloc to kfree.
  `Ext2Layout`, `Ext2`, `Ext2Inodes` and `Ext2Files` are block numbering, block tree, inode
  tables and the read loop over a disk that is a map from sector numbers to bytes; `Ext2Reads`
  characterises what a read returns; `DriveInit` is the kernel's digest of a file.

Each mutable object of the source is a class whose methods are proved against a step function of
an abstract value; the properties are lemmas about those functions and their runs.

Addresses of frames and pages appear as page numbers wherever the source's are page aligned. An
operation that halts the machine (EXIT, or a failed assertion on a full table) has an outcome of
its own. Large invariants are quantified over a small datatype of parts, so that a proof opens
only the parts it uses.

## What the proofs show about the code

* `MMU_free_page` puts on the free list whatever frame number the entry holds, so freeing a page
  that was never touched, or freeing it twice, breaks the one-owner invariant; freeing does no
  harm exactly when the page is present (`FreePageHarmlessIffPresent`). The entry of a page never
  touched holds frame 0: the link is stored at address 0, which is not mapped, and the machine
  halts.
* So `kfree` of a dedicated run halts the machine exactly when one of its pages was never touched
  (`Allocator.Kfree`, `FreeUnused`). The kernel does this itself: `read_inode_block`
  (src/ext2.c:186-191) takes a third buffer for a triply indirect block, never writes it, and frees it,
  which with blocks of 4096 bytes always halts (`TripleBuffers`).
* `kexit_handler` picks the head of `avail_procs` without rotating, which is why a process at
  distance d can wait for 2d + 1 decisions and not d (`BoundIsTight`).
* `ext2_file_read` returns more bytes than are due for some requests; `CopiedIffFits` says for
  which. The digest printed at boot is of more than the file for such sizes (`HashesTooMuch`). It
  writes past a buffer of the size asked for exactly when more than that is left of the block the
  cursor stands in (`OverrunIff`, `OverrunsShortBuffer`); the kernel's own reads of 7000 bytes never
  do with blocks up to that size.
* The doubly and triply indirect branches of `read_inode_block` compute the right offsets but take
  the pointers of the singly and the doubly indirect block. They deliver the blocks ext2 assigns if
  and only if those hold the same bytes as the blocks of pointers that should have been followed
  (`DoubleFollowsIff`, `TripleFollowsIff`); `FarBlocksDiffer` is a volume where they do not.
* The guard `i + 63 < inputLen` of `MD5Update` stays true after the last complete block exactly when
  the sum wraps, which takes more than 2^32 - 64 bytes in one update (`StopsIffCounterFits`).
* `add_region` checks the table before it looks whether the aligned range is empty, so with 16
  regions the machine halts at the next gap even when that holds no whole page
  (`BuildMemRegions`).
* `build_mem_regions` ignores a null section only where the skip loop of an entry passes it; one
  after the first section that is not null and ends beyond the start of the entry is subtracted
  like any other. `ListedIffUsable` says which pages are left, `NullsIgnoredIff` when null sections
  do no harm; `NullSubtracted` and `NullSkipped` are a table on each side. The null entry 0 of an ELF
  section table does none.

## Assumptions about callers

Memory entries ascend and are disjoint, sections ascend (null ones in front and empty ones at
address 0 aside), and no sum of an address and a length wraps. Region ends are at most 1 << 39,
where the heap begins: otherwise identity map and heap would overlap. Virtual addresses are below
2^48 and the heap does not run past them. Page counts fit the source's `int` arithmetic (fewer than
2^19 pages at once). `MMU_pf_free` is given a frame its caller holds, `kfree` an address `kmalloc`
returned and not yet freed. An `MD5Update` is given a length for which `i + 63` does not wrap
(`CounterFits`; any length up to 2^32 - 64 will do). A file and a block more fit a C `int`; blocks
are at most 7000 bytes in `DriveInit`, since a read of 7000 bytes may otherwise overrun its buffer.

## Model

| member | source | states |
|---|---|---|
| `PageTree.SplitVirtAddr` | src/page_table.c:15-26 | Four indices below 512 and an offset that together give back the address: it is offset + 4096 * (i0 + 512 * (i1 + 512 * (i2 + 512 * i3))), for every address below 2^48. |
| `PageTree.IndexDigits` | src/page_table.c:21-25 | The indices are the digits of the page number to base 512, the leaf level lowest. |
| `PageTree.SamePathIffSameSpan` | src/page_table.c:28-48 | Two pages go through the same table at a level exactly when they lie in the same aligned 2 MiB, 1 GiB or 512 GiB span. |
| `PageTree.DistinctPagesDistinctSlots` | src/page_table.c:15-48 | Two different pages below 2^48 never share a leaf slot. |
| `PageTree.LinkOverlaysEntry` | src/page_allocator.c:55-59 | A free-list link read as a page entry has exactly the bits of the link, and no other entry of 64 bits has them. |
| `TableWords.FreeWordIsPointer` | src/page_allocator.c:55-59 | The first word of each free frame in memory is the address of the next one with every flag clear, and any word of memory with those bits reads as that pointer: a stale link is never taken for a present entry. |
| `TableWords.WordsByBits` | include/page_table.h:74-82 | Every word in memory fits 64 bits, and two words are equal exactly when their bits are. |
| `TableWords.ProcessorAgrees` | src/page_table.c:28-48 | The processor, walking the 64-bit words in memory from the root by the present, read/write, page-size and frame fields, reaches exactly the frame of each page that is present, and for a store writable, and faults on every other page. |
| `TableWords.HeapStores` | src/page_allocator.c:86-88 | A store to a heap page that is present reaches its frame. |
| `TableWords.FramesWritable` | src/page_table.c:60-97 | After any run of operations from boot, a store to the address of a frame that can be handed out reaches that frame, also when it is a table by then. |
| `TableWords.InnerWord` | src/page_table.c:36-41 | Every word of a table above the leaf level is 0x1000 * f + 3 for the table in frame f below it, or 0. |
| `TableWords.LeafWord` | src/page_allocator.c:28-130 | Over every run from boot, the word of page v is 0x1000 * v + 3 below the end of the last region (page 0 aside), 0 elsewhere outside the heap and beyond the break, and in the heap 0x1000 * f + 0x203 while the page is backed by frame f, and otherwise 0x200 or, once freed, 0x1000 * f + 0x202. |
| `TableWords.MarkedWords` | src/page_allocator.c:91-111 | Pages just taken from the break have the word 0x200. |
| `TableWords.BackedWord` | src/page_allocator.c:68-89 | A page a fault has backed has the word 0x1000 * f + 0x203, f being a frame that was free. |
| `TableWords.FreedWord` | src/page_allocator.c:117-123 | A page that was freed keeps 0x1000 * f + 0x202, and f heads the free list; every other word stays. |
| `PageTree.EntryFromBits` | include/page_table.h:74-82 | Each field of an entry that fits 64 bits is recovered from its word. |
| `PageTree.MappingBits` | src/page_table.c:60-64 | An identity mapping of page v, and a link to a table in frame v, is the word 0x1000 * v + 3 with every other bit clear. |
| `KernelMemory.PfAllocSound` | src/page_allocator.c:28-53 | The frame returned belonged to nobody and now belongs to the caller alone; the invariant over owners, free list and bump values is kept. |
| `KernelMemory.PfAllocTakesOne` | src/page_allocator.c:28-53 | Allocation halts exactly when no frame is left, and otherwise takes exactly one. |
| `KernelMemory.PfFreeSound` | src/page_allocator.c:55-59 | Giving back a held frame keeps one owner per frame and the order of the free list. |
| `KernelMemory.FreedFirst` | src/page_allocator.c:28-59 | The frame freed last is handed out first, and then everything is as before it was freed. |
| `KernelMemory.PfAllocOrder` | src/page_allocator.c:28-53 | While a frame is free no region is touched; otherwise the lowest frame never handed out is, and no other. |
| `PageWalk.AllocTableSound` | src/page_table.c:34-41 | A new table is a frame that was nobody's; it joins the tree without being shared with any other table, and one frame less is left. |
| `PageWalk.GrowSound` | src/page_table.c:28-48 | Walking towards a page with allocation adds exactly the tables missing on its way and keeps the tables a tree. |
| `PageWalk.GrowNeeds` | src/page_table.c:28-48 | It takes one frame for each missing table and halts exactly when fewer are left. |
| `PageWalk.GrowLeaves` | src/page_table.c:28-48 | It changes the leaf entry of no page: leaves in a new table read as empty. |
| `PageWalk.WalkLeaves` | src/page_table.c:66-73 | The callback is applied exactly once to each page of the range, and every mapping outside it is unchanged. |
| `PageWalk.WalkSound` | src/page_table.c:66-73 | A walk keeps the invariant, adds exactly the tables its pages touch, and halts exactly when there are fewer frames than tables to add. |
| `PageCount.NeededIsCount` | src/page_table.c:66-73 | The frames a walk takes are as many as the touched tables that were absent. |
| `PageCount.TouchedCount` | src/page_table.c:66-73 | The number of tables a range touches, in closed form: one per 2 MiB, 1 GiB and 512 GiB span met. |
| `PageCount.NeededBound` | src/page_table.c:66-73 | A walk of n pages never takes more than n/512 + n/512^2 + n/512^3 + 6 frames, whatever tables exist. |
| `HeapPaging.AllocPagesSound` | src/page_allocator.c:94-111 | Marking pages available keeps the invariant and halts exactly when the tables it needs outnumber the frames left. |
| `HeapPaging.PageFaultSound` | src/page_allocator.c:68-89 | A fault is survived exactly when the page was marked available and a frame is left; the page is then backed by a frame that was nobody's, and nothing else changes. |
| `HeapPaging.FreePageSound` | src/page_allocator.c:117-123 | Freeing a present heap page returns exactly the frame that backed it. |
| `HeapPaging.FreedOneMore` | src/page_allocator.c:125-130 | Page by page, MMU_free_pages unmaps exactly the pages of its range and stacks exactly their frames, in order. |
| `MemoryRuns.InitPageTableSound` | src/page_table.c:79-97 | From boot, init_page_table establishes the identity map up to the end of the last region, or halts exactly when root and tables outnumber the frames. |
| `MemoryRuns.StepKeeps` | src/page_allocator.c:28-130 | Every operation that does not halt keeps the invariant and the identity map, changes no region, and never lowers the break. |
| `MemoryRuns.RunKeeps` | src/page_allocator.c:28-130 | So does every run of any operations in any order. |
| `MemoryRuns.ExactlyOneOwner` | src/page_allocator.c:28-130 | In every reachable state each frame of each region has exactly one owner (free list, untouched tail, table, backing of one page, direct holder), and no other frame has any. |
| `MemoryRuns.HeapInjective` | src/page_allocator.c:61-130 | No two present heap pages share a frame, and none uses a table or a free frame; only pages below the break are present. |
| `MemoryRuns.TranslatesToItself` | src/page_table.c:50-97 | After init_page_table and any run of operations from boot, each address in [0x1000, end of the last region) translates to itself. |
| `MemoryRuns.FramesReachable` | src/page_table.c:60-97 | After any such run the address of every frame that can be handed out, also one in use as a table by then, translates to itself. |
| `MemoryRuns.FreeBytesAreTails` | src/page_allocator.c:18-26 | get_free_memory equals the bytes of the frames never handed out. |
| `MemoryRuns.FreePageHarmlessIffPresent` | src/page_allocator.c:117-123 | Freeing a heap page keeps the owners consistent if and only if the page is present. |
| `FrameStore.OwnerMayWrite` | src/page_allocator.c:12-14 | Whoever holds a frame may overwrite it: no table, link or entry of the abstract state is stored there. |
| `FrameStore.TableStored` | src/page_table.c:36-40 | Zeroing a recycled frame and linking it stores an empty table, whatever stale link the frame held. |
| `FrameStore.LeafWritten` | src/page_table.c:47 | Writing one leaf slot changes the mapping of that one page. |
| `FrameStore.FreePageStored` | src/page_allocator.c:117-123 | The writes of MMU_free_page store the state after freeing the page. |
| `FrameStore.KeptTwice` | src/page_allocator.c:28-130 | What two operations one after the other leave to the users of frames: every frame in use, but for those either freed, keeps its owner and its words. |
| `HeapWords.BitsFromBits` | include/page_table.h:74-82 | A 64-bit word read by the fields of an entry has its own bits again. |
| `HeapWords.WordsStay` | src/page_allocator.c:94-130 | The words of heap pages stay in memory while their pages keep their frames and these are not freed. |
| `HeapWords.WordWritten` | src/page_allocator.c:86-88 | A store to a present heap page changes that word and no other word of the heap. |
| `MemoryManager.Mmu.GetFreeMemory` | src/page_allocator.c:18-26 | The loop over the regions returns the free bytes of the abstract state. |
| `MemoryManager.Mmu.PfAlloc` | src/page_allocator.c:28-53 | The free list first, then the first region with room: the frame and the state afterwards are those of the abstract step, and it halts exactly when that does. |
| `MemoryManager.Mmu.ReturnFrame` | src/page_allocator.c:55-59 | MMU_pf_free on a frame its caller holds: the word written into the frame stores the abstract step, and the words of every other frame in use stay. |
| `MemoryManager.Mmu.Store` | src/page_allocator.c:28-59 | A holder's writes of 64-bit words to its frame change nothing of the abstract state. |
| `MemoryManager.Mmu.NewTable` | src/page_table.c:36-44 | The new table is zeroed and linked before it is followed; no word of a frame in use changes. |
| `MemoryManager.Mmu.GetEntry` | src/page_table.c:28-48 | The loop over the levels returns the slot of the page's leaf, or NULL exactly when a table is absent and none may be made; no word of a frame in use changes. |
| `MemoryManager.Mmu.SetEntry` | src/page_table.c:60-64 | A callback on the slot is the abstract change of that page's entry. |
| `MemoryManager.Mmu.ProcessorSees` | src/page_table.c:79-97 | In every valid state with the root loaded the processor's walk from cr3 gives, for loads and for stores, the page map of the abstract state. |
| `MemoryManager.Mmu.IsMapped` | src/page_table.c:28-48 | Whether the page of an address is present, read off the words in memory. |
| `MemoryManager.Mmu.VirtToPhys` | src/page_table.c:50-58 | The address returned is the translation of the abstract state, NULL exactly when a table is absent. |
| `MemoryManager.Mmu.Walk` | src/page_table.c:66-73 | The loop over the pages refines the abstract walk, halts exactly when it does, and changes no word of a frame in use. |
| `MemoryManager.Mmu.InitPageTable` | src/page_table.c:79-97 | Root, identity map and load of the table register refine the abstract step, which writes the words LeafWord gives. |
| `MemoryManager.Mmu.Sbrk` | src/page_allocator.c:62-66 | The old break is returned and the break moves up by the pages asked for. |
| `MemoryManager.Mmu.AllocPages` | src/page_allocator.c:102-111 | The pages from the old break on are marked available, none is backed, and no word of a frame in use changes. |
| `MemoryManager.Mmu.AllocPage` | src/page_allocator.c:94-100 | The same for one page, without the walk. |
| `MemoryManager.Mmu.LoadWord` | src/page_allocator.c:12-14 | A load through a pointer to a present heap page returns the word that the frame behind it holds. |
| `MemoryManager.Mmu.StoreWord` | src/page_allocator.c:12-14 | A store through a pointer to a present heap page writes that word of the frame behind it and nothing else. |
| `MemoryManager.Mmu.PageFault` | src/page_allocator.c:68-89 | The handler refines the abstract fault, halts exactly when that does, and changes no word of a frame in use. |
| `MemoryManager.Mmu.FreePage` | src/page_allocator.c:117-123 | On a heap page that is present or was never touched: it halts the machine exactly when the page is not present (the link is stored at address 0), and otherwise its frame goes to the free list, the page is no longer present, and no word of another frame in use changes. |
| `MemoryManager.Mmu.FreePages` | src/page_allocator.c:125-130 | From an address that need not be page aligned: it halts exactly when a page of the range was never touched, and otherwise exactly the pages of the range are unmapped, exactly their frames are stacked, in order, and no word of another frame in use changes. |
| `MemRegions.Align` | src/multiboot_tags.c:85-86 | The nearest page boundary at or after, or at or before, an address. |
| `MemRegions.SplitAt` | src/multiboot_tags.c:127-141 | One turn of the section loop keeps the regions sound and everything before the section covered. |
| `MemRegions.FinishEntry` | src/multiboot_tags.c:143-145 | The rest of an entry is added after its last section: its usable pages are then all covered. |
| `MemRegions.ListedClear` | src/multiboot_tags.c:97-149 | A page of a region meets no section that is not null. |
| `MemRegions.ListedIffUsable` | src/multiboot_tags.c:97-149 | The regions hold exactly the usable pages: whole inside an available entry, not page 0, and met by no section, null or not, from the first that is not null and ends after the entry begins. |
| `MemRegions.GapsAre` | src/multiboot_tags.c:97-149 | What the section loop hands to add_region for an available entry are exactly its gaps: the longest ranges from its first address other than 0 to its end that meet no section that counts for it. |
| `MemRegions.GapsAscend` | src/multiboot_tags.c:120-145 | They come in ascending order and do not overlap. |
| `MemRegions.SixteenFit` | src/multiboot_tags.c:81-95 | 16 gaps or fewer never halt the machine. |
| `MemRegions.NullsIgnoredIff` | src/multiboot_tags.c:119-124 | The regions are those that ignoring null sections would give if and only if, for each available entry, every null section is passed by its skip loop or meets only pages that another section takes. |
| `MemRegions.NullSubtracted` | src/multiboot_tags.c:127-141 | A table with a null section after a real one, in the same entry, where a page is lost. |
| `MemRegions.NullSkipped` | src/multiboot_tags.c:119-124 | A table with a null section after a real one where the skip loop passes it and nothing is lost. |
| `MemRegions.RegionTable.SkipSections` | src/multiboot_tags.c:119-124 | The skip loop stops at the first section that is not null and ends after the entry begins, or at the end. |
| `MemRegions.RegionTable.AddRegion` | src/multiboot_tags.c:81-95 | The part of the range made of whole pages is appended when there is any; it halts exactly when the table of 16 is full. |
| `MemRegions.RegionTable.SubtractAll` | src/multiboot_tags.c:126-141 | The section loop of one entry settles every section it passes and stops where none can split the rest. |
| `MemRegions.RegionTable.Subtract` | src/multiboot_tags.c:127-141 | One turn of the loop in place refines SplitAt. |
| `MemRegions.RegionTable.AddEntry` | src/multiboot_tags.c:103-147 | One available entry: skip loop, section loop and rest keep the regions sound, ascending and complete up to this entry. |
| `MemRegions.RegionTable.BuildMemRegions` | src/multiboot_tags.c:97-149 | The table ends as the whole pages of the gaps of all entries in order; the machine halts if and only if a gap comes when 16 regions are there already, whether or not it has a whole page. The regions are sound and cover every usable page. |
| `Boot.BuiltRegionsFit` | src/multiboot_tags.c:97-149 | The regions built meet what the frame allocator assumes of its regions. |
| `Boot.CoveredIffListed` | src/multiboot_tags.c:97-149 | A frame can ever be handed out exactly when its page is in a region built. |
| `Boot.UsablePageOwned` | src/multiboot_tags.c:97-149 | Over every run after boot each usable page of available memory has exactly one owner and translates to itself. |
| `Boot.SectionNeverOwned` | src/multiboot_tags.c:97-149 | Over every run after boot no page that meets a kernel section is ever owned. |
| `ProcessQueues.Spliced` | src/processes.c:51-61 | Joining the neighbours of a node leaves the other nodes in one ring, in the same order. |
| `ProcessQueues.ProcessQueue.Append` | src/processes.c:63-74 | append_proc adds the node at the tail and keeps next and prev mutually inverse over exactly the queue's nodes. |
| `ProcessQueues.ProcessQueue.Unlink` | src/processes.c:51-61 | unlink_proc removes exactly that node, wherever it stands. |
| `ProcessQueues.ProcessQueue.Cycle` | src/processes.c:41-49 | cycle_next_proc returns the head and rotates the queue by one. |
| `ProcessQueues.ProcessQueue.Untouched` | src/processes.c:41-74 | A queue none of whose nodes is written stays a ring. |
| `SchedulerModel.StepQueued` | src/processes.c:76-172 | Every step leaves the queued processes the same as a multiset, except that a creation adds one and an exit removes one. |
| `SchedulerModel.StepPicks` | src/processes.c:109-122 | A decision resumes the source only when avail_procs was left empty, and otherwise picks a process that is in it; no other step changes the running thread. |
| `SchedulerModel.StepKeepsInv` | src/processes.c:76-172 | Every step keeps each created, unexited process in exactly one queue, once, under its own pid. |
| `SchedulerModel.DrainedAll` | src/processes.c:88-92 | Unblocking head by head moves the whole queue to the tail of avail_procs in order. |
| `SchedulerFairness.RunKeepsInv` | src/processes.c:76-172 | So does every run. |
| `SchedulerFairness.StepCloser` | src/processes.c:41-49 | Every decision either picks a waiting process or strictly lowers the decisions it can still be made to wait, and no other step raises them. |
| `SchedulerFairness.DispatchedInTime` | src/processes.c:76-172 | A process waiting in avail_procs is picked within that number of decisions, whatever mix of events occurs. |
| `SchedulerFairness.BoundFromDistance` | src/processes.c:167-172 | At distance d from the head it is picked within 2d + 1 decisions. |
| `SchedulerFairness.BoundIsTight` | src/processes.c:109-122 | The bound cannot be improved: for every d the kernel reaches, by d + 2 creations and d + 2 yields from boot, a state with a process at distance d and a run of 2d decisions that never picks it. |
| `SchedulerWakeups.StepWaits` | src/processes.c:76-99 | Of a process that waits, no event raises the number of those ahead; UnblockHead wakes the first, to the tail of avail_procs, and moves the others up by one; UnblockAll appends all of them in order. |
| `SchedulerWakeups.BlocksLast` | src/processes.c:80-81 | A process that blocks waits behind all that do already. |
| `SchedulerWakeups.WokenInTime` | src/processes.c:76-99 | First come, first served: with d processes ahead of it a process is in avail_procs after d + 1 wakings of the head of its queue, over every run, whatever other processes block. |
| `SchedulerWakeups.WokenInOrder` | src/processes.c:76-99 | Of two processes on a queue the one ahead is woken first, over every run. |
| `Scheduler.Kernel.Link` | src/processes.c:63-74 | append_proc on one of the kernel's queues leaves every other queue as it was. |
| `Scheduler.Kernel.Unlink` | src/processes.c:51-61 | unlink_proc on one of the kernel's queues leaves every other queue as it was. |
| `Scheduler.Kernel.CreateKthread` | src/processes.c:140-165 | The new process gets the next pid and the tail of avail_procs: the abstract creation. |
| `Scheduler.Kernel.Reschedule` | src/processes.c:167 | next_proc is the old head, or NULL when there is none, and avail_procs is rotated. |
| `Scheduler.Kernel.Dispatch` | src/isr_handler.asm:63-106 | After an interrupt the running thread is next_proc, the source standing in when there is none. |
| `Scheduler.Kernel.Yield` | src/processes.c:169-172 | A yield refines the abstract decision, and cur_proc equals next_proc afterwards. |
| `Scheduler.Kernel.Run` | src/processes.c:124-138 | PROC_run does nothing when no process is ready, and otherwise hands over to the head. |
| `Scheduler.Kernel.Detach` | src/processes.c:80-83 | The running process leaves avail_procs for the tail of the queue it blocks on: the queue is what it was with that process appended. |
| `Scheduler.Kernel.BlockOn` | src/processes.c:76-86 | PROC_block_on is that and a yield; a NULL queue is ignored. |
| `Scheduler.Kernel.UnblockHead` | src/processes.c:94-99 | The head of a blocked queue moves to the tail of avail_procs. |
| `Scheduler.Kernel.UnblockAll` | src/processes.c:88-92 | The loop empties the queue into avail_procs in order. |
| `Scheduler.Kernel.Retire` | src/processes.c:109-114 | kexit_handler removes exactly the running process. |
| `Scheduler.Kernel.Exit` | src/processes.c:109-122 | And picks the head of avail_procs without moving it, or the source when there is none. |
| `RingBuffers.RingBuffer.ConsumerNext` | src/ring_buffer.c:22-33 | It returns and removes the oldest character, and fails exactly when the ring is empty. |
| `RingBuffers.RingBuffer.Take` | src/ring_buffer.c:42-46 | The oldest character, with the cursor wrapping. |
| `RingBuffers.RingBuffer.AddChar` | src/ring_buffer.c:50-63 | The character is appended exactly when fewer than 15 are waiting, and otherwise nothing changes. |
| `KeyboardModel.DoesKeeps` | src/ring_buffer.c:35-63 | Every atomic step of readers, interrupt handler and the rest of the kernel keeps: a process is blocked on the ring only while it is empty, and what was accepted is what was handed out followed by what waits. |
| `KeyboardModel.KeyJoins` | src/ps2.c:68-78 | A key with a character joins the ring behind the others while fewer than 15 wait, and is dropped otherwise; all blocked readers are appended to avail_procs. |
| `KeyboardModel.KeysWait` | src/ps2.c:68-78 | Any list of at most 15 characters typed before one is taken waits in the ring in the order typed. |
| `KeyboardModel.EveryReachable` | src/ps2.c:68-81 | In every state reachable from boot a process waiting for a character is ready whenever there is one, and characters are handed out in the order accepted, none lost or repeated. |
| `KeyboardModel.ReturnsNextAccepted` | src/ring_buffer.c:35-48 | ring_consumer_block_next returns only by taking the oldest accepted character not yet handed out. |
| `KeyboardModel.TryNeverStuck` | src/ring_buffer.c:35-48 | A process running inside it can always take its next step. |
| `KeyboardModel.TraceRuns` | src/ps2.c:68-81 | The scheduler's part of a keyboard run is a run of the scheduler. |
| `KeyboardModel.ServedInTime` | src/ring_buffer.c:35-48 | A process waiting while there is a character is picked within 2d + 1 scheduling decisions. |
| `Ps2Keyboard.KeyboardDriver.IrqHandler` | src/ps2.c:68-81 | On the real ring and queues the handler is the abstract step: the character is appended when it is not NUL and fewer than 15 wait, and the ring stays otherwise; then all are unblocked. |
| `Ps2Keyboard.KeyboardDriver.Enter` | src/ring_buffer.c:35-36 | The call of the blocking read is the abstract step, for a running process that is not inside it. |
| `Ps2Keyboard.KeyboardDriver.TryNext` | src/ring_buffer.c:36-47 | One round of the blocking read is the abstract step, and keeps the invariant: a character, or the process is blocked. |
| `Ps2Keyboard.KeyboardDriver.Yield` | src/processes.c:76-86 | The yield of a process that has blocked, or is not reading, is the abstract step and keeps the invariant. |
| `Ps2Keyboard.KeyboardDriver.Run` | src/kmain.c:134-140 | One turn of the loop of kmain is the abstract step when a process is ready, and nothing otherwise. |
| `Ps2Keyboard.KeyboardDriver.Poll` | src/ring_buffer.c:22-33 | The read that does not wait is the abstract step. |
| `Ps2Keyboard.FirstKey` | src/kmain.c:131-140 | From an empty kernel to the first character, on the real queues and ring: the reader is created and run, asks, blocks and yields; the key wakes it, the loop of kmain runs it, and it returns that character. |
| `Md5Spec.CodecInverse` | src/md5.c:273-299 | Decode undoes Encode on words and Encode undoes Decode on bytes. |
| `Md5Spec.TurnsJoin` | src/md5.c:188-258 | Consecutive ranges of turns compose. |
| `Md5Spec.FoldBlock` | src/md5.c:138-139 | Taking in one more block extends the fold over the message. |
| `Md5Spec.PaddingIsLeast` | src/md5.c:162-169 | The padding is the shortest of one byte or more that ends at byte 56 of a block; the length then fills the block. |
| `Md5Spec.BitCountMeaning` | src/md5.c:122-128 | The two words hold 8 times the bytes modulo 2^64, and the lower one alone gives the bytes modulo 64. |
| `Md5Spec.CountAdd` | src/md5.c:125-128 | Adding a length with the carry found by comparison gives the count of the longer message. |
| `Md5.Round1` | src/md5.c:188-204 | The sixteen unrolled lines, with rotating register roles, equal turns 0 to 15 of the rotating-register form with its index, shift and constant formulas. |
| `Md5.Round2` | src/md5.c:206-222 | The sixteen unrolled lines, with rotating register roles, equal turns 16 to 31 of the rotating-register form with its index, shift and constant formulas. |
| `Md5.Round3` | src/md5.c:224-240 | The sixteen unrolled lines, with rotating register roles, equal turns 32 to 47 of the rotating-register form with its index, shift and constant formulas. |
| `Md5.Round4` | src/md5.c:242-258 | The sixteen unrolled lines, with rotating register roles, equal turns 48 to 63 of the rotating-register form with its index, shift and constant formulas. |
| `Md5.Encode` | src/md5.c:273-285 | The loop writes the little-endian bytes of the words and nothing else. |
| `Md5.Decode` | src/md5.c:290-299 | The loop reads the little-endian words of the bytes. |
| `Md5.Md5Context.Transform` | src/md5.c:181-268 | Compressing one more block takes the registers from the fold of the blocks so far to the fold with that block. |
| `Md5.Md5Context.CountUp` | src/md5.c:125-128 | The two count words hold the bit count of the longer message. |
| `Md5.Md5Context.FullBlocks` | src/md5.c:138-139 | The loop compresses every complete block of the input where it is, and stops with fewer than 64 bytes left. |
| `Md5.StopsIffCounterFits` | src/md5.c:138 | After the last complete block the loop guard is false if and only if the 32-bit sum i + 63 did not wrap; otherwise the loop would run past the input. |
| `Md5.ShortUpdateFits` | src/md5.c:138 | Updates of at most 2^32 - 64 bytes never wrap it. |
| `Md5.CounterWraps` | src/md5.c:138 | An update for which it wraps: 2^32 - 1 bytes after one byte of message. |
| `Md5.Md5Context.CompleteBlocks` | src/md5.c:130-144 | The blocks an update completes are compressed, the first from the buffer, and what is left over is the rest of the message. |
| `Md5.Md5Context.Update` | src/md5.c:116-148 | After any update whose loop counter fits 32 bits the context stands for the message so far followed by the input. |
| `Md5.Md5Context.Pad` | src/md5.c:159-169 | The two updates of MD5Final append the padding and the length before the padding. |
| `Md5.Md5Context.Final` | src/md5.c:153-177 | The digest is that of RFC 1321, sections 3.1 to 3.5, for the message so far, and the context is zeroed. |
| `Md5.DigestChunks` | src/kmain.c:87-99 | However a message is cut into updates, the digest is the one-shot digest of the whole. |
| `Md5Words.FBits` | src/md5.c:62 | For all words, F takes the bits of y where x has ones and those of z elsewhere. |
| `Md5Words.GBits` | src/md5.c:63 | G takes the bits of x where z has ones and those of y elsewhere. |
| `Md5Words.HAgreeBits` | src/md5.c:64 | H takes the bits of z where x and y agree. |
| `Md5Words.HDifferBits` | src/md5.c:64 | It takes their opposites where x and y differ. |
| `Md5Words.IPlainBits` | src/md5.c:65 | I takes the bits of y where z has ones and x none. |
| `Md5Words.IOtherBits` | src/md5.c:65 | It takes their opposites elsewhere. |
| `Md5Words.RotateNumber` | src/md5.c:69 | As numbers, for every word and every amount: x rotated by n is x * 2^n modulo 2^32 plus x / 2^(32 - n). |
| `Md5Suite.AbcDigest` | src/md5.c:153-177 | The digest of "abc" is 900150983cd24fb0d6963f7d28e17f72, the value in RFC 1321, appendix A.5. |
| `Md5Suite.DigitsDigest` | src/md5.c:153-177 | The digest of the 80 digits of that appendix, which take two blocks, is 57edf4a22be3c955ac49da2e2107b67a. |
| `KmallocModel.CutTiles` | src/allocator.c:26-31 | Cutting a page yields every multiple of the block size within it, each once. |
| `KmallocModel.KmallocKeeps` | src/allocator.c:47-74 | Every allocation keeps the pools tiled by free and live blocks, returns a block that was not live, and changes no other allocation. |
| `KmallocModel.KfreeKeeps` | src/allocator.c:76-88 | Every free keeps them tiled and ends exactly that allocation. |
| `KmallocModel.KmallocCounts` | src/allocator.c:47-74 | Free plus live blocks of a pool stay 4096/size for each of its pages. |
| `KmallocModel.KfreeCounts` | src/allocator.c:76-88 | The same for a free. |
| `KmallocModel.RunGood` | src/allocator.c:22-88 | Both hold after every sequence of kmalloc and kfree. |
| `KmallocModel.PiecesApart` | src/allocator.c:22-88 | No two pieces overlap: free blocks and live allocations with their headers lie apart. |
| `KmallocModel.LiveHoldsSize` | src/allocator.c:47-74 | A live allocation holds its header and at least the size asked for. |
| `KmallocModel.PayloadsApart` | src/allocator.c:22-88 | Over every run from init_alloc a live payload overlaps no other allocation, header or free block. |
| `KmallocModel.KfreeFindsRun` | src/allocator.c:65-87 | From payload address and header kfree computes the first page and the number of pages that kmalloc marked. |
| `KmallocModel.ExtentOfClass` | src/allocator.c:34-74 | Sizes up to 16, 48, 112, 496, 1008 and 2032 are given 32, 64, 128, 512, 1024 and 2048 bytes with the header; larger ones the least number of pages that holds size and header. |
| `KmallocModel.FromList` | src/allocator.c:59-64 | When the list of the class is not empty its head is handed out and the list loses that block only. |
| `KmallocModel.FromNewPage` | src/allocator.c:56-64 | When it is empty the last block of the page at the break is handed out, and the list holds the others in descending order. |
| `KmallocModel.FromBreak` | src/allocator.c:66-72 | A larger allocation begins at the break and moves it past its pages. |
| `KmallocModel.FirstBlock` | src/allocator.c:39-64 | The first block ever handed out ends the first page of the heap, at address 1 << 39. |
| `KmallocModel.KfreeUndoes` | src/allocator.c:47-88 | kfree right after kmalloc from a list restores the heap. |
| `KmallocModel.KmallocUndoes` | src/allocator.c:47-88 | kmalloc of a size of the same class right after kfree hands out the block just freed. |
| `Kmalloc.TakeStored` | src/allocator.c:59-63 | Popping the head and overwriting its link with a header stores the state after the allocation. |
| `Kmalloc.GiveStored` | src/allocator.c:79-82 | Overwriting the header with a link stores the state after the free. |
| `Kmalloc.Allocator.FindPool` | src/allocator.c:48-53 | The loop returns the first pool whose blocks are large enough. |
| `Kmalloc.Allocator.CutPage` | src/allocator.c:26-31 | The loop threads the blocks of a page into a list, last block first, disturbing no header. |
| `Kmalloc.Allocator.PoolAllocatePage` | src/allocator.c:22-32 | The pool gets the blocks of a fresh, backed page, threaded in the memory of its frame; it halts exactly when the frames do not suffice for tables and page. |
| `Kmalloc.Allocator.Kmalloc` | src/allocator.c:47-74 | kmalloc refines the abstract step over the page allocator, its links and headers being words of the frames behind the heap pages; it halts exactly when it needs pages and frames do not suffice, and changes no word of any live payload. |
| `Kmalloc.Allocator.Access` | src/page_allocator.c:68-89 | An access to any page below the break keeps the allocator valid; it halts exactly when the page is not backed and no frame is left, and backs that page only. |
| `Kmalloc.Allocator.ReleaseRun` | src/allocator.c:84-86 | Freeing a dedicated allocation halts exactly when one of its pages was never touched, and otherwise unmaps exactly the pages its kmalloc marked, although the payload address is passed on. |
| `Kmalloc.Allocator.Kfree` | src/allocator.c:76-88 | kfree refines the abstract step; it halts exactly when a page of a dedicated run was never touched; a pool block leaves the page tables alone, a dedicated run loses exactly its pages, and no word of another live payload changes. |
| `Kmalloc.Allocator.StorePayload` | src/allocator.c:47-74 | A store to a word of a live payload keeps the allocator valid and changes that word of the heap only; it halts exactly when the page is not backed and no frame is left. |
| `Kmalloc.Allocator.LoadPayload` | src/allocator.c:47-74 | It is loaded back from the frame behind the page. |
| `HeapUse.StoredStays` | src/allocator.c:47-88 | A word stored in a payload is loaded back after any other block was taken, written and freed. |
| `HeapUse.FreeUnused` | src/allocator.c:66-87 | kmalloc of a dedicated run and kfree with no access in between halts, when the frames suffice, exactly when the run has more than one page. |
| `HeapUse.UnwrittenBuffer` | src/allocator.c:66-70 | Buffers of 4096 bytes are dedicated runs of two pages, those of 2048 of one, those of 1024 come from a pool. |
| `Ext2Buffers.TripleBuffers` | src/ext2.c:181-191 | The three buffers of the triply indirect branch, the third never written, freed in turn: with buffers of more than one page the machine always halts. |
| `HeapUse.AccessRange` | src/page_allocator.c:68-89 | An access to each page of a range halts exactly when more of them are unbacked than frames are left, and otherwise backs exactly the range. |
| `HeapUse.UseOnce` | src/allocator.c:47-88 | kmalloc of a dedicated run, an access to every page and kfree: it halts exactly when the frames do not suffice for tables and pages; otherwise all frames but those of the new tables are available again, and the allocator is as before but for the break. |
| `Ext2Layout.PlaceInRange` | src/ext2.c:149-180 | Every block below 12 + n + n^2 + n^3 takes one of the four branches with its offsets in range, and they tell the block. |
| `Ext2Layout.PlaceDecodes` | src/ext2.c:149-180 | Every index, pair or triple in range is the place of exactly one block. |
| `Ext2Layout.PlacesInOrder` | src/ext2.c:149-180 | The blocks of a file take the direct, singly, doubly and triply indirect places in ascending order. |
| `Ext2.ReadBlock` | src/ext2.c:130-141 | The sectors of a block are delivered in order; it fails exactly when one of them cannot be read. |
| `Ext2.ReadSingle` | src/ext2.c:153-158 | A singly indirect block is found through the indirect block. |
| `Ext2.ReadDouble` | src/ext2.c:159-171 | What the doubly indirect branch delivers: the block named at the second offset of the singly indirect block. |
| `Ext2.ReadTriple` | src/ext2.c:172-191 | What the triply indirect branch delivers, before its buffers are freed: the block named at the last offset of the doubly indirect block. |
| `Ext2.ReadInodeBlock` | src/ext2.c:149-193 | For every block number the buffer receives the block its branch names, when all of it can be read: block k below 12 the one in direct pointer k, block 12 + i the one in entry i of the singly indirect block. |
| `Ext2.WordAtBytes` | src/ext2.c:153-158 | A block number read from a block is below 2^32 and its digits to base 256 are the four bytes there, the lowest first. |
| `Ext2.BlockByte` | src/ext2.c:130-139 | Byte i of a block is byte i modulo the sector size of its sector i divided by that. |
| `Ext2.TargetOf` | src/ext2.c:149-193 | Which pointer decides for each block number, in all four branches. |
| `Ext2.DoubleFollowsIff` | src/ext2.c:159-171 | The doubly indirect branch delivers the blocks that ext2 assigns, below an entry of the doubly indirect block, if and only if the block of pointers that entry names and the singly indirect block hold the same bytes. |
| `Ext2.TripleFollowsIff` | src/ext2.c:172-191 | The triply indirect branch does so, below a pair of entries, if and only if the block of pointers they lead to and the doubly indirect block hold the same bytes. |
| `Ext2.FarBlocksDiffer` | src/ext2.c:159-191 | A volume on which both branches deliver a block other than the one assigned, with other contents. |
| `Ext2Reads.CopiedIffFits` | src/ext2.c:330-353 | A read never returns fewer bytes than are due, and exactly those if and only if the request fits (rest of the block begun within request and file; request within the file, or beyond it by more than its last block leaves). |
| `Ext2Reads.CopiedExact` | src/ext2.c:330-353 | How many bytes any read returns, for every file size, block size, cursor and length. |
| `Ext2Reads.OverReadsShortFile` | src/ext2.c:338-340 | A concrete read, with blocks of 1024 bytes, that returns more bytes than the file has. |
| `Ext2Reads.OverrunIff` | src/ext2.c:333-337 | A read writes more than its caller asked for if and only if more than that is left of the block it begins in, and never more than the larger of the two. |
| `Ext2Reads.OverrunsShortBuffer` | src/ext2.c:333-337 | A concrete read of 10 bytes that writes 1023. |
| `Ext2Files.SuccessiveReads` | src/ext2.c:324-355 | The results of a list of reads that fit, put together, are the bytes of the file from the cursor on, as many as were asked for in all or are left. |
| `Ext2Files.ReadIsContents` | src/ext2.c:324-355 | A read that fits returns content[cursor .. min(cursor + len, size)], and any other returns more bytes. |
| `Ext2Files.ContentsAreBlocks` | src/ext2.c:143-158 | The contents of a file are its blocks one after another, up to its size. |
| `Ext2Files.ImageOnVolume` | src/ext2.c:143-158 | Every file whose blocks are readable and within the singly indirect range has contents the read theorems apply to. |
| `Ext2Files.Ext2File.Chunk` | src/ext2.c:333-348 | The four cases of one round, each staying within the block. |
| `Ext2Files.Ext2File.ReadLoop` | src/ext2.c:327-353 | The loop delivers the file's bytes from the cursor on and moves the cursor past them. |
| `Ext2Files.Ext2File.Read` | src/ext2.c:324-355 | Into a buffer with the room OverrunIff gives: what is copied is always the next bytes of the file's blocks, as many as CopiedIffFits characterises, and nothing beyond them is written. |
| `Ext2Inodes.LocatedIff` | src/ext2.c:247-254 | An inode number is looked up exactly when it is 1 or more, at most the number of inodes, and its group exists. |
| `Ext2Inodes.SlotsApart` | src/ext2.c:251-260 | Two inodes never overlap in the tables. |
| `Ext2Inodes.LocatePlace` | src/ext2.c:247-254 | The group and the index within it locate the inode counted from 1: group * inodes per group + index is its number less 1. |
| `Ext2Inodes.SlotInBlock` | src/ext2.c:258-260 | When the inode size divides the block size no inode crosses a block. |
| `Ext2Inodes.ReadInode` | src/ext2.c:245-275 | The bytes returned are those of the inode's slot in its group's table, for every slot that lies in one block; NULL exactly when there is none. |
| `DriveInit.HashedIffFits` | src/kmain.c:90-97 | The reads of 7000 bytes cover the file, and cover exactly the file if and only if the last of them fits. |
| `DriveInit.HashesTooMuch` | src/kmain.c:90-97 | With blocks of 4096, 192 bytes too many are hashed for a file of 8000 bytes. |
| `DriveInit.DigestFile` | src/kmain.c:87-99 | The digest printed is that of the bytes read, and that of the file when the last read fits. |

## Left out

- Interrupts that arrive inside a scheduling step: README.md:43 of the repository calls these races unresolved. A process runs up to its `int`, an interrupt handler runs with interrupts off; an interrupt between the unblocking `STI` of `PROC_block_on` and its yield is modelled.
- Stacks, contexts and register frames of processes, and the frees of them in `kexit_handler`: only the dispatch decision of src/isr_handler.asm is modelled. `HLT`, `invlpg`, `cr3` itself, GDT, IDT and TSS are not part of this model.
- Loads and stores of less than 64 bits, and words that straddle two: clients of the heap store aligned 64-bit words. The accessed and dirty bits the processor sets in entries are not part of this model.
- The contents of the buffers `read_inode_block` takes from the heap: `Ext2` reads into arrays of its own, and `Ext2Buffers` models what taking and freeing them does.
- The identity of the callback functions of `page_table_walk`: they are the two the source has, as a datatype.
- Port I/O, PIC, PS/2 initialisation and scan codes, serial, ATA and its request queue, VGA, `printk`: hardware and user interface. The keyboard handler starts from the decoded character.
- Parsing of the Multiboot2 tags: the model starts from the decoded memory map and section table.
- The directory walk `readdir`, probing of the superblock, and failures of a sector in the middle of a file: the read theorems ask that the blocks of the file can be read.
- Data fetched through doubly and triply indirect blocks as the contents of a file: the source does not follow the tree there; what it does deliver is modelled.
- The buffers `ext2_file_read` and `drive_init` allocate and never free.
- Ext2.ReadTriple: says what the branch delivers into its caller's buffer, not that freeing its own buffers then halts the machine when they have more than one page (`TripleBuffers`).
- Ext2.ReadInodeBlock: the same for that branch.
- Ext2Files.Ext2File.Read: asks for a buffer of the length requested, or of the rest of the block the cursor stands in when that is more: the code then writes beyond the buffer, which has no result to state.
- Ext2Inodes.ReadInode: asks that the inode lie within one block of the table, since the code otherwise copies from beyond its block buffer; `SlotInBlock` says when it does.
- Kmalloc.Allocator.Kmalloc: does not model the overflow of `int` page counts in `MMU_alloc_pages` beyond 2^19 pages.
- DriveInit.DigestFile: gives the file's digest when the last read fits; that it differs otherwise would need MD5 to be free of collisions on those inputs.
