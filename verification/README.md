# A verified model of the kdbOS kernel

The project models three stateful parts of the kernel and proves what they keep over every run.

**Scheduler.** A multi-level feedback queue over intrusive circular lists: four priority queues with
quanta of 40, 80, 120 and 160 ticks, demotion when a quantum expires, promotion after 600 ageing
ticks, a waiting queue, and an idle process.  `SchedSpec` is the scheduler on values; `IntrusiveList` and
`Scheduler` are the linked nodes and control blocks, updated in place.  Each method of the class states
that the scheduler's value moves by the operation of `SchedSpec`; `SchedInvariant`, `SchedLiveness`,
`SchedAgeing` and `SchedArrival` prove what runs of those operations keep and reach.

**Kernel heap.** First-fit allocation with headers embedded in the managed bytes.  `HeapSpec` is the
block list on values, `KernelHeap` the byte array with 12-byte headers, `HeapProofs` what every run
keeps.  A flag selects the coalescing assignment as written or as intended.

**Frames, page tables and address spaces.** `Bitmaps` and `Frames` are the frame allocator; `Tables` has
32-bit entries and the two-level walk of sections 4.3 and 4.6 of the Intel SDM, Volume 3A; `AddressSpaces` says who
owns which frame and what a write changes in the translations of all address spaces; `Vmm` is the
virtual memory manager.  Every access of its code goes through a translation cache and a page walk over
physical memory, so that aliases (the identity map, the temporary window, kernel pages that show a
table) are real.  `PageMapping` holds the lemmas, `Images` builds an address space with a process image,
`Processes` adds the stack and follows runs of process creations; `Startup` goes from pmm_init and paging_init to
the first processes; `Witnesses` builds small machines on which the memory manager goes wrong.  `BootLayout` says
where kernel_main's bitmap, first tables and heap lie and when they lie over each other.

The translation cache is nondeterministic: it may drop anything, and a machine built with `speculative`
may at any access cache every translation that the current tables give, asked for or not.  The pages in
`eager` are those that such a processor caches as soon as it can and keeps until they are flushed; with them
one can say not only what may be cached but what is.  Memory may hold anything at boot.

## Where the code departs from its intent

- `src/kernel/klibc/kmemory.c:73` assigns where `+=` is meant: a merge forgets the size of the left block.
  Everything about order, disjointness and coalescing is proved for both forms; conservation for the
  intended one, and for the code as written exactly for the runs that never merge
  (`HeapProofs.RunConservesIff`).
- `src/kernel/proc/sched.c:107-113` leaves the blocked process current.  Blocking alone breaks the invariant
  whenever it does anything (`SchedInvariant.BlockAloneInv`); runs take the block and the pick that
  follows as one step.
- `src/kernel/proc/sched.c:66-70` never preempts the idle process: the timer alone dispatches a ready process
  exactly when the idle process is not current (`SchedLiveness.TimerDispatchesIff`).
- `src/kernel/memory/vmm.c:69` returns without giving back the frame it took: a failing call of
  `Vmm.Machine.GetNewPage` leaks a frame if and only if a page was decided on, its directory entry was absent
  and one frame was left (`Witnesses.LeakExample` is such a machine).
- `src/kernel/memory/vmm.c:71-79` sets the present bit of a kernel directory entry before its address, and
  the address before the table is cleared; `src/kernel/memory/vmm.c:91` flushes one page only.  Every access of
  the code still reaches the right frame on every machine, since cached translations of mapped pages always
  agree.  But pages that are not mapped may stay cached: `stale` is the set of them, and
  `Vmm.Machine.GetNewPage` adds exactly the pages other than its own that frame 0 or the fresh frame showed as a
  table.  It adds none if and only if neither holds a present word at another index than the page's
  (`PageMapping.ExposesNothing`; `Witnesses.StaleExample` has one at index 1).
- `src/kernel/memory/vmm.c:48`, `:106` and `:124` follow a table by its physical address, which works below
  8 MB outside frame 0 and the window's page.  Where the table lies elsewhere the model stops; the contracts of
  `Vmm.Machine.FindSlot`, `FreePage` and `MapFrame` and of `Processes.DirectLookup` say exactly when
  (`Witnesses.StopExample` gets there).
- `src/kernel/proc/proc.c:29` maps the stack over the second page of the image.  A process sees its whole
  image exactly when the image has at most 4096 bytes, or happens to hold the bytes of the stack there
  (`Processes.ImageVisible`).
- `src/include/arch/i386/memory/paging.h:111-119` draws the bitmap and the heap as memory of their own up to 8 MB, the
  heap at the start of a page.  `src/kernel/kernel.c:47` puts the bitmap at 4 MB, and `src/kernel/memory/pmm.c:23`
  reserves only the frames wholly below its end.  So the frame in which the bitmap ends, when memory has it, is the
  first one handed out and becomes the kernel's directory.
  - The directory lies over the bitmap if and only if the bitmap does not end at the start of a frame
    (`BootLayout.DirectoryOverBitmap`).  With the bitmap at 4 MB that holds of all machines with 1027 to 32736 frames;
    on all of them the marks of the kernel's tables are lost and the next frame handed out is frame 2
    (`BootLayout.KernelMainOverlap`; `BootLayout.OverlapExample` has 639 KB and 129920 KB).
  - The first header of the heap always lies in the directory and links an entry there (`BootLayout.HeaderLinks`);
    a frame that can be handed out lies over the heap if and only if it is below 8 MB
    (`BootLayout.HeapOverFrames`).
  - Therefore everything about `Vmm.Machine`, `Processes` and `Startup` stands under two hypotheses.  The bitmap ends
    at the start of a frame, or memory ends below it: `Vmm.Machine.constructor` requires `BitmapReserved`, which
    `Startup.Boot` reduces to a condition on numbers, and then no frame of the bitmap is ever written
    (`Startup.ReservedKept`).  And nobody but the memory manager writes the frames it hands out: the heap, which
    does, is not composed with it.

## Model

| member | source | states |
|---|---|---|
| SchedLiveness.BoundedWaiting | src/kernel/proc/sched.c:59-148 | In every run that starts with a process on the CPU, a ready process at any level and age is dispatched within A + 1 + A/39 + 160 + 40k ticks, A being the ageing ticks left to level 0 and k the number ahead of it when it gets there |
| SchedLiveness.BoundedByPopulation | src/kernel/proc/sched.c:59-148 | The same with k replaced by the number of other processes, known at the start up to arrivals |
| SchedLiveness.ClimbWait | src/kernel/proc/sched.c:72-104 | The lexicographic ranking behind it: while the process is not dispatched, ticks stay below its rank, which ageing ticks and expiries lower and no event raises |
| SchedLiveness.FrontWait | src/kernel/proc/sched.c:40-83 | At level 0 behind k others the wait is below the running quantum plus 40k ticks |
| SchedLiveness.RankDrops | src/kernel/proc/sched.c:66-104 | One ageing tick or one expiry lowers the rank: 39 ageing ticks lie between two expiries of full quanta |
| SchedLiveness.IdleStarves | src/kernel/proc/sched.c:66-70 | Once the idle process is current, no run without a pick dispatches anybody |
| SchedLiveness.TimerDispatchesIff | src/kernel/proc/sched.c:127-148 | Some number of timer ticks dispatches a given ready process if and only if the idle process is not current |
| SchedLiveness.PickIsMostUrgent | src/kernel/proc/sched.c:40-57 | The pick takes the head of the most urgent non-empty queue, the idle process, running then, exactly when no process is ready, and leaves the other queues alone |
| SchedArrival.PickIsEldest | src/kernel/proc/sched.c:40-148 | After every run from the start, a step that picks dispatches the process that is least by level and, within its level, by the stamp of its arrival there |
| SchedArrival.RunOrdered | src/kernel/proc/sched.c:26-148 | Over every run the arrival stamps grow from head to tail in all five queues |
| SchedArrival.StepContinues | src/kernel/proc/sched.c:26-148 | Every step leaves of each queue a subsequence in order, followed by processes that were not in it |
| SchedArrival.DispatchesEldest | src/kernel/proc/sched.c:40-148 | One step: whoever is dispatched, the process that just left the CPU included, is ahead of every other ready process by level or stamp |
| SchedLiveness.TimerSelects | src/kernel/proc/sched.c:127-148 | The handler always leaves somebody current, never the idle process when a process was running, and lets a process use up its quantum |
| SchedLiveness.AgeMoves | src/kernel/proc/sched.c:85-104 | The ageing pass moves each waiting process to exactly one place: aged once, or promoted one level with age 0 and a full quantum |
| SchedLiveness.AgeKeepsOrder | src/kernel/proc/sched.c:85-104 | Of two processes of one level that both stay or both rise, the first stays ahead |
| SchedInvariant.StepInv | src/kernel/proc/sched.c:26-148 | Every step keeps the invariant: one place per process, states and priorities that match the queue, full quanta in the ready queues, ages below 600, quanta of the running process between 1 and its level's |
| SchedInvariant.StepConserves | src/kernel/proc/sched.c:26-148 | No step loses or doubles a process; only enqueueing a new one adds it, once |
| SchedInvariant.RunConserves | src/kernel/proc/sched.c:26-148 | Over a run each process stands in exactly one place if it was there or has arrived, and nowhere otherwise |
| SchedInvariant.InitInv | src/kernel/proc/sched.c:11-24 | The initial scheduler satisfies the invariant |
| SchedInvariant.BlockPlaces | src/kernel/proc/sched.c:107-113 | The blocked process is appended to the waiting queue as waiting, with quantum, level and age as they were, and stays current too: it stands in two places at once; nothing else changes |
| SchedInvariant.BlockAloneInv | src/kernel/proc/sched.c:107-113 | Blocking without the pick keeps the invariant if and only if there is no process to block |
| SchedInvariant.TickAfterBlock | src/kernel/proc/sched.c:66-113 | After a tick between block and pick the blocked process stands in the waiting queue and in a second place: on the CPU while its quantum lasts, in a ready queue exactly when the tick used it up |
| SchedAgeing.AgeAccounting | src/kernel/proc/sched.c:72-125 | Over any run the ageing ticks of a process above level 0 equal 600 times its promotions plus the age it was forgiven at its wake-ups plus what its age grew by, and its level is where it started plus the quanta used up above level 3 minus its promotions |
| SchedAgeing.LifeAccounting | src/kernel/proc/proc.c:13-19 | The same counted from creation: a new process enters at the tail of level 0 with quantum 40 and age 0 |
| SchedAgeing.ExpiryDemotes | src/kernel/proc/sched.c:72-83 | The last tick of a quantum puts the process at the tail of the next level, or of level 3 again, ready, with the quantum 40, 80, 120 or 160 of that level and its age kept; nothing else moves and nobody is current |
| SchedAgeing.TickAges | src/kernel/proc/sched.c:66-104 | Any other tick takes one from the quantum; a process at age 599 above level 0 goes one level up with age 0 and the quantum of that level, any other there is one tick older, and level 0 stays as it is |
| SchedAgeing.UnblockWakes | src/kernel/proc/sched.c:115-125 | The process leaves the waiting queue and joins the tail of its level, ready, with age 0 and the quantum 40, 80, 120 or 160 of the level; nothing else changes |
| Scheduler.ProcessControlBlock.constructor | src/kernel/proc/proc.c:13-36 | A new control block is ready, at level 0, with a quantum of 40 and age 0, unlinked |
| Scheduler.Scheduler.constructor | src/kernel/proc/sched.c:11-24 | Five empty lists, nobody current, linked structure valid |
| Scheduler.Scheduler.SchedEnqueue | src/kernel/proc/sched.c:26-38 | The linked structure moves as the enqueue on values, the ignored states included |
| Scheduler.Scheduler.SchedPickNextProcess | src/kernel/proc/sched.c:40-57 | The linked structure moves as the pick on values |
| Scheduler.Scheduler.SchedTick | src/kernel/proc/sched.c:59-105 | The tick in place, with its walk over lists that it unlinks and relinks, is the tick on values |
| Scheduler.Scheduler.AgeWaiting | src/kernel/proc/sched.c:85-104 | The walk terminates and equals the ageing pass on the sequences |
| Scheduler.Scheduler.SchedBlockProcess | src/kernel/proc/sched.c:107-113 | Blocking as written, the process left current |
| Scheduler.Scheduler.BlockAndPick | src/kernel/proc/sched.c:40-113 | Block and pick together are one step of the value and keep the whole structure valid |
| Scheduler.Scheduler.SchedUnblockProcess | src/kernel/proc/sched.c:115-125 | Nothing happens unless the process waits; otherwise it moves to the tail of its queue with age 0 and a full quantum |
| Scheduler.Scheduler.SchedTimerHandler | src/kernel/proc/sched.c:127-148 | The handler is one timer step of the value; which switch it asks for, and between whom |
| Scheduler.Scheduler.EnqueueNew | src/kernel/proc/sched.c:26-38 | Enqueueing a new control block is the arrival step |
| IntrusiveList.List.ListAdd | src/kernel/ds/list.c:28-33 | The new node stands between its neighbours in both directions |
| IntrusiveList.List.PushHead | src/kernel/ds/list.c:35-41 | The list's sequence gets the node in front; the ring stays closed in both directions |
| IntrusiveList.List.PushTail | src/kernel/ds/list.c:55-61 | The same at the end |
| IntrusiveList.List.PopHead | src/kernel/ds/list.c:43-53 | NULL exactly when empty, otherwise the first node, unlinked, and the rest in order |
| IntrusiveList.List.PopTail | src/kernel/ds/list.c:63-73 | The same for the last node |
| IntrusiveList.List.RemoveNode | src/kernel/ds/list.c:75-88 | Removal at any position is removal from the sequence; the error results change nothing |
| IntrusiveList.List.Free | src/kernel/ds/list.c:102-107 | The loop terminates with an empty list and every node unlinked |
| IntrusiveList.RingWithout | src/kernel/ds/list.c:80-81 | Which neighbours each remaining node has after a removal |
| IntrusiveList.LinkTwice | src/kernel/ds/list.c:28-33 | Linking a node of one list into another makes the ring of the first lead into the second |
| HeapProofs.RunInv | src/kernel/klibc/kmemory.c:23-80 | In both forms every run keeps the blocks in address order without overlap below the ceiling and no two neighbours free; in the intended form they tile the heap |
| HeapProofs.RunDisjoint | src/kernel/klibc/kmemory.c:34-80 | After every run any two blocks, headers included, are disjoint and inside the heap |
| HeapProofs.RunKeepsUsed | src/kernel/klibc/kmemory.c:34-80 | A block handed out keeps address and size until it is freed |
| HeapProofs.MallocFirstFit | src/kernel/klibc/kmemory.c:34-62 | It fails exactly on an empty request or when no free block is large enough, and then changes nothing; otherwise it takes the lowest such block and returns the address 12 bytes behind it; the block is cut behind the grant if it has 16 bytes to spare, the rest free, and granted as a whole if not |
| HeapProofs.SplitExact | src/kernel/klibc/kmemory.c:41 | The 32-bit sum of the split test does not wrap once the block is large enough |
| HeapProofs.CoalesceSeparates | src/kernel/klibc/kmemory.c:70-79 | One pass leaves no two free neighbours, whatever the list was |
| HeapProofs.CoalesceLaid | src/kernel/klibc/kmemory.c:70-79 | The pass keeps order and disjointness in both forms |
| HeapProofs.AllFreedRestores | src/kernel/klibc/kmemory.c:23-80 | Intended form: when every block is free the heap is the block of kmalloc_init again |
| HeapProofs.MallocFreeRoundTrip | src/kernel/klibc/kmemory.c:34-80 | Allocating and freeing restores the heap if and only if the form is the intended one or the block was not split; as written it comes back n bytes smaller |
| HeapProofs.ReleaseConservesIff | src/kernel/klibc/kmemory.c:64-80 | As written, freeing a used block keeps all bytes if and only if neither neighbour is free |
| HeapProofs.RunConservesIff | src/kernel/klibc/kmemory.c:64-80 | As written, a run keeps all bytes if and only if it never frees a block beside a free one |
| HeapProofs.LosingRun | src/kernel/klibc/kmemory.c:73 | A run as written that loses 100 bytes: one allocation that splits the only block, freed again |
| KernelHeap.Heap.constructor | src/kernel/klibc/kmemory.c:23-32 | One free block over everything from the start to 0x7FFFFF, its size, flag and null pointer at offsets 0, 4 and 8; no other byte is written |
| KernelHeap.Heap.HeaderLayout | src/include/klibc/kmemory.h:5-9 | In a valid heap the k-th header holds the size, the free flag and the address of the next header, 0 at the end, at offsets 0, 4 and 8, and the payload of that size follows at 12, below the next header and 0x7FFFFF |
| KernelHeap.Heap.Kmalloc | src/kernel/klibc/kmemory.c:34-62 | The headers in memory move as the block list; no byte outside the block taken is written, and every block in use keeps all its bytes |
| KernelHeap.Heap.WritePayload | src/kernel/klibc/kmemory.c:55 | Whoever was handed out a block may write any byte of its payload: the heap stays intact and all other blocks keep their bytes |
| KernelHeap.Heap.Kfree | src/kernel/klibc/kmemory.c:64-80 | The headers in memory move as the block list; every block still in use keeps all its bytes |
| KernelHeap.Heap.MergePass | src/kernel/klibc/kmemory.c:70-79 | The loop over the headers is the coalescing pass and terminates |
| Bitmaps.OneBit | src/kernel/ds/bitmap.c:11-24 | Setting or clearing a bit changes that bit and no other, in its word or elsewhere |
| Bitmaps.Bitmap.Set | src/kernel/ds/bitmap.c:11-14 | Adds one in-range index to the set of used indices |
| Bitmaps.Bitmap.Clear | src/kernel/ds/bitmap.c:16-19 | Removes one |
| Bitmaps.Bitmap.Test | src/kernel/ds/bitmap.c:21-24 | Membership |
| Bitmaps.Bitmap.ClearAll | src/kernel/ds/bitmap.c:3-9 | The empty set |
| Frames.FrameAllocator.constructor | src/kernel/memory/pmm.c:7-30 | The frames counted are those that lie wholly in memory; used are exactly those of them wholly below the end of the bitmap; the frames of the bitmap itself are among them if and only if it ends at the start of a frame or beyond memory |
| Frames.WholeFrames | src/kernel/memory/pmm.c:8 | The number of frames is the one n with 4096 n <= bytes < 4096 (n + 1) |
| Frames.ReservedIff | src/kernel/memory/pmm.c:18-27 | No free frame overlaps the bitmap if and only if its end lies at the start of a frame or beyond memory |
| Frames.FrameAllocator.AllocateFrame | src/kernel/memory/pmm.c:32-41 | The search takes the least free frame; what it hands out lies wholly in memory |
| Frames.FrameAllocator.FreeFrame | src/kernel/memory/pmm.c:43-46 | Removes the frame of the address |
| Frames.AllocateExact | src/kernel/memory/pmm.c:32-41 | The address does not overflow, names the frame taken, and is 0 exactly when no frame is free, frame 0 being reserved |
| Frames.AllocateRelease | src/kernel/memory/pmm.c:32-46 | Allocating and freeing restores the set |
| BootLayout.DirectoryOverBitmap | src/kernel/kernel.c:47-50 | When the three first frames exist the kernel directory is the frame in which the bitmap ends; it holds an address of the bitmap if and only if the bitmap does not end at the start of a frame |
| BootLayout.KernelMainOverlap | src/kernel/arch/i386/memory/paging.c:17-64 | With the bitmap at 4 MB and 1027 to 32736 frames the finished directory, read as the bitmap it overwrote, marks frames 0 and 1 and neither frame 2 nor the kernel directory and tables; marking frame 2 gives user access to directory entry 0 |
| BootLayout.OverlapExample | src/kernel/kernel.c:46-50 | 639 KB and 129920 KB make 32639 frames and a bitmap that ends at 0x400FF0, and the directory is built in its frame |
| BootLayout.HeapOverFrames | src/kernel/kernel.c:48-52 | A free frame overlaps the heap if and only if it lies below 8 MB |
| BootLayout.HeaderLinks | src/kernel/klibc/kmemory.c:23-32 | The first word of the heap, written into the frame in which the bitmap ends, is a directory entry with the present bit set |
| Tables.DecodeEncode | src/include/arch/i386/memory/paging.h:10-24 | The bit fields of an entry survive the word |
| Tables.EncodeDecode | src/include/arch/i386/memory/paging.h:10-24 | A word survives its bit fields |
| Tables.SetEntryOf | src/include/arch/i386/memory/paging.h:26-32 | Writing the bytes of one entry changes that entry and no other of the frame |
| Tables.ReadWalk | src/include/arch/i386/memory/paging.h:10-32 | Translating by directory and table entries as values, rights of both levels included, reads the same byte with the same rights as the processor does from the words and bits in memory |
| AddressSpaces.TableWrite | src/kernel/memory/vmm.c:84-87 | Writing an entry of an owned table changes the translation of that page of that address space and of no other page of any |
| AddressSpaces.WindowWrite | src/kernel/memory/vmm.c:15-17 | Writing the window's entry changes the window only, in every address space |
| AddressSpaces.DataWrite | src/kernel/memory/vmm.c:169-172 | Writing a frame that holds no entries changes no translation |
| AddressSpaces.NewTable | src/kernel/memory/vmm.c:71-74 | Linking a frame that belongs to nothing keeps tables unshared |
| AddressSpaces.Isolation | src/kernel/memory/vmm.c:150-185 | Outside the shared tables two processes never share a frame, no process maps one twice, and none maps a directory or a table of any address space |
| AddressSpaces.TablesApart | src/kernel/memory/vmm.c:71-74 | No two directory entries name one table, the shared ones apart, and no directory is a table |
| AddressSpaces.SharedTables | src/kernel/memory/vmm.c:155-157 | Under entries 0 and 1 every address space translates as the kernel does |
| Vmm.Machine.constructor | src/kernel/arch/i386/memory/paging.c:13-61 | After paging_init on an allocator whose bitmap is reserved, whatever memory held, reading an address below 8 MB gives the byte there, page 0 and what lies beyond memory apart, for the kernel only and not writable exactly in pages from text to data; nothing else is mapped |
| Vmm.Machine.BuildTables | src/kernel/arch/i386/memory/paging.c:26-61 | The loops fill the three frames entry by entry as stated and touch no other frame |
| Vmm.Machine.Mmu | src/kernel/memory/vmm.c:20 | Whatever the cache did, the access reaches the frame of the current walk, cached translations of mapped pages still agree, and only stale pages are cached without one |
| Vmm.Machine.UpdateEntry | src/kernel/memory/vmm.c:15-17 | Bit-field assignments in sequence leave the entry with all fields assigned; what is cached under a directory entry meanwhile is bounded by what shows, and what shows after the first assignment is cached by an eager processor |
| Vmm.Machine.MapWindow | src/kernel/memory/vmm.c:11-21 | The window names the frame, with write access exactly where asked, no stale translation of it is cached, and every other page of every address space translates as before |
| Vmm.Machine.UnmapWindow | src/kernel/memory/vmm.c:23-29 | The present bit of the window is cleared, it is not cached, and everything else is as before |
| Vmm.Machine.Memset | src/kernel/klibc/kmemory.c:5-12 | Byte by byte through a page, only that frame changes and holds the value |
| Vmm.Machine.Memcpy | src/kernel/klibc/kmemory.c:14-21 | Byte by byte through a page, only that frame changes and starts with the source |
| Vmm.Machine.FindSlot | src/kernel/memory/vmm.c:38-58 | The search returns the first page that the directory does not translate, entries 768 and 769 skipped; it stops if and only if it meets a table outside the direct map first, and reports a full directory only when all is translated |
| Vmm.Machine.EnsureTable | src/kernel/memory/vmm.c:68-79 | It fails exactly when there is neither table nor frame, and takes a frame exactly when there is no table; a new directory entry has the flags asked for, an old one and all others stay as they are; linking and clearing a fresh table changes no translation, and exactly the pages that showed meanwhile become stale |
| Vmm.Machine.GetNewPage | src/kernel/memory/vmm.c:31-92 | It succeeds if and only if a page is decided on and one frame, or two without a table, are left, and takes exactly those; then that page translates to a frame that was free, with the flags, a new directory entry has them too, and nothing else changes; without an explicit page it is the lowest untranslated one from 8 MB on, the 8 MB from 0xC0000000 left out; on failure no translation changes, and a frame leaks if and only if it was the last one and a table was missing; the stale pages afterwards are exactly those before and those exposed, the new page apart |
| Vmm.Machine.MapNewFrame | src/kernel/memory/vmm.c:65-91 | The same after the choice of the page |
| Vmm.Machine.FreePage | src/kernel/memory/vmm.c:94-112 | It succeeds if and only if the page has no table outside the direct map; then its entry has the present bit and the frame cleared, it translates nothing and is not cached, and every other byte of memory is as before |
| Vmm.Machine.MapFrame | src/kernel/memory/vmm.c:114-148 | It succeeds if and only if the table is in the direct map or, where there is none, a kernel page can be had; then the page translates to the frame with the flags, as far as its directory entry lets them through, and a new directory entry is writable and open to users as asked, while an old one and all others stay; it stops exactly when the table, or the search, is out of reach; every other page is kept apart from vacant kernel pages, which then show only a table |
| Vmm.Machine.GetPhysicalAddress | src/kernel/memory/vmm.c:187-211 | For any page: the frame that its entry holds, 0 without a table; no translation changes, and the window is left closed and read-only |
| PageMapping.NeverAstray | src/kernel/memory/vmm.c:47-48 | While every table lies below 8 MB outside frame 0 and the window's page, no table is out of reach and the model does not stop |
| PageMapping.ChosenLowest | src/kernel/memory/vmm.c:38-58 | The page a search decides on, in addresses: the lowest untranslated one from 8 MB on outside the 8 MB from 0xC0000000 |
| PageMapping.StrayedLow | src/kernel/memory/pmm.c:32-41 | Frames are handed out in order, so a table is out of reach only when every frame below 2047 is in use |
| PageMapping.LinkLit | src/kernel/memory/vmm.c:71-74 | While an absent kernel entry is linked nothing shows under it but what frame 0 and then the fresh frame hold, and what frame 0 holds does show |
| PageMapping.ExposesNothing | src/kernel/memory/vmm.c:71-91 | vmm_get_new_page exposes nothing beside the page it flushes if and only if neither frame 0 nor the fresh frame has a present word at another index |
| PageMapping.CleanExposes | src/kernel/memory/vmm.c:38-91 | Where frame 0 and the free frames have no present word but at index 0, a search never leaves a stale page, because it then decides on index 0 |
| PageMapping.StaleExact | src/kernel/memory/vmm.c:71-91 | On a processor that caches eagerly, the stale pages are exactly those cached without translation |
| PageMapping.LitClearing | src/kernel/memory/vmm.c:76-78 | Clearing a table byte by byte shows nothing that it did not show before |
| PageMapping.SteadyTable | src/kernel/memory/vmm.c:76-78 | Whatever is written to a table's frame, kernel pages are redirected only under its own directory entry |
| Images.CreateSpace | src/kernel/memory/vmm.c:150-185 | Above 8 MB the new address space reads its image from 0xC0000000 on, zeros to the end of the last page, and nothing else; either all of it is there or frames or kernel pages ran out; older translations and data are kept; kernel pages left behind show only directories and tables |
| Images.MapOpen | src/kernel/memory/vmm.c:122-147 | Where all tables of a directory are writable and open to users as the process is, a page mapped with write access has these rights at both levels, and the tables are so afterwards |
| Images.ImageReads | src/kernel/memory/vmm.c:159-182 | Byte by byte: from 0xC0000000 on the directory shows the image, zeros to the end of its last page, with write access and open to users as asked, and above 8 MB nothing else; a page is missing only where the image is not complete |
| Images.TakeKernelPage | src/kernel/memory/vmm.c:151-152 | A vacant kernel page names a frame that nobody had, for the kernel only, and no other translation changes |
| Images.AddCodePage | src/kernel/memory/vmm.c:161-182 | One round of the loop: the page of the image is mapped to a frame with its bytes, the kernel page used for copying is gone |
| Images.FillPage | src/kernel/memory/vmm.c:165-172 | The frame holds the p-th chunk of the image, the tail of the last one zero |
| Images.CopiedAt | src/kernel/memory/vmm.c:155-157 | Which entries of a new directory come from the kernel's |
| Images.NewSpace | src/kernel/memory/vmm.c:151-157 | A cleared directory with the kernel's two entries is an address space of its own that translates nothing else |
| Images.ViewKept | src/kernel/memory/vmm.c:150-185 | A process sees the same bytes at a page whose translation is kept |
| Images.NextImage | src/kernel/memory/vmm.c:161-182 | A round adds its page to the image and changes no earlier one |
| Images.RoomGone | src/kernel/memory/vmm.c:161-182 | Frames and kernel pages that ran out do not come back during creation |
| Processes.StackWords | src/kernel/arch/i386/proc/proc.c:13-24 | The ten stores leave the interrupt flag at 4056, the entry point at 4092 and zeros elsewhere |
| Processes.WholeLegible | src/kernel/arch/i386/proc/proc.c:51-74 | What a whole process reads above 8 MB: in the page at 0xC0001000 zeros but for 0x202 at 0xC0001FD8 and 0xC0000000 at 0xC0001FFC, and its image everywhere else |
| Processes.CreateStack | src/kernel/arch/i386/proc/proc.c:8-41 | A fresh frame holds the context, the kernel page it was written through is gone, all translations are as before, and the stack pointer is that of the context at its page |
| Processes.DirectLookup | src/kernel/arch/i386/proc/proc.c:26-30 | Reading the frame of a kernel page from its table by physical address works if and only if the table is in the direct map |
| Processes.CreateProcess | src/kernel/proc/proc.c:21-30 | The stack pointer is 0xC0001FD8; there the new process reads the interrupt flag, eight zeros and, 36 bytes on, the address 0xC0000000, at which its image starts; it reads its image everywhere else and above 8 MB nothing beside; either all of it is there or the machine ran out of room; it takes at most 6 frames and 4 for each page of the image; older processes are not disturbed |
| Processes.ImageVisible | src/kernel/proc/proc.c:29 | The whole image is visible if and only if it has at most 4096 bytes or equals the stack there |
| Processes.RunKeepsProcesses | src/kernel/proc/proc.c:9-36 | After every run of calls, failed ones included, all processes have different directories and still see what they were made from |
| Processes.RunIsolates | src/kernel/proc/proc.c:9-36 | After every run what a process maps outside the shared tables is marked used, is no directory or table of any address space, and is mapped nowhere else; in the shared tables it agrees with the kernel |
| Processes.RunTablesApart | src/kernel/proc/proc.c:9-36 | After every run all directories and tables are frames marked used and different from each other, the two shared tables apart |
| Startup.ReservedKept | src/kernel/memory/pmm.c:21-27 | On every machine that the memory manager reaches, the frames reserved at boot, those of the bitmap among them, belong to nothing and hold what they held |
| Startup.ValidStrays | src/kernel/memory/vmm.c:47-48 | On every machine that the memory manager reaches, a table out of reach means that all frames below 2047 are in use and that there are more |
| Startup.AmpleLess | src/kernel/memory/vmm.c:31-92 | What is left of frames, of frames in the direct map and of kernel pages after an operation is bounded by what it took and mapped |
| Startup.CreateAll | src/kernel/kernel.c:110-113 | The loop of calls on a real machine is such a run, one call for each source in order, so the results hold of its memory, and every process that is whole reads its image and its stack; when frames and kernel pages before the loop exceed a number computed from the sizes of the images, every process is started and whole; a call is lost only when all frames below 2047 are in use; if none is and room is left at the end, every process is whole |
| Startup.Boot | src/kernel/kernel.c:45-113 | The same from pmm_init on, for any contents of memory, where the bitmap ends at the start of frame e: every process is started and whole if e + 3 + the frames for the images is below both 2047 and the number of frames; no frame below e is written; with clean memory nothing stale is ever cached |
| Startup.KernelMain | src/kernel/kernel.c:45-113 | With the bitmap at 4 MB and 32737 to 32768 frames the idle process and the two others, of 58, 30 and 30 bytes, are all started in address spaces of their own, and each reads its image and its stack |
| Witnesses.LeakExample | src/kernel/memory/vmm.c:65-69 | A machine with one frame left on which the call fails: the frame was free before and is used afterwards but belongs to nothing |
| Witnesses.StaleExample | src/kernel/memory/vmm.c:71-91 | A machine on which the page at index 1 is cached after the call and translated by no table |
| Witnesses.StopExample | src/kernel/memory/vmm.c:104-106 | A machine on which vmm_free_page stops: the page that vmm_get_new_page made is present and its table is out of reach |

## Left out

- The context switch, the loads of CR3 and CR0, and the bootstrap of the first process: the timer handler
  returns which switch it asks for.  Nothing is claimed about what a process that is switched to itself resumes with.
- Interrupt controller, port input and output, descriptor tables, interrupt stubs, page-fault handler, keyboard,
  terminal, panic screen, multiboot checks and the code blobs of the kernel's main file.
- String functions and the list's error code and message: bounded copies without effect on the list.
- The wrap-around of a list's 32-bit size and of `next_pid`: both are unbounded, and pids are parameters.
- list_init and sched_init on the kernel heap: lists are allocated as objects.
- The composition of the kernel heap with the frame allocator, whose memory the code does not make disjoint
  (BootLayout.HeapOverFrames), and runs on the machines of BootLayout.KernelMainOverlap, where the kernel directory
  and the bitmap are the same bytes: the allocator's bitmap is an array beside memory, which a valid machine never
  writes through its pages.
- Startup.Boot: takes machines whose bitmap ends at the start of a frame below 8 MB, for the reason above.  With the
  bitmap at 4 MB these are the machines with 32737 to 32768 frames, 65505 to 65536 and so on.
- Witnesses.LeakExample: like the other witnesses a state of the memory manager, its bitmap placed where few frames
  suffice; kernel_main with its bitmap at 4 MB does not get to these machines.
- Processes.CreateProcess: the number of frames it needs is bounded, not exact; it is exact for each call of
  vmm_get_new_page that it makes.
- kfree of an address that is no payload of the block list, which the source does not check either.
- Out-of-memory paths of create_pcb: where creation returns NULL or the stack has no frame the model stops, while
  the source goes on with address 0.  A table of the image or the stack that could not be built is ignored as in the source.
- Accesses through tables outside the direct map: the model stops there, since what they reach is not determined.
- Explicit pages, mapped pages and freed pages under the shared directory entries 0 and 1, whose change would
  break the identity map, and images above 1 GB, whose pages would wrap around to them; no caller in the
  repository asks for either.
- The bytes of the image are a value: that they lie in memory which creation does not write is not modelled.
- Faults on missing rights and cached rights: translations carry the rights of both levels, but accesses of the
  kernel are not checked against them.  Accessed and dirty bits, and the processor's caches of directory
  entries: the translation cache holds frames of pages.
- Translations of other address spaces in the cache: the operations modelled run on the kernel's directory, before
  the first process is started.
- The window's entry as paging_init leaves it, an identity mapping of its own page, is covered by the constructor; the
  direct map leaves that page out because the window reuses it.
- Vmm.Machine.MapFrame: takes frames that belong to nothing, as all callers pass, since a frame that another page
  already has would be shared; and for the kernel's own directory it takes pages whose table exists, because
  without one the search may put the new window under the very entry that is then overwritten.  All callers
  pass a process's directory.
- Vmm.Machine.FreePage: takes pages outside the shared entries, for the reason above.
- Vmm.Machine.UpdateEntry: the assignments to bit fields are one read and one write of the word each; a compiler may
  combine them, which shows fewer intermediate entries.
- Scheduler.Scheduler.SchedBlockProcess: keeps the links valid but not the invariant of the value, which is false of it
  (see SchedInvariant.BlockAloneInv).
- Scheduler.Scheduler.SchedTick: the state after a lone block is excluded, in which the links that the tick would make
  are no lists any more; SchedInvariant.TickAfterBlock and IntrusiveList.LinkTwice say what happens there.
- Scheduler.Scheduler.SchedTimerHandler: excludes the same state.
- Scheduler.Scheduler.SchedUnblockProcess: a waiting process has to be in the waiting queue, and its position, which the
  proof alone uses, is given by the caller.
