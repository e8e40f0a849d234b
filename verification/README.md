# Verified models of Proka Kernel's memory manager, scheduler and console

This project models the parts of Proka Kernel that decide what memory, processor time and screen
space belong to whom, and proves what those parts guarantee over whole runs. Everything is
ordinary Dafny 4.11; `dafny verify dfyconfig.toml` checks all of it.

Imperative code is modelled by classes whose methods loop and update state as the kernel does.
Each method is tied to a function on values, and the guarantees are proved about those functions.

## What is modelled

* **Frame allocator** (`Bitmap`, `FrameSpec`, `FrameAlloc`, `FrameRuns`): the byte bitmap with its
  moving search position refines a plain set of used page numbers. A ledger of page holders gives
  safety and conservation over every run of any number of clients.
* **Kernel heap** (`KernelHeap`): blocks are runs of whole frames; the heap is one client of the
  ledger among others.
* **Heap system call** (`UserHeapSpec`, `UserHeapLedger`, `UserHeapProps`, `UserHeapDemand`,
  `UserHeapCount`, `UserHeapRuns`, `UserHeapAnswers`, `UserMemory`): a process's range list, its page mapping and the frame allocator
  change together, with roll-back in the middle of the mapping loop. The page-table library's
  `map_to` is abstracted: each call takes an arbitrary number of table frames, and fails when one
  is missing or the page is mapped; `unmap` fails only on an unmapped page. The two lists the call
  pushes to live in the kernel heap, so every push may take a new buffer from the same frame
  allocator, of a size the list library decides, and give the old one back; a push that finds no
  buffer stops the kernel. Both decisions are one parameter of the call (`Oracle`).
* **Process image** (`ProcessImage`, `UserHeapImages`): where the section loops of process creation
  put each page, and the frames behind it.
* **Scheduler** (`SchedulerSpec`, `SchedulerRuns`, `SchedulerContexts`, `Scheduler`): two queues,
  two process tables, a turn flag and a current id, under every interleaving of creation, removal
  and timer ticks. The interrupted registers and page table are arbitrary inputs of a tick.
* **Boot page tables** (`PageWalk`, `BootPaging`, `AddressSpaces`): the set-up loops, and the
  four-level walk of section 5.3 of the AMD64 Architecture Programmer's Manual, Volume 2.
* **Console** (`Ansi`, `Terminal`, `Canvas`, `GlyphBits`, `Pixels`, `Console`): the escape-sequence parser
  (section 5.4 of ECMA-48), graphic rendition (section 8.3.117), the character grid, the pixel
  lines of a screen of any height, and the pixels.

## Where code and comments or expectations part

* A release of a run that starts exactly at the first allocatable page is refused
  (core/src/memory/framealloc.rs:124 compares with `<=`). `FrameSpec.RoundTrip` states the exact
  condition, `FrameSpec.RefusedReleaseExample` shows it, and `FrameRuns.FramesAreConserved` shows
  that it happens at most once.
* `init` rounds a region's base and length up separately (core/src/memory/framealloc.rs:61-62), so
  the page that contains an unaligned start stays free; `FrameSpec.RegionCoveredIffAligned` gives
  the exact condition. Pages that no entry describes are treated as free, as
  `FrameSpec.InitialExactly` says.
* `IS_DRIVER` means that a driver is next, and contexts are saved into the table of the class that
  is not next (arch/src/x86_64/scheduler.rs:59-62, 127-129). Saving is right exactly when
  `SchedulerContexts.SafeSave` holds; with one class only, processes start over at every dispatch.
* `allocate` reports exhaustion with -18, except when one of its own lists cannot grow: then the
  kernel stops (arch/src/x86_64/syscall/memory.rs:116, 122-124). `UserHeapDemand.AllocateEndsAsFated`
  gives the exact condition, `UserHeapCount.AllocateStopsIffCount` the numbers of free frames at which
  it happens, and `UserHeapCount.ListStopsTheKernel` shows it.
* A failed `map_to` (arch/src/x86_64/syscall/memory.rs:104-113) loses the frame that was taken for
  the page. The same theorem gives the exact condition, `UserHeapCount.AllocateLosesIffCount` the
  counts, and `UserHeapCount.LostFrameExample` an input. Reusing a process slot always loses the
  frames behind its pages. `UserHeapRuns.World` keeps all these frames as `leaked`.
* Drivers run with the kernel's selectors (arch/src/x86_64/process/mod.rs:73-86), so the read-only
  flags of their upper half bind them only while CR0's write-protect bit is set. Nothing in the
  kernel sets that bit; `AddressSpaces.DriverIsConfinedIffWriteProtected` names the dependence.
* The section loops of process creation advance both the page counter and the loop index
  (arch/src/x86_64/process/mod.rs:228-264), so a section occupies every second page and two sections
  can run into each other; `ProcessImage.LoadSections` gives the exact condition.
* The comments at arch/src/x86_64/memory/paging.rs:64-67 and 85-88 give other sizes and addresses
  than the loops: the code maps 6 MiB writable and 32 MiB read-only behind each other. The comment at
  lines 116-117 promises a window for user programs; no level above it carries the user flag.
* A character that wraps on the last row is drawn below the screen and lost
  (core/src/output/console.rs:158-179); `Terminal.CharacterAppearsIff` gives the exact condition.

## Model

| member | source | states |
|---|---|---|
| `Bitmap.WithBitAt` | core/src/memory/framealloc.rs:134-160 | writing one bit of a byte changes that bit and no other, for every byte and pair of bit positions |
| `Bitmap.StoreChangesOnePage` | core/src/memory/framealloc.rs:134-147 | storing the bit of page p adds exactly p to, or removes exactly p from, the set of marked pages |
| `FrameAlloc.FrameAlloc.Init` | core/src/memory/framealloc.rs:40-83 | the byte bitmap built from the boot memory map marks exactly the pages of the set-level initial state; a map with at least one free region is required because the maximum is unwrapped |
| `FrameAlloc.FrameAlloc.Scan` | core/src/memory/framealloc.rs:90-106 | the nested scan returns the lowest run of n free pages at or above the start, or None when there is none |
| `FrameAlloc.FrameAlloc.AllocateContiguous` | core/src/memory/framealloc.rs:88-117 | refines the set-level first fit: same result, exactly the n pages of the result become used, the position advances by n, and it fails exactly when no fitting run starts at or above the reserved pages |
| `FrameAlloc.FrameAlloc.DeallocateContiguous` | core/src/memory/framealloc.rs:122-131 | clears exactly the run, unless it starts at or below the first allocatable page, in which case nothing changes |
| `FrameAlloc.FrameAlloc.SetBit` | core/src/memory/framealloc.rs:134-147 | changes one page's mark; pages beyond the bitmap and values other than 0 and 1 change nothing |
| `FrameAlloc.FrameAlloc.GetBit` | core/src/memory/framealloc.rs:151-160 | reads the mark of a page; pages beyond the bitmap read as used |
| `FrameSpec.FirstFitIsLowest` | core/src/memory/framealloc.rs:90-106 | the recursive search is the lowest fit |
| `FrameSpec.ChosenIsFirstFit` | core/src/memory/framealloc.rs:88-117 | the two-phase choice without the search: lowest fit from the position, else lowest fit from the reserved pages; None exactly when nothing fits at or above them |
| `FrameSpec.FailsOnlyWhenNothingFits` | core/src/memory/framealloc.rs:88-117 | a non-empty request fails exactly when no free run exists anywhere, and is never served below the first allocatable page |
| `FrameSpec.LowestAddressOncePosIsPastTheEnd` | core/src/memory/framealloc.rs:108-114 | once the search position has passed the last page, the choice is the lowest fit of all memory |
| `FrameSpec.RoundTrip` | core/src/memory/framealloc.rs:88-131 | giving a run straight back restores the used pages if and only if it does not start at the first allocatable page |
| `FrameSpec.RefusedReleaseExample` | core/src/memory/framealloc.rs:122-126 | a concrete state in which the release of a run at the first allocatable page is refused |
| `FrameSpec.FreeEndIsTheHighest` | core/src/memory/framealloc.rs:42-50 | the end of memory is the highest end of a free region |
| `FrameSpec.InitialExactly` | core/src/memory/framealloc.rs:52-82 | after set-up a page below the end is used exactly when it is reserved, holds the bitmap, or lies in the rounded interval of a region that is not free RAM |
| `FrameSpec.InitialReach` | core/src/memory/framealloc.rs:42-50 | every byte of every free region lies below the managed end, and the last managed page starts before some free region ends |
| `FrameSpec.InitialBitmap` | core/src/memory/framealloc.rs:52-76 | the bitmap has the least multiple of eight bits that covers the managed pages, and the fewest pages that hold it are set aside |
| `FrameSpec.FreeMemoryIsAvailable` | core/src/memory/framealloc.rs:40-117 | after set-up every page wholly inside a free region, behind the bitmap and in no other region's marked pages, can be handed out |
| `FrameSpec.RegionCoveredIffAligned` | core/src/memory/framealloc.rs:59-67 | rounding base and length separately marks every page a region touches if and only if the region is empty or page-aligned, and then marks no others |
| `FrameSpec.BitmapBytesAreMarked` | core/src/memory/framealloc.rs:75-79 | every byte of the bitmap lies in a page marked for it when the bitmap follows the reserved pages |
| `AddressSpaces.BitmapIsProtected` | arch/src/x86_64/memory/framealloc.rs:22-36 | the same with the x86-64 constants 0x1e00 and 0x1e00000 |
| `FrameRuns.HandsOutOnlyFreePages` | core/src/memory/framealloc.rs:88-117 | in every invariant state, what a request hands out is held by nobody and lies in the allocatable range |
| `FrameRuns.TakeKeepsInv` | core/src/memory/framealloc.rs:88-117 | an allocation by any client keeps the ledger invariant: every used page has exactly one reason to be used |
| `FrameRuns.GiveKeepsInv` | core/src/memory/framealloc.rs:122-131 | a release of held pages, in any portions, keeps the ledger invariant |
| `FrameRuns.EveryRunIsSafe` | core/src/memory/framealloc.rs:69-131 | over every run of well-behaved clients, reserved pages and bitmap pages are never handed out or cleared, held pages lie in the allocatable range and are used |
| `FrameRuns.FramesAreConserved` | core/src/memory/framealloc.rs:110-131 | used = initial + held + refused at all times; at most one release is ever refused; the search position is its start plus all pages ever handed out; when everything is given back only the refused run is missing |
| `FrameRuns.LowestFitForTheRestOfTheRun` | core/src/memory/framealloc.rs:82-114 | once the position has passed the end of memory, every later non-empty request of the run is served lowest address first |
| `KernelHeap.HeapAlloc.SetFrameProvider` | core/src/memory/heap.rs:32-34 | only the first registration takes effect |
| `KernelHeap.HeapAlloc.Alloc` | core/src/memory/heap.rs:41-57 | null without a provider; otherwise the provider and the pointer change as the page-rounded request says |
| `KernelHeap.HeapAlloc.Dealloc` | core/src/memory/heap.rs:59-70 | releases the page-rounded run at the pointer's page; size zero does nothing |
| `KernelHeap.PageAddressIsAligned` | core/src/memory/heap.rs:44-56 | a page address is a multiple of every power of two up to 4096 |
| `KernelHeap.DeallocUndoesAlloc` | core/src/memory/heap.rs:41-70 | freeing with the matching layout names exactly the frames obtained, and restores the used pages unless the block sits on the first allocatable page (if and only if) |
| `KernelHeap.NullExactlyOnFailure` | core/src/memory/heap.rs:42-55 | null exactly for size zero, alignment above a page, or no free run anywhere, and then nothing changes |
| `KernelHeap.BlockIsFewestPages` | core/src/memory/heap.rs:52-69 | a block takes exactly the fewest whole pages that hold its size, from its address on, and freeing it clears the same pages |
| `KernelHeap.StepIsTheHeapsOwn` | arch/src/x86_64/memory/framealloc.rs:70-83 | the frame state of a heap run is the one the heap's own operations leave |
| `KernelHeap.RunKeepsInv` | core/src/memory/heap.rs:41-70 | every run of matching alloc and dealloc calls, mixed with other clients, keeps the block invariant |
| `KernelHeap.LiveBlocksAreDisjointAndAligned` | core/src/memory/heap.rs:41-70 | over every such run live blocks share no byte, lie in allocatable memory and have the alignment asked for |
| `UserMemory.MemorySyscall.TakeFrames` | arch/src/x86_64/memory/framealloc.rs:38-56 | a run of frames by first fit, recorded in the ledger; None leaves everything as it was |
| `UserMemory.MemorySyscall.ReturnFrames` | arch/src/x86_64/memory/framealloc.rs:45-62 | a run of frames back, refused at the first allocatable page, recorded in the ledger |
| `UserMemory.MemorySyscall.Push` | arch/src/x86_64/syscall/memory.rs:116 | a list's push: when the list has no room the kernel heap takes the new buffer from the frame allocator first and gives the old one back afterwards; fails when there is no new buffer |
| `UserMemory.MemorySyscall.Drop` | arch/src/x86_64/syscall/memory.rs:89-126 | a list that goes out of scope gives its buffer back |
| `UserMemory.MemorySyscall.MapPage` | arch/src/x86_64/syscall/memory.rs:103-116 | the mapping call takes any number of table frames first and fails when one is missing or the page is mapped |
| `UserMemory.MemorySyscall.UnmapPages` | arch/src/x86_64/syscall/memory.rs:93-98 | unmapping a run gives back the frame behind every page that is mapped and skips the others |
| `UserMemory.MemorySyscall.HeapTopOf` | arch/src/x86_64/syscall/memory.rs:71-76 | the highest range end, or 0x180000000 for an empty list |
| `UserMemory.MemorySyscall.MapPages` | arch/src/x86_64/syscall/memory.rs:84-118 | the mapping loop with the growing page list, stopping at the first failure; every address it forms is canonical |
| `UserMemory.MemorySyscall.Allocate` | arch/src/x86_64/syscall/memory.rs:49-127 | the whole call with both roll-back paths, both growing lists and the stop of the kernel when a list cannot grow, as one step of the world; keeps the world invariant |
| `UserMemory.MemorySyscall.Deallocate` | arch/src/x86_64/syscall/memory.rs:137-187 | the whole call as one step of the world; keeps the world invariant |
| `UserMemory.MemorySyscall.Memory` | arch/src/x86_64/syscall/memory.rs:28-37 | request types other than 0 and 1 return -2 and change nothing |
| `UserHeapLedger.PushGrows` | arch/src/x86_64/syscall/memory.rs:116 | whatever a push does, only the list's own buffer changes hands, and the new buffer was in nobody else's use |
| `UserHeapLedger.MapLoopEffect` | arch/src/x86_64/syscall/memory.rs:89-118 | the mapping loop maps exactly the pages it counts, each to a frame that was free or its own old list buffer, all different, while its list moves; nobody else loses a frame |
| `UserHeapLedger.UnmapLoopEffect` | arch/src/x86_64/syscall/memory.rs:171-181 | unmapping a held run removes exactly its pages and releases exactly their frames |
| `UserHeapProps.HeapTopBounds` | arch/src/x86_64/syscall/memory.rs:71-76 | the heap top is page-aligned, inside the heap window and above every range |
| `UserHeapProps.AllocateSucceeds` | arch/src/x86_64/syscall/memory.rs:49-126 | a successful call returns the old heap top, page-aligned and at least 0x180000000; the new range covers the size and ends below the stack; ranges, mapping and frames agree again; apart from the moved range list nobody lost a frame, and the new frames were held by nobody else |
| `UserHeapProps.AllocateFails` | arch/src/x86_64/syscall/memory.rs:91-114 | a failed call leaves mapping and range list as they were and drops its page list; on exhaustion every page frame is given back, on a failed mapping exactly its one frame stays held; new used pages are table frames, that frame, or withheld ones while the first allocatable frame was free |
| `UserHeapProps.RollbackRestores` | arch/src/x86_64/syscall/memory.rs:91-114 | undoing the pages mapped so far and dropping the page list restores the mapping and every holding but the failed page's frame and table frames |
| `UserHeapProps.DeallocateReleasesOneRange` | arch/src/x86_64/syscall/memory.rs:137-187 | -17 exactly when no range contains the address; otherwise every page of the first such range is mapped, exactly that range, its pages and its frames go, and nothing else changes |
| `UserHeapProps.AllocateThenDeallocate` | arch/src/x86_64/syscall/memory.rs:49-187 | releasing a fresh allocation through any address in it restores the process, except that its range list may have moved, and all frames held for pages |
| `UserHeapDemand.LoopMeetsItsFate` | arch/src/x86_64/syscall/memory.rs:90-124 | the mapping loop and the push of the new range end in one of four ways, decided before the loop by the allocator and the set of mapped pages: served, out of frames between two pages, a page's frame taken but the page not mapped, a list without a new buffer |
| `UserHeapDemand.MapTakesTablesFirst` | arch/src/x86_64/syscall/memory.rs:103-105 | a mapping call takes its table frames before it looks at the page and keeps them when it fails |
| `UserHeapDemand.CompletesIff` | arch/src/x86_64/syscall/memory.rs:90-124 | the mapping loop and the push of the new range go through exactly when the pages are unmapped and the allocator can serve, in order, each page, its tables and each new list buffer |
| `UserHeapDemand.AllocateEndsAsFated` | arch/src/x86_64/syscall/memory.rs:49-126 | for every state, size and growth of the lists: an address, -18 with nothing lost, -18 with exactly one frame lost, and the stop of the kernel, each if and only if it is the fate read off before the call |
| `UserHeapDemand.AllocateSucceedsIff` | arch/src/x86_64/syscall/memory.rs:49-126 | success if and only if the size is not zero, the pages behind the heap are unmapped, and the allocator alone can serve that sequence of requests; for every state and every growth of the lists |
| `UserHeapDemand.AllocateSucceedsFromOneRun` | arch/src/x86_64/syscall/memory.rs:49-126 | for lists of any size: a free run that holds everything the call takes is enough when the search reaches it from below |
| `UserHeapDemand.PositionInsideTheRunExample` | core/src/memory/framealloc.rs:88-114 | with the search position inside the run it is not enough: a page taken from the middle leaves no room for a list buffer |
| `UserHeapCount.AllocateSucceedsIffEnough` | arch/src/x86_64/syscall/memory.rs:49-126 | counted: while lists fit one frame each and the first allocatable frame is in use, the frames suffice exactly when the free frames cover the peak demand of pages, tables, page list and range list |
| `UserHeapCount.AllocateStopsIffCount` | arch/src/x86_64/syscall/memory.rs:116-124 | the kernel stops if and only if the free frames are used up exactly when the page list, in some round, or the range list needs its next buffer, and the pages up to there are unmapped |
| `UserHeapCount.AllocateLosesIffCount` | arch/src/x86_64/syscall/memory.rs:101-114 | a frame is lost if and only if some page gets its frame and the free frames then do not cover its tables, or the page is mapped already |
| `UserHeapCount.AllocateRunsOutIffCount` | arch/src/x86_64/syscall/memory.rs:91-99 | -18 with nothing lost if and only if the free frames are used up exactly when some page asks for its frame |
| `UserHeapCount.ListStopsTheKernel` | arch/src/x86_64/syscall/memory.rs:116 | not every exhaustion is reported: with one free frame, every one-page request whose page list has to grow stops the kernel instead of returning -18 |
| `UserHeapCount.LostFrameExample` | arch/src/x86_64/syscall/memory.rs:103-113 | an input that loses a frame: one free frame, one page, a page table needed |
| `UserHeapRuns.AllocateKeepsInv` | arch/src/x86_64/syscall/memory.rs:49-127 | allocate by any process keeps every process in order, all frames apart and every frame accounted for, unless it stops the kernel |
| `UserHeapRuns.DeallocateKeepsInv` | arch/src/x86_64/syscall/memory.rs:137-187 | deallocate by any process keeps every process in order, all frames apart and every frame accounted for |
| `UserHeapRuns.LoadKeepsInv` | arch/src/x86_64/process/mod.rs:135-150 | a run taken for a section belongs to nobody else |
| `UserHeapRuns.CreateKeepsInv` | arch/src/x86_64/process/mod.rs:161-323 | a new process gets a top-level table nobody else has and its stack and sections out of frames that were taken for it; a reused slot gives its range list back and leaks the rest; a failing creation keeps what it took |
| `UserHeapRuns.NoFrameBacksTwoPages` | arch/src/x86_64/syscall/memory.rs:90-184 | in every state of every run of normal and driver processes: sorted, aligned, disjoint ranges whose pages are exactly what is mapped on top of the image; the frame behind any page, heap or image, is used and is behind no other page of any process |
| `UserHeapRuns.HeapFramesAreAccountedFor` | arch/src/x86_64/syscall/memory.rs:89-126 | in every state of every run the frames held for heap pages are exactly those behind heap pages of some process and leaked ones, and none is both |
| `UserHeapRuns.LeakedFramesNeverComeBack` | arch/src/x86_64/process/mod.rs:280-299 | frames of failed mappings and of reused slots stay leaked, used and unmapped for the rest of the run |
| `UserHeapRuns.ReturnedAddressIsInTheHeapWindow` | arch/src/x86_64/syscall/memory.rs:71-125 | in every run a call stops the kernel or returns -16, -17, -18 or a page-aligned address from 0x180000000 on whose whole range ends at or below 0x7fffffffe000 |
| `UserHeapAnswers.AllocateRefuses` | arch/src/x86_64/syscall/memory.rs:55-68 | in every state: -16 exactly for size zero, -17 exactly when no normal process has the caller's page table, and then nothing changes |
| `UserHeapAnswers.AllocateAnswers` | arch/src/x86_64/syscall/memory.rs:60-126 | in every state, for the process with the caller's page table: the address behind its highest range exactly when the size is positive, the pages there are unmapped and the allocator serves them; then exactly those pages are mapped and become its new range and no other slot changes; -18 and the stop of the kernel exactly by their fates, -18 leaving every slot as it was |
| `UserHeapAnswers.DeallocateRefuses` | arch/src/x86_64/syscall/memory.rs:143-151 | -16 exactly when no normal process has the caller's page table, and then nothing changes |
| `UserHeapAnswers.DeallocateAnswers` | arch/src/x86_64/syscall/memory.rs:153-185 | for the process with the caller's page table: -17 exactly when none of its ranges contains the address; otherwise exactly the range that does, its pages and its frames go, and no other slot changes |
| `UserHeapAnswers.LoadTakes` | arch/src/x86_64/process/mod.rs:135-150 | a run for a section is found exactly when one is free, was used by nobody, and is then held for an image |
| `UserHeapAnswers.CreateFillsSlotIff` | arch/src/x86_64/process/mod.rs:161-323 | a creation fills its slot exactly when the frames are there and the sections can be loaded next to the stack: with the new top-level table, an empty heap and the image; otherwise no slot changes |
| `UserHeapAnswers.CreateKeepsWhatItTook` | arch/src/x86_64/process/mod.rs:163-195 | whatever becomes of a creation, its top-level frame stays taken, and a stack behind no process stays taken too |
| `UserHeapImages.ImageBacking` | arch/src/x86_64/process/mod.rs:190-266 | the frames behind a new process are exactly those of its stack and its sections, each behind one page |
| `UserHeapImages.ImageHoldsEntryAndStack` | arch/src/x86_64/process/mod.rs:190-266 | the page at 0x200000 holds the first frame of the first section that has pages, the page at 0x7fffffffe000 the first stack frame |
| `ProcessImage.LoadSections` | arch/src/x86_64/process/mod.rs:225-266 | the section loops succeed if and only if no two sections collide, no page is mapped already and every mapping call finds its table frames; then every page of every section is mapped to its frame and nothing else is |
| `ProcessImage.LoadedIsPlaced` | arch/src/x86_64/process/mod.rs:225-266 | loadable sections end up with every page mapped to its frame, all pages different, and nothing else mapped |
| `ProcessImage.SharedPageIffCollide` | arch/src/x86_64/process/mod.rs:225-266 | two sections get a page in common exactly when the gap between their first pages is even and less than twice the first one's length |
| `ProcessImage.ContiguousIffOnePage` | arch/src/x86_64/process/mod.rs:228-229 | a section lies in consecutive pages if and only if it has at most one page |
| `ProcessImage.TwoSectionsLoadIff` | arch/src/x86_64/process/mod.rs:225-266 | two sections load together if and only if one is empty or the first has an odd number of pages |
| `Scheduler.Scheduler.constructor` | core/src/scheduler.rs:8-17 | both queues empty, a normal process next, current id 16383 |
| `Scheduler.Scheduler.SwitchTask` | arch/src/x86_64/scheduler.rs:9-186 | both branches of the timer interrupt as one symmetric step; keeps queues and tables in agreement |
| `Scheduler.Scheduler.ToDriver` | arch/src/x86_64/scheduler.rs:245-270 | the head of the driver queue is dispatched with its saved registers and its own page table, and goes to the end |
| `Scheduler.Scheduler.ToNormal` | arch/src/x86_64/scheduler.rs:274-299 | the head of the normal queue is dispatched with its saved registers and saved page table, and goes to the end |
| `Scheduler.Scheduler.CreateProcess` | arch/src/x86_64/process/mod.rs:276-323 | first absent slot, end of the queue; a table with room is required because the slot is unwrapped |
| `Scheduler.Scheduler.RemoveProcess` | arch/src/x86_64/process/mod.rs:331-386 | InvalidIndex, ProcessNotExist, or slot cleared and every queue entry of it dropped |
| `Scheduler.Scheduler.Retain` | arch/src/x86_64/process/mod.rs:360 | keeps every other queue entry in order |
| `SchedulerSpec.TickKeepsOk` | arch/src/x86_64/scheduler.rs:33-186 | a tick keeps queues equal to the present slots, dispatches the head whenever the class in turn has a process, and never takes the dispatchers' error returns |
| `SchedulerSpec.CreateKeepsOk` | arch/src/x86_64/process/mod.rs:276-323 | creation keeps queues equal to the present slots |
| `SchedulerSpec.RemoveKeepsOk` | arch/src/x86_64/process/mod.rs:341-386 | removal keeps queues equal to the present slots |
| `SchedulerSpec.NewRegisters` | arch/src/x86_64/process/mod.rs:56-86 | a new process has the interrupt flag and the identification flag set, and zero in every general register it is not given |
| `SchedulerRuns.RemoveExactly` | arch/src/x86_64/process/mod.rs:331-386 | removal succeeds exactly for a present process, InvalidIndex exactly from 16384 on, ProcessNotExist exactly otherwise; a removed process is in neither table nor queue, all others keep their slots |
| `SchedulerRuns.RemoveKeepsOrder` | arch/src/x86_64/process/mod.rs:360 | after a removal the others wait in the order they waited in |
| `SchedulerRuns.RemovedIsNeverDispatched` | arch/src/x86_64/process/mod.rs:341-386 | in every run, once a present process is removed no tick dispatches it until its slot is filled again |
| `SchedulerRuns.EveryStateIsOk` | arch/src/x86_64/scheduler.rs:33-299 | in every state of every run from a state in order the queues have no duplicates, hold exactly the present slots, and the current id is in bounds |
| `SchedulerRuns.EveryStateFromBootIsOk` | arch/src/x86_64/scheduler.rs:33-299 | the same for every run from boot |
| `SchedulerRuns.EventProgress` | arch/src/x86_64/scheduler.rs:42-152 | an event dispatches a waiting process or leaves it no further back, and a tick uses up its waiting budget |
| `SchedulerRuns.WaitingUsesUpTheBudget` | arch/src/x86_64/scheduler.rs:42-152 | as long as a process is not dispatched its position never grows and every tick comes off its budget |
| `SchedulerRuns.DispatchedWithinBound` | arch/src/x86_64/scheduler.rs:42-152 | with p others ahead a process is dispatched within 2p+1 or 2p+2 ticks, whatever is created, removed or run meanwhile, unless it is itself removed |
| `SchedulerRuns.FirstDispatchIsExact` | arch/src/x86_64/scheduler.rs:51-180 | while both classes are busy the first dispatch comes at exactly that tick, so the bound is tight |
| `SchedulerContexts.TickIsGoodIffSaveIsSafe` | arch/src/x86_64/scheduler.rs:51-180 | a dispatching tick preserves every process's registers for all interrupted registers if and only if it saves into the running process's own slot, or, with none running, into an unused slot |
| `SchedulerContexts.UnsafeSaveLosesRegisters` | arch/src/x86_64/scheduler.rs:59-62 | an unsafe save loses or overwrites some process's registers, with the registers that show it |
| `SchedulerContexts.AlignedAfterDispatchIff` | arch/src/x86_64/scheduler.rs:53-57 | the turn flag stays opposite to the running class after a dispatch if and only if the other class has a process |
| `SchedulerContexts.EverySafeRunIsFaithful` | arch/src/x86_64/scheduler.rs:49-299 | over every run in which each dispatching tick saves safely, whatever is created or removed, each process resumes with the registers (and, if normal, page table) of its last preemption or of its creation |
| `SchedulerContexts.EveryDispatchResumesFaithfully` | arch/src/x86_64/scheduler.rs:49-180 | over every run with both queues busy at each tick and no reuse of a removed running process's slot before the next tick, dispatches alternate between the classes and each process resumes with the registers (and, if normal, page table) of its last preemption or of its creation |
| `SchedulerContexts.EveryDispatchFromBootResumesFaithfully` | arch/src/x86_64/scheduler.rs:49-180 | the same for every such run from boot, with nothing else assumed of the first state |
| `SchedulerContexts.EveryIdleTickReturnsHome` | arch/src/x86_64/scheduler.rs:42-152 | at every tick of every run from boot that dispatches nobody: with no process at all the kernel's table 0x100000 stays and nothing changes; otherwise the turn passes and the interrupted code goes on under the page table the running process was created with or, with none running, under that of the last process created in the current slot of the class that is not in turn, 0x100000 if there was none |
| `SchedulerContexts.SingleClassProcessesStartOver` | arch/src/x86_64/scheduler.rs:51-180 | over every run with processes of one class only, every dispatch starts its process over from its creation registers |
| `SchedulerContexts.LostRegistersExample` | arch/src/x86_64/scheduler.rs:120-179 | one process and two ticks: whatever registers the second tick finds, the process is resumed with its creation registers |
| `BootPaging.PageTables.constructor` | arch/src/x86_64/memory/mod.rs:69-75 | the table memory is cleared before the tables are built |
| `BootPaging.PageTables.Fill` | arch/src/x86_64/memory/paging.rs:52-60 | a range of entries maps consecutive pages and nothing else changes |
| `BootPaging.PageTables.MapWindow` | arch/src/x86_64/memory/paging.rs:71-83 | nested loops: table after table of 4 KiB pages from 2 MiB on, linked from the directory |
| `BootPaging.PageTables.Init` | arch/src/x86_64/memory/paging.rs:27-150 | the loops and single stores leave exactly the closed-form contents of all 37 tables |
| `AddressSpaces.KernelTranslation` | arch/src/x86_64/memory/paging.rs:46-150 | the four-level walk of every canonical address outside the framebuffer entry: identity below 1 GiB, the kernel window, the two shared windows, and nothing else |
| `AddressSpaces.LowGigabyteIsIdentity` | arch/src/x86_64/memory/paging.rs:46-60 | every address below 1 GiB translates to itself, writable |
| `AddressSpaces.DriverUpperHalf` | arch/src/x86_64/memory/paging.rs:95-142 | the complete translation of a driver's upper half |
| `AddressSpaces.NormalUpperHalf` | arch/src/x86_64/process/mod.rs:174-187 | the complete translation of a normal process's upper half: the kernel's own |
| `AddressSpaces.WindowsAgree` | arch/src/x86_64/memory/paging.rs:64-142 | for the first 38 MiB the kernel and driver views translate alike, to offset + 2 MiB, and the driver view carries the writable flag nowhere |
| `AddressSpaces.WindowsDisagreeBeyond` | arch/src/x86_64/memory/paging.rs:90-142 | beyond 38 MiB the driver view goes on to 48 MiB where the kernel view has nothing |
| `AddressSpaces.DriverWritesOnlySharedMemory` | arch/src/x86_64/process/mod.rs:175-181 | with CR0 write protection, a driver can write through its upper half only to physical 0x1800000 to 0x1e00000, never to the page tables and never to a page the frame allocator hands out |
| `AddressSpaces.DriverIsConfinedIffWriteProtected` | arch/src/x86_64/process/mod.rs:73-86 | because drivers run with the kernel's selectors, that confinement holds if and only if CR0 write protection is on |
| `AddressSpaces.NewProcessStartsInItsImage` | arch/src/x86_64/process/mod.rs:56-86 | the first instruction is in the first frame of the first section that has pages, the first push goes to the first stack frame, both mapped by the creation loops, interrupts are enabled, and the selectors are those of the class |
| `AddressSpaces.NothingIsUserAccessible` | arch/src/x86_64/memory/paging.rs:116-124 | no boot translation is user accessible, although one leaf entry carries the user flag |
| `AddressSpaces.FramebufferEntry` | arch/src/x86_64/memory/paging.rs:144-150 | below top-level entry 448 the walk goes on in the loader's framebuffer table, with a present, writable supervisor entry |
| `AddressSpaces.SharedEntriesAreGlobal` | arch/src/x86_64/memory/paging.rs:95-124 | exactly the three entries of the shared windows are global, and exactly the last of them carries the user flag |
| `Ansi.FeedAgreesWithReading` | core/src/output/console.rs:91-141 | for every byte string the byte-at-a-time parser does what the recursive reading of text and control sequences says |
| `Ansi.FeedStopsWithReading` | core/src/output/console.rs:91-141 | for every byte string the parser stops where the reading stops: in text, behind an escape character, or inside a control sequence with the parameters of its body stored |
| `Ansi.FeedSequence` | core/src/output/console.rs:114-139 | a complete control sequence yields one command with the body's numbers, the first sixteen of them, modulo 65536 |
| `Ansi.ParametersRoundTrip` | core/src/output/console.rs:91-141 | any non-empty list of 16-bit numbers rendered as a control sequence is read back as its first sixteen members |
| `Terminal.ColorsAreDistinguished` | core/src/output/color.rs:38-47 | pixels fit 32 bits, and different colours have different pixels |
| `Terminal.LastParameterWins` | core/src/output/console.rs:230-265 | each colour plane is set by the last parameter that concerns it, zero resetting both |
| `Terminal.PaletteIsThreeBits` | core/src/output/console.rs:246-262 | the code of a colour has one bit each for red, green and blue |
| `Canvas.SequenceSetsColors` | core/src/output/console.rs:114-265 | a control sequence with any non-empty list of 16-bit numbers sets each colour plane by the last of the first sixteen that concerns it when it ends in m, and does nothing otherwise |
| `Terminal.PutKeepsWell` | core/src/output/console.rs:144-202 | cursor and grid stay in shape: column at most the width, row at most the height |
| `Terminal.CharacterAppearsIff` | core/src/output/console.rs:158-179 | a character appears on the screen if and only if it does not have to wrap on or below the last row |
| `Terminal.TypedTextFillsTheGrid` | core/src/output/console.rs:144-202 | text that fits, typed from the top left, fills the rows in reading order and leaves every other cell alone |
| `Terminal.FullScreenLosesNextCharacter` | core/src/output/console.rs:158-179 | the first character after a full screen is lost and changes no cell |
| `Terminal.ScreenShowsTheLastLines` | core/src/output/console.rs:68-202 | any number of lines that fit the width leave a cleared screen showing the last of them in order |
| `Terminal.PlainTextIsTyped` | core/src/output/console.rs:271-275 | text without escape characters is typed as it stands |
| `Canvas.PutAtKeepsOk` | core/src/output/console.rs:144-202 | on a screen of any height the cursor stays on the screen or just behind it and the screen keeps its shape |
| `Canvas.CharacterIsWholeIff` | core/src/output/console.rs:145-179 | on a screen of any height a character is shown whole if and only if it does not have to wrap with less than two rows left at the cursor |
| `Canvas.PutAtStands` | core/src/output/console.rs:144-202 | on a height of whole text rows printing on pixel lines is printing on the character grid |
| `Canvas.PerformOnStands` | core/src/output/console.rs:91-202 | likewise for any sequence of parser actions |
| `Pixels.ScrollShows` | core/src/output/console.rs:68-85 | for any height, moving the memory up by sixteen lines and clearing the end renders the scrolled screen |
| `Pixels.DrawnShows` | core/src/output/console.rs:163-199 | for any height and any top line, a glyph drawn at a cell's column renders its visible lines there and changes nothing else |
| `GlyphBits.MaskReadsDigit` | core/src/output/console.rs:170-181 | the shifted mask reads the binary digits of a glyph's line from the left |
| `Pixels.WholeIsPainted` | core/src/output/console.rs:163-199 | a character shown whole has, at line l and column i of its box, alpha, red, green and blue of the foreground when digit i of the glyph's line l is one, of the background otherwise |
| `Console.Console.ScrollUp` | core/src/output/console.rs:68-85 | the memory move and the clearing stay inside the framebuffer and shift it by sixteen lines |
| `Console.Console.StorePixel` | core/src/output/console.rs:180-196 | a pixel store is inside the framebuffer and changes no other position |
| `Console.Console.DrawGlyph` | core/src/output/console.rs:167-199 | the nested pixel loops draw exactly the clipped glyph |
| `Console.Console.PrintNormalChar` | core/src/output/console.rs:144-202 | scroll, newline, wrap and clipped drawing are one step of the screen, for every screen that fits one character, and the framebuffer keeps rendering that screen; a character that need not wrap into a missing row leaves its glyph's pixels, in the two colours, at its place in memory |
| `Console.Console.StoreParam` | core/src/output/console.rs:209-215 | stores the parameter, or drops it when sixteen are stored |
| `Console.Console.HandleSgr` | core/src/output/console.rs:230-268 | applies the stored parameters in order; none at all count as one zero |
| `Console.Console.PrintChar` | core/src/output/console.rs:91-141 | one byte is one parser step, its actions performed on the screen |
| `Console.Console.PrintString` | core/src/output/console.rs:271-275 | for any byte string whose printed characters have glyphs, on every screen that fits one character: the framebuffer renders the screen obtained by performing the recursive reading of the string, the parser stops where that reading stops, and on a height of whole text rows the screen is the character grid the same actions make |

## Left out

- Machine-width overflow of `usize` and `u64` sums in the frame allocator and its memory map: numbers are unbounded there. The heap system call needs no such bound, because its addresses are proved to stay below the stack. The console's 16-bit parameters wrap, as in a build without overflow checks.
- Inline assembly, interrupt entry and stack-frame offsets, page-table register loads, locks: a locked or interrupt-free section is one atomic step, and the interrupted registers are inputs.
- The page-table library and its `clean_up`: abstracted as described above; clean-up is a release by the page tables' client.
- Flags of user mappings.
- Growth of the kernel's other lists (section list, ready queues): in the runs it is a step of another client of the frame allocator, and a growth that fails, which stops the kernel, simply ends the run.
- UserHeapCount.AllocateSucceedsIffEnough: like the other counted results it counts frames only while a list fits one frame; beyond that contiguity matters, UserHeapDemand.AllocateEndsAsFated gives the condition and UserHeapDemand.AllocateSucceedsFromOneRun a sufficient count.
- Parsing of executables, file systems, ACPI, PCI, device mapping, logging, serial output, power actions, exception handlers.
- `copy_buffer_to_kernel` and later changes to the boot page tables by the memory manager's start-up.
- Process fields that scheduling and the heap call do not use: status, priority, stack bottom, heap bottom.
- Framebuffers with other than four bytes per pixel: memory is modelled in pixels, its pitch in whole pixels.
- Colour arithmetic other than the 32-bit pixel value, and the font's bitmaps, which are a parameter.
- Cursor movement commands, which the console accepts and ignores.
