# Kosh kernel managers, verified

A Dafny model of the memory, process and IPC managers of the Kosh microkernel, of its
driver-unload traversal and of its VGA text driver. `dafny verify dfyconfig.toml` checks it all.

Each component has a value-level specification (a state, a function per operation, an
invariant) with lemmas over all runs, and imperative classes with the source's fields and loops
that are proved to compute that specification.

| file | component |
|---|---|
| `HeapSpec.dfy`, `HeapRuns.dfy`, `KernelHeap.dfy` | kernel heap: tiling, free list, counters; headers and links in memory |
| `Frames.dfy`, `FrameRuns.dfy`, `BootMap.dfy` | physical frame bitmap; runs of grants; what the boot memory map leaves free |
| `SwapDevices.dfy`, `SwapSpace.dfy`, `SwapStores.dfy` | swap slots and byte stores; the swap manager's two maps; the bounded map they amount to |
| `Replacement.dfy`, `Clock.dfy`, `SwapperSpec.dfy`, `SwapperOrder.dfy`, `SwapperHistory.dfy`, `PageSwapper.dfy` | LRU, FIFO, Clock; the page swapper over all of them and the swap manager, as a value and as a class, and its records against the history of accesses |
| `Processes.dfy`, `Zombies.dfy`, `ProcessTable.dfy`, `PriorityLevels.dfy`, `Power.dfy`, `Scheduling.dfy` | process table, zombie cascades, round-robin, priority and least-CPU-time scheduling with its feedback through power management |
| `MessageQueues.dfy`, `Capabilities.dfy`, `Ipc.dfy` | priority queues, capability provenance, the send gate |
| `UnloadOrder.dfy` | driver unload order over arbitrary graphs |
| `VgaText.dfy` | scrolling text buffer against a wrapped layout |
| `Types.dfy`, `Collections.dfy` | shared types; facts about sequences and sets |

Integers are mathematical; where the source's arithmetic saturates, wraps or can go below zero
this is modelled and stated. Results of the frame allocator (for the heap), times, live processes
(for the send gate) and the sizes of Rust types (`Sizes` for message headers and capabilities)
are inputs. The heap header is 40 bytes, its size on x86-64 in release builds.

## What does not hold, and exactly when it does

- Heap statistics: `allocate` charges the request and `deallocate` credits the block, so
  `current_bytes` can go below zero. `UnderflowIff` gives the condition, `CurrentBytesUnderflows` a run.
- Heap initialisation: a second call keeps the counters; `ResetInvIff` says when that is sound,
  `ResetCanBreak` gives a case. A header with the magic number that is no block's is listed as free
  (`Deallocate`, `AdoptedIsUnsound`).
- Heap alignment: the fit test demands the offset to the next page boundary and ignores the
  requested alignment, so a fresh heap cannot serve its last page (`FreshHeapGrants`) and a
  one-page heap serves nothing.
- Clock victim search: it indexes out of bounds exactly when every bit is set and the hand is at
  the end (`SelectedMeaning`), which is reachable (`PanicIsReachable`), also in the middle of a batch
  of evictions (`EvictManyPanics`, `BatchCanPanic`). Clock with capacity zero panics at its first
  access (`AccessPage`).
- LRU after a switch of algorithm: its list follows the access records exactly if no access made
  meanwhile is of a page it lists behind another (`AlignedIffSeen`, `SwitchMisleadsLru`).
- Swap device removal: it breaks the maps exactly when a page lives on a higher-numbered device
  (`RemoveDeviceIff`), which is reachable from boot (`RemovalCanStrand`).
- Memory pressure: at the default threshold the check never evicts except under LFU
  (`DefaultThresholdIsIdle`). A page can be tracked while swapped out exactly if an access is
  recorded for it then (`SeparateIffResident`, `AccessCanOverlap`).
- Unload order: the comment promises the reverse of the dependency order; the code delivers it
  exactly on layered graphs (`SafeIffLayered`, `DiamondIsUnsafe`).
- Frame statistics: `used_frames` starts at zero over an all-used bitmap and is short by
  `total_frames` (`ReportStats`).
- Boot map: a frame with bytes of the bitmap is kept exactly if it begins inside it (`BitmapKeptIff`); the
  page-aligned start the source chooses makes that all of them (`BitmapIsKept`).
- Frame grants: they stay disjoint and accounted for exactly if only live grants or free frames are
  given back (`SoundIffLegal`), and out of low memory exactly if no low frame is (`LowKeptIff`,
  `FrameZeroCanBeGranted`).
- Process table: slots are never reused, so the limit counts creations (`FullIffCreatedEnough`,
  `EmptyTableIsFull`); a switch revives any process, zombies included (`SwitchRevives`); a state set
  by hand can make a second process run (`SingleIffLegal`, `TwoCanRun`).
- Scheduling: a picked process is left ready exactly if it was current and ready (`PickRunsIff`,
  `PickCanWait`). Priority scheduling promises rotation within a level, which never happens: each call
  picks the first process of the level most urgent to the policy it sees (`PicksUnder`,
  `StarvesIff`, `SecondNeverRuns`). The notifications of a call can change the policy of the next
  (`BoostChangesPick`), but only a bounded number of times (`PrioritySettles`).
- Delegation: nothing sets the delegatable flag, so from boot it is always refused (`DelegationIsDead`).
- Page swapping: a victim is stored as a zero page (`RunStoresZeros`) and the page-fault handler drops the
  bytes it reads; the model does the same.

## Model

| member | source | states |
|---|---|---|
| `HeapSpec.FirstFit` | kernel/src/memory/heap.rs:268-289 | the first listed block that passes the size-plus-offset test, and none before it does |
| `HeapSpec.TilingCovers` | kernel/src/memory/heap.rs:292-314 | in a tiling every byte of the heap lies in exactly one block |
| `HeapSpec.SpanLaw` | kernel/src/memory/heap.rs:292-314 | free sizes, live sizes and one header per block add up to the heap size |
| `HeapRuns.AllocateKeepsInv` | kernel/src/memory/heap.rs:170-219 | an allocation keeps the tiling, the list of exactly the free blocks and the counter law; free_bytes does not go below zero; a failed one changes nothing |
| `HeapRuns.DeallocateKeepsInv` | kernel/src/memory/heap.rs:222-265 | a deallocation keeps the same invariant and the accumulated waste; a double free changes nothing |
| `HeapRuns.StepKeepsInv` | kernel/src/memory/heap.rs:170-265 | every legal operation keeps the invariant and the heap's bounds |
| `HeapRuns.InitInv` | kernel/src/memory/heap.rs:129-167 | the freshly initialised heap satisfies the invariant |
| `HeapRuns.ResetInvIff` | kernel/src/memory/heap.rs:129-167 | initialising again keeps the counters, and is sound if and only if no allocation or byte is outstanding and the frame is not frame 0 |
| `HeapRuns.ResetCanBreak` | kernel/src/memory/heap.rs:129-167 | a concrete case: one allocation on a fresh heap, then initialisation again, and the counters belong to no heap |
| `HeapRuns.AdoptedIsUnsound` | kernel/src/memory/heap.rs:222-265 | listing a header that belongs to no block breaks the invariant of every heap |
| `HeapRuns.RunKeepsInv` | kernel/src/memory/heap.rs:170-265 | after every run the blocks tile the heap exactly and the list holds exactly the free blocks |
| `HeapRuns.RunKeepsBlocks` | kernel/src/memory/heap.rs:170-314 | over every run block boundaries only grow in number, and a live block not freed by the run is still there with the same size |
| `HeapRuns.LiveDataDisjoint` | kernel/src/memory/heap.rs:170-314 | after every run the data of two blocks are disjoint, neither overlaps the other's header, and both lie inside the heap |
| `HeapRuns.GrantIsFresh` | kernel/src/memory/heap.rs:170-219 | a granted pointer is the data of a block that was free, is at least as large as requested, and wastes less than a header plus the minimum size |
| `HeapRuns.GrantIsExact` | kernel/src/memory/heap.rs:170-219 | the block at the granted pointer was free, is live and unlisted afterwards, and is cut to exactly the needed size if a header and a minimum block still fit behind it, else given whole |
| `HeapRuns.GrantIsFirstFit` | kernel/src/memory/heap.rs:268-289 | the granted block is the first in list order that passes the test |
| `HeapRuns.FreedComesBack` | kernel/src/memory/heap.rs:222-289 | a block just freed is tried first: a request that fits it gets the same pointer back |
| `HeapRuns.FitsMeaning` | kernel/src/memory/heap.rs:268-289 | a free block fits if and only if the request does between the first page boundary in its data and its end |
| `HeapRuns.BlocksStayRoomy` | kernel/src/memory/heap.rs:292-314 | over every run no block, free or live, is smaller than the minimum allocation size |
| `HeapRuns.FailsOnlyWhenNothingFits` | kernel/src/memory/heap.rs:170-179 | within the size limit an allocation fails if and only if no block of the heap passes the test |
| `HeapRuns.WasteLaw` | kernel/src/memory/heap.rs:197-206 | the waste after a run is the sum of what each allocation got beyond what it was charged |
| `HeapRuns.CountersAfterRun` | kernel/src/memory/heap.rs:151-161 | current_bytes is the live bytes minus the accumulated waste; current_bytes plus free_bytes is constant; free_bytes is never below the free sizes; current_allocations counts the live blocks |
| `HeapRuns.PeakIsMaximum` | kernel/src/memory/heap.rs:197-206 | over every run peak_bytes is the largest value current_bytes has had, at any moment |
| `HeapRuns.UnderflowIff` | kernel/src/memory/heap.rs:250-255 | the subtraction from current_bytes goes below zero if and only if the live bytes that remain are fewer than the accumulated waste |
| `HeapRuns.CurrentBytesUnderflows` | kernel/src/memory/heap.rs:250-255 | on a two-page heap at any page-aligned address, a legal run of two allocations and their two frees leaves current_bytes at -30 |
| `HeapRuns.FreshHeapGrants` | kernel/src/memory/heap.rs:268-289 | a fresh heap grants a request if and only if it fits the limit and all but one page: the offset to the next page boundary is always demanded |
| `KernelHeaps.KernelHeap.constructor` | kernel/src/memory/heap.rs:117-126 | an uninitialised heap |
| `KernelHeaps.KernelHeap.Init` | kernel/src/memory/heap.rs:129-167 | both error cases leave the heap alone; otherwise one block over the frames obtained, on any earlier state; the invariant holds afterwards if and only if the frame is not 0 and nothing was outstanding |
| `KernelHeaps.KernelHeap.FindFreeBlock` | kernel/src/memory/heap.rs:268-289 | walking the next links finds exactly the first fit of the abstract list |
| `KernelHeaps.KernelHeap.SplitBlock` | kernel/src/memory/heap.rs:292-314 | the pointer rewrite makes the abstract split, and puts the rest at the head of the list; when it splits and into what is `GrantIsExact` and `BlocksStayRoomy` |
| `KernelHeaps.KernelHeap.AddToFreeList` | kernel/src/memory/heap.rs:317-329 | the links spell the old list with the block in front, forwards and backwards, and no other header data changes |
| `KernelHeaps.KernelHeap.RemoveFromFreeList` | kernel/src/memory/heap.rs:332-349 | the links spell the old list without its k-th block, forwards and backwards, and no other header data changes |
| `KernelHeaps.KernelHeap.Take` | kernel/src/memory/heap.rs:181-195 | split, mark used and unlink together have the effect of the abstract allocation |
| `KernelHeaps.KernelHeap.ChargeAllocation` | kernel/src/memory/heap.rs:197-206 | the counters are charged with the requested size, peak included |
| `KernelHeaps.KernelHeap.Allocate` | kernel/src/memory/heap.rs:170-219 | result and new heap are those of the abstract allocation, too-large and out-of-memory included |
| `KernelHeaps.KernelHeap.Deallocate` | kernel/src/memory/heap.rs:222-265 | null header, bad magic number and double free are refused and change nothing; a live block is freed as in the abstract deallocation; a header with the magic number that belongs to no block is credited and listed all the same, and exactly then the heap is no longer sound |
| `KernelHeaps.KernelHeap.Release` | kernel/src/memory/heap.rs:239-261 | one rewrite of flag, counters and links has the effect of the abstract deallocation, or of listing a foreign header |
| `KernelHeaps.KernelHeap.ValidateHeap` | kernel/src/memory/heap.rs:392-431 | in every valid state validation succeeds if and only if the list has at most 10000 blocks |
| `KernelHeaps.SplitHeaders` | kernel/src/memory/heap.rs:292-314 | the header written by a split is at an address no block had, and afterwards every block has its own header |
| `Frames.SetBit` | kernel/src/memory/physical.rs:295-313 | or-ing a mask sets one bit of a byte and no other |
| `Frames.ClearBit` | kernel/src/memory/physical.rs:316-334 | and-ing a complemented mask clears one bit of a byte and no other |
| `Frames.DecodeWrite` | kernel/src/memory/physical.rs:295-334 | storing one byte with one bit changed changes exactly that frame of the decoded map |
| `Frames.RunCounts` | kernel/src/memory/physical.rs:219-254 | a free run of n frames means at least n are counted free, and filling it lowers the count by n |
| `Frames.FillRoundTrip` | kernel/src/memory/physical.rs:219-276 | freeing a run just taken restores the whole map |
| `Frames.GrantedIsFirst` | kernel/src/memory/physical.rs:219-254 | the abstract grant is the only answer first fit allows |
| `FrameRuns.StepSoundIff` | kernel/src/memory/physical.rs:219-276 | an operation keeps the live grants disjoint, in use and accounted for in the free count if and only if a deallocation is of a live grant or of frames that are all free |
| `FrameRuns.SoundIffLegal` | kernel/src/memory/physical.rs:191-276 | over every run of allocations and arbitrary deallocations the same holds throughout if and only if every deallocation is of that kind |
| `FrameRuns.ClearedCounts` | kernel/src/memory/physical.rs:257-276 | freeing a range raises the free count if and only if one of its frames was in use |
| `FrameRuns.LowKeptIff` | kernel/src/memory/physical.rs:162-276 | over every run low memory stays in use throughout if and only if no deallocation names a frame of it |
| `FrameRuns.LowGrantedIff` | kernel/src/memory/physical.rs:191-254 | while low memory is in use no request is granted any of it; as soon as a frame of it is free, the next single frame is one |
| `FrameRuns.LowNeverGranted` | kernel/src/memory/physical.rs:162-276 | after boot and any run whose deallocations name no low frame, no grant is in low memory |
| `FrameRuns.FrameZeroCanBeGranted` | kernel/src/memory/physical.rs:257-269 | giving frame 0 back after boot is accepted and the next single frame granted is frame 0 |
| `BootMap.AreaFrames` | kernel/src/memory/physical.rs:154-158 | the frames of an area are exactly those its addresses touch, partly covered ones included |
| `BootMap.OfferedIsFree` | kernel/src/memory/physical.rs:152-188 | after boot a frame that an available area touches, above 1 MB and without a byte of the bitmap, is free |
| `BootMap.RestIsKept` | kernel/src/memory/physical.rs:152-188 | a frame no available area touches, or below 1 MB, is as it was |
| `BootMap.BitmapKeptIff` | kernel/src/memory/physical.rs:162-177 | a frame with bytes of the bitmap stays in use if and only if it begins inside the bitmap |
| `BootMap.BitmapIsKept` | kernel/src/memory/physical.rs:103-177 | the bitmap starts on a page boundary, so no frame with a byte of it is free after boot |
| `BootMap.ReservedCounts` | kernel/src/memory/physical.rs:162-184 | the reserved count of an area is the number of its frames held back, or in an unavailable area of those that exist |
| `Frames.PhysicalMemoryManager.constructor` | kernel/src/memory/physical.rs:127-137 | every frame starts in use |
| `Frames.PhysicalMemoryManager.ParseMemoryMap` | kernel/src/memory/physical.rs:152-188 | after boot a frame is free if and only if some available area holds it and it is neither low memory nor the bitmap; reserved_frames counts every skipped or unavailable frame of every area; an end address of 0 wraps around |
| `Frames.PhysicalMemoryManager.ParseArea` | kernel/src/memory/physical.rs:154-184 | one area frees exactly its usable frames, or counts itself reserved |
| `Frames.PhysicalMemoryManager.IsFrameFree` | kernel/src/memory/physical.rs:279-292 | true exactly for an existing frame whose bit is clear |
| `Frames.PhysicalMemoryManager.MarkFrameUsed` | kernel/src/memory/physical.rs:295-313 | sets exactly that frame and keeps the counters in step; frames out of range are ignored |
| `Frames.PhysicalMemoryManager.MarkFrameFree` | kernel/src/memory/physical.rs:316-334 | clears exactly that frame and keeps the counters in step; frames out of range are ignored |
| `Frames.PhysicalMemoryManager.FindInByte` | kernel/src/memory/physical.rs:199-211 | the first clear bit of a byte that belongs to a frame |
| `Frames.PhysicalMemoryManager.FindFree` | kernel/src/memory/physical.rs:197-213 | the lowest free frame, None if and only if there is none |
| `Frames.PhysicalMemoryManager.FindRun` | kernel/src/memory/physical.rs:228-251 | the lowest start of a free run, None if and only if there is none |
| `Frames.PhysicalMemoryManager.AllocateFrame` | kernel/src/memory/physical.rs:191-216 | takes the lowest free frame and changes no other; None if and only if every frame is in use |
| `Frames.PhysicalMemoryManager.AllocateFrames` | kernel/src/memory/physical.rs:219-254 | takes the lowest free run of that length and changes no other frame; None if and only if there is no such run or the count is zero |
| `Frames.PhysicalMemoryManager.TakeRun` | kernel/src/memory/physical.rs:242-244 | marks exactly the run |
| `Frames.PhysicalMemoryManager.DeallocateFrame` | kernel/src/memory/physical.rs:257-269 | frees exactly that frame; a free or missing frame is ignored |
| `Frames.PhysicalMemoryManager.DeallocateFrames` | kernel/src/memory/physical.rs:272-276 | frees exactly the frames of the range that exist |
| `Frames.PhysicalMemoryManager.ReportStats` | kernel/src/memory/physical.rs:337-344 | free is the number of clear bits and reserved is what boot counted; used is minus the free count, so it is total minus free if and only if there are no frames |
| `SwapDevices.WrittenPage` | kernel/src/memory/swap_file.rs:97-111 | a page written to one slot is read back from it, and every other slot reads as before |
| `SwapDevices.AccessRefused` | kernel/src/memory/swap_file.rs:81-111 | an available file serves exactly the slots its bytes hold in full; which error otherwise, and exactly when |
| `SwapDevices.FileSwapDevice.constructor` | kernel/src/memory/swap_file.rs:24-37 | a zeroed store of 256 page slots per megabyte |
| `SwapDevices.FileSwapDevice.New` | kernel/src/memory/swap_file.rs:19-38 | size zero is refused; any other size gives an available zeroed device |
| `SwapDevices.FileSwapDevice.ReadPage` | kernel/src/memory/swap_file.rs:81-95 | both error cases leave the buffer alone; otherwise it receives the slot's bytes |
| `SwapDevices.FileSwapDevice.WritePage` | kernel/src/memory/swap_file.rs:97-111 | both error cases leave the store alone; otherwise only that slot changes |
| `SwapDevices.Probe` | kernel/src/memory/swap.rs:110-129 | going round from the hint, the first clear slot and only set ones before it |
| `SwapDevices.AllocatedMeaning` | kernel/src/memory/swap.rs:110-129 | a slot is found if and only if one is free; it was free, is now marked, and no other slot changes |
| `SwapDevices.AllocatedFirst` | kernel/src/memory/swap.rs:110-129 | the slot is the first free one in circular order from the hint, and the hint moves just past it |
| `SwapDevices.DeallocatedMeaning` | kernel/src/memory/swap.rs:132-150 | freeing a used slot clears exactly its bit and counts it |
| `SwapDevices.FreedIsNext` | kernel/src/memory/swap.rs:110-150 | a slot freed at or below the hint is the next one given out; otherwise the search goes on from the hint |
| `SwapDevices.SwapAllocator.constructor` | kernel/src/memory/swap.rs:100-107 | all slots free |
| `SwapDevices.SwapAllocator.AllocateSlot` | kernel/src/memory/swap.rs:110-129 | the search loop computes the abstract allocation |
| `SwapDevices.SwapAllocator.DeallocateSlot` | kernel/src/memory/swap.rs:132-150 | the abstract deallocation; which error and exactly when, without a change |
| `SwapSpace.TryDeviceFails` | kernel/src/memory/swap.rs:327-354 | a device that cannot take the page leaves maps, devices, free counts and stored bytes as they were |
| `SwapSpace.TryDeviceSucceeds` | kernel/src/memory/swap.rs:327-354 | a device that takes the page stores its bytes and disturbs no other page |
| `SwapSpace.TryDeviceIff` | kernel/src/memory/swap.rs:327-354 | a device takes the page if and only if it can be written and has a free slot |
| `SwapSpace.SwapOutMeaning` | kernel/src/memory/swap.rs:320-358 | the invariant is kept; which of the two errors, and when; on success the page is at the slot returned, on the first device with room, where the allocator gave it, that page's bytes are stored and no other page changes; on failure nothing is stored and every device keeps its room |
| `SwapSpace.SwapInMeaning` | kernel/src/memory/swap.rs:361-384 | the invariant is kept; the bytes returned are the stored ones, the page is no longer out, and no other page changes; it fails if and only if the page is not out |
| `SwapSpace.TotalsCover` | kernel/src/memory/swap.rs:281-384 | no decrement of the totals goes below zero: the used count is positive while a page is out, and the totals cover each device |
| `SwapSpace.AddKeepsInv` | kernel/src/memory/swap.rs:256-278 | adding a device keeps the invariant and every stored page |
| `SwapSpace.AddedDeviceHolds` | kernel/src/memory/swap.rs:256-278 | an unavailable device is refused, and a new file device with a slot makes the next swap-out succeed |
| `SwapSpace.RemovalKeepsInv` | kernel/src/memory/swap.rs:281-317 | removing an empty device above which no page lives keeps the invariant and every stored page |
| `SwapSpace.StrandedPage` | kernel/src/memory/swap.rs:304-314 | a page on a higher device is left pointing at an index where its data no longer is |
| `SwapSpace.RemoveDeviceIff` | kernel/src/memory/swap.rs:281-317 | a successful removal keeps the invariant if and only if no page lives on a higher-numbered device |
| `SwapSpace.RemovalCanStrand` | kernel/src/memory/swap.rs:281-317 | a run from boot (two devices, two pages out, one back in) after which removing device 0 leaves the other page on a device index that does not exist |
| `SwapSpace.RemovalMovesEntries` | kernel/src/memory/swap.rs:304-314 | after a removal the slot map follows the data: an entry exactly where its device had one under its old index, for the same page and with the same bytes |
| `SwapSpace.RemovalRefused` | kernel/src/memory/swap.rs:281-302 | refused if and only if the index does not exist or a page lives on the device, and then nothing changes |
| `SwapSpace.StepMeaning` | kernel/src/memory/swap.rs:256-384 | every operation, refused ones included, keeps the invariant and every page it does not swap in; only a removal that succeeds below a stored page is excluded |
| `SwapSpace.RunKeepsPages` | kernel/src/memory/swap.rs:256-384 | over every run without such a removal the two maps stay inverse, a slot is taken exactly when mapped, totals are the sums, and stored bytes stay until swapped in |
| `SwapSpace.SwapRoundTrip` | kernel/src/memory/swap.rs:320-384 | a page swapped out and, after any such run that does not swap it in, swapped in has exactly the bytes that were written |
| `SwapSpace.RunFromBoot` | kernel/src/memory/swap.rs:241-384 | after every such run from boot the invariant holds and exactly the pages that are out can be read back |
| `SwapSpace.RoomIff` | kernel/src/memory/swap.rs:320-358 | there is room for a page if and only if fewer pages are out than the file devices have slots, wherever the hints point |
| `SwapSpace.SwapIsBoundedStore` | kernel/src/memory/swap.rs:256-384 | over every run without removals devices, slots, hints and both maps together answer every call as one bounded map from frames to bytes |
| `SwapSpace.SwapManager.constructor` | kernel/src/memory/swap.rs:241-253 | no devices and no pages |
| `SwapSpace.SwapManager.AddDevice` | kernel/src/memory/swap.rs:256-278 | the abstract addition, unavailable device included, and the invariant |
| `SwapSpace.SwapManager.RemoveDevice` | kernel/src/memory/swap.rs:281-317 | the abstract removal, bad index and slots in use included; the invariant holds afterwards exactly under the stated condition |
| `SwapSpace.SwapManager.TryDeviceAt` | kernel/src/memory/swap.rs:327-354 | one turn of the device loop, the slot given back when the write fails |
| `SwapSpace.SwapManager.SwapOutPage` | kernel/src/memory/swap.rs:320-358 | the device loop computes the abstract swap-out, whose slot, device and effect are those of `SwapOutMeaning` |
| `SwapSpace.SwapManager.SwapInPage` | kernel/src/memory/swap.rs:361-384 | the abstract swap-in; under the invariant the device index it uses always exists |
| `Replacement.RecencyIsRecency` | kernel/src/memory/swap_algorithm.rs:88-114 | the recency list of a trace holds each accessed frame once, latest access first |
| `Replacement.LruHoldsMostRecent` | kernel/src/memory/swap_algorithm.rs:88-114 | after every access trace an LRU of capacity k holds exactly the first k frames of the recency list |
| `Replacement.LruInclusion` | kernel/src/memory/swap_algorithm.rs:88-114 | for every trace a smaller LRU's contents are a prefix of a larger one's |
| `Replacement.LruMissesMonotone` | kernel/src/memory/swap_algorithm.rs:88-114 | for every trace a larger LRU misses no more often than a smaller one |
| `Replacement.LruVictimIsLeastRecent` | kernel/src/memory/swap_algorithm.rs:88-134 | after every run of accesses and removals the last page of the list is the least recently used one of those tracked |
| `Replacement.ShiftKeepsIndex` | kernel/src/memory/swap_algorithm.rs:122-134 | decrementing the positions behind a removed page restores the position index |
| `Replacement.LRUReplacer.constructor` | kernel/src/memory/swap_algorithm.rs:79-85 | an empty replacer |
| `Replacement.LRUReplacer.AccessPage` | kernel/src/memory/swap_algorithm.rs:88-114 | the page moves or comes to the front, the list is cut to capacity, and the position map is the list's index |
| `Replacement.LRUReplacer.Reindex` | kernel/src/memory/swap_algorithm.rs:103-106 | the loop rebuilds the position map as the index of the list |
| `Replacement.LRUReplacer.Truncate` | kernel/src/memory/swap_algorithm.rs:108-113 | pages beyond capacity leave the list and the position map |
| `Replacement.LRUReplacer.GetVictimPage` | kernel/src/memory/swap_algorithm.rs:117-119 | None if and only if nothing is tracked; in every state some run of accesses and removals leads to, the victim's last use is before that of every other page |
| `Replacement.LRUReplacer.RemovePage` | kernel/src/memory/swap_algorithm.rs:122-134 | exactly that page leaves, and the position map stays the index |
| `Replacement.FifoHoldsLastAdmitted` | kernel/src/memory/swap_algorithm.rs:160-170 | after every access trace FIFO holds exactly the last k frames it admitted, oldest first |
| `Replacement.FifoVictimIsOldest` | kernel/src/memory/swap_algorithm.rs:160-182 | after every run of accesses and removals the first page of the queue is the one brought in longest ago |
| `Replacement.FIFOReplacer.constructor` | kernel/src/memory/swap_algorithm.rs:152-157 | an empty replacer |
| `Replacement.FIFOReplacer.AddPage` | kernel/src/memory/swap_algorithm.rs:160-170 | a new page is appended and the oldest dropped beyond capacity; a known page changes nothing |
| `Replacement.FIFOReplacer.DropOldest` | kernel/src/memory/swap_algorithm.rs:165-168 | the pages kept are the newest ones |
| `Replacement.FIFOReplacer.GetVictimPage` | kernel/src/memory/swap_algorithm.rs:173-175 | None if and only if nothing is tracked; in every state some run leads to, the victim was brought in before every other page still held |
| `Replacement.FIFOReplacer.RemovePage` | kernel/src/memory/swap_algorithm.rs:178-182 | exactly that page leaves |
| `ClockReplacement.Steps` | kernel/src/memory/swap_algorithm.rs:257-281 | the distance from the hand to the first unreferenced page, every page before it being referenced |
| `ClockReplacement.RunKeepsInv` | kernel/src/memory/swap_algorithm.rs:211-297 | for every capacity and every run of accesses, searches and removals the hand is at most the number of pages, which is at most the capacity, and no page is tracked twice |
| `ClockReplacement.SelectedMeaning` | kernel/src/memory/swap_algorithm.rs:252-285 | the victim is the first unreferenced page in circular order, or the hand's page if all are referenced; exactly the bits passed are cleared; it panics if and only if all bits are set and the hand is at the end |
| `ClockReplacement.PanicIsReachable` | kernel/src/memory/swap_algorithm.rs:283-284 | capacity one, two accesses and one search reach the out-of-bounds index |
| `ClockReplacement.TakingKeepsArmed` | kernel/src/memory/swap_algorithm.rs:252-297 | taking a victim out neither creates nor removes the arrangement that leads to the panic; in it the page at the hand is taken |
| `ClockReplacement.ReplacedMeaning` | kernel/src/memory/swap_algorithm.rs:230-249 | at capacity a new page displaces the first unreferenced page in circular order, or the starting one after a full turn; exactly the bits passed are cleared |
| `ClockReplacement.AccessSetsBit` | kernel/src/memory/swap_algorithm.rs:211-249 | after any access the page is tracked with its bit set: known, appended or replacing another |
| `ClockReplacement.AccessWithoutReplacing` | kernel/src/memory/swap_algorithm.rs:211-227 | unless a page has to go, an access changes no other page and no bit but its own, and does not move the hand |
| `ClockReplacement.SecondChance` | kernel/src/memory/swap_algorithm.rs:252-285 | a page whose bit is set is the victim only if every bit is set |
| `ClockReplacement.AccessedPageIsSpared` | kernel/src/memory/swap_algorithm.rs:211-297 | over every run: a page accessed since the hand last passed it is the next victim only if every bit is set |
| `ClockReplacement.SelectedHand` | kernel/src/memory/swap_algorithm.rs:252-285 | where the hand stands after a search: behind the victim, or where it was after a fruitless turn |
| `ClockReplacement.RemovalKeepsNext` | kernel/src/memory/swap_algorithm.rs:288-297 | a removal keeps the other pages, their bits and order, and the page the hand comes to next |
| `ClockReplacement.ClockReplacer.constructor` | kernel/src/memory/swap_algorithm.rs:202-208 | an empty clock |
| `ClockReplacement.ClockReplacer.AccessPage` | kernel/src/memory/swap_algorithm.rs:211-227 | the abstract access, whose effect is that of `AccessSetsBit` and `AccessWithoutReplacing`; panics if and only if the capacity is zero |
| `ClockReplacement.ClockReplacer.Turn` | kernel/src/memory/swap_algorithm.rs:257-281 | one turn of the hand stops at an unreferenced page or clears one bit and moves on |
| `ClockReplacement.ClockReplacer.ReplacePage` | kernel/src/memory/swap_algorithm.rs:230-249 | the unbounded loop terminates in the abstract replacement |
| `ClockReplacement.ClockReplacer.Probe` | kernel/src/memory/swap_algorithm.rs:257-281 | the search loop ends within one probe more than there are pages, at the first unreferenced page or back at the start |
| `ClockReplacement.ClockReplacer.GetVictimPage` | kernel/src/memory/swap_algorithm.rs:252-285 | the abstract search, panic included, within one probe more than there are pages |
| `ClockReplacement.ClockReplacer.RemovePage` | kernel/src/memory/swap_algorithm.rs:288-297 | the page leaves and the hand is adjusted so that it stays in range |
| `SwapperSpec.EvictMeaning` | kernel/src/memory/swap_algorithm.rs:442-466 | one eviction takes exactly the victim the algorithm chooses, if it can be stored: forgotten by records and replacers, newly stored; otherwise nothing changes but the clock |
| `SwapperSpec.EvictStops` | kernel/src/memory/swap_algorithm.rs:442-466 | an eviction that takes nothing has no candidate left or a victim that cannot be stored |
| `SwapperSpec.EvictManyMeaning` | kernel/src/memory/swap_algorithm.rs:438-477 | a batch evicts exactly as many different pages as it reports, each forgotten here and newly stored there |
| `SwapperSpec.EvictManyStops` | kernel/src/memory/swap_algorithm.rs:438-477 | a batch stops short only when no candidate is left or one cannot be stored |
| `SwapperSpec.StuckMeaning` | kernel/src/memory/swap_algorithm.rs:438-477 | while tracked and stored pages are apart, that means no candidate or a full store |
| `SwapperSpec.EvictManyPanics` | kernel/src/memory/swap_algorithm.rs:438-477 | a batch panics if and only if the algorithm is Clock, exactly the pages from a hand not at the front on are unreferenced, all of them can be stored, and more than them are asked for |
| `SwapperOrder.BatchCanPanic` | kernel/src/memory/swap_algorithm.rs:438-477 | three accesses under Clock with room for two pages: a batch of one succeeds, a batch of two panics after its first eviction |
| `SwapperSpec.RelievedMeaning` | kernel/src/memory/swap_algorithm.rs:423-435 | the pressure check evicts at most the excess over the threshold, and nothing at or below it |
| `SwapperSpec.Relief` | kernel/src/memory/swap_algorithm.rs:423-435 | relief takes the page count down by exactly the pages evicted, and never below the threshold |
| `SwapperSpec.RelievedStops` | kernel/src/memory/swap_algorithm.rs:423-435 | it evicts fewer than the excess only when no candidate is left or one cannot be stored, and panics exactly when such a batch does |
| `SwapperSpec.FaultedMeaning` | kernel/src/memory/swap_algorithm.rs:397-420 | a page that is out leaves the store and is recorded, counted once; no other page or record changes; tracked and stored pages stay apart |
| `SwapperSpec.RunKeepsInv` | kernel/src/memory/swap_algorithm.rs:361-521 | over every run of calls, algorithm switches included, every replacer's frames stay within the records and its capacity |
| `SwapperSpec.SeparateIffResident` | kernel/src/memory/swap_algorithm.rs:361-521 | throughout a run no page is both tracked and swapped out if and only if no access is recorded for a page that is out |
| `SwapperOrder.AccessCanOverlap` | kernel/src/memory/swap_algorithm.rs:361-521 | a run of three calls after which a page is both tracked and swapped out |
| `SwapperOrder.AlignedIffSeen` | kernel/src/memory/swap_algorithm.rs:361-521 | throughout a run the LRU list is in the order of the access records if and only if no access made under another algorithm is of a page that LRU lists behind another |
| `SwapperOrder.AlignedVictim` | kernel/src/memory/swap_algorithm.rs:480-498 | while that holds the LRU victim has the earliest access record of all pages LRU tracks |
| `SwapperOrder.SwitchMisleadsLru` | kernel/src/memory/swap_algorithm.rs:361-394 | a run with one switch to FIFO and back after which the LRU victim is the page accessed last |
| `SwapperHistory.RecordsAreHistory` | kernel/src/memory/swap_algorithm.rs:370-394 | over every run a page is recorded exactly if accessed since it was last evicted; its record counts those accesses, holds the time of the last and the address of the first, and is dirty if and only if one was a write |
| `SwapperHistory.LfuVictimIsLeastUsed` | kernel/src/memory/swap_algorithm.rs:480-498 | over every run the LFU victim has been accessed least often since its last eviction, lowest frame among equals |
| `SwapperHistory.RecordedIsCandidate` | kernel/src/memory/swap_algorithm.rs:370-394 | a recorded page can be chosen from then on, under every algorithm, unless there is no capacity; other replacers and records do not see the access |
| `SwapperHistory.StatisticsAreCounts` | kernel/src/memory/swap_algorithm.rs:361-477 | over every run from a new swapper the statistics and the clock count what happened, and pages out less pages back are what the store has gained |
| `SwapperHistory.RunStoresZeros` | kernel/src/memory/swap_algorithm.rs:442-448 | over every run whatever the swapper has stored is a page of zeros: the content of a victim is never saved |
| `SwapperSpec.RunBalance` | kernel/src/memory/swap_algorithm.rs:361-521 | over every run the pages stored are those counted out less those counted back in |
| `SwapperSpec.DefaultThresholdIsIdle` | kernel/src/memory/swap_algorithm.rs:347-435 | at the threshold a swapper is created with, the pressure check never evicts under LRU, FIFO or Clock, after any run |
| `PageSwapping.Backing.SwapOut` | kernel/src/memory/swap_algorithm.rs:445-448 | through the swap manager exactly that page is newly stored if it is not out and there is room, and nothing changes otherwise |
| `PageSwapping.Backing.SwapIn` | kernel/src/memory/swap_algorithm.rs:409-409 | through the swap manager a page that is out always comes back with its stored bytes, and only it leaves |
| `PageSwapping.PageSwapper.constructor` | kernel/src/memory/swap_algorithm.rs:347-358 | nothing recorded or tracked, for every capacity |
| `PageSwapping.PageSwapper.SetAlgorithm` | kernel/src/memory/swap_algorithm.rs:361-367 | a real switch is counted; records, replacers and their invariant are kept |
| `PageSwapping.PageSwapper.SetMemoryPressureThreshold` | kernel/src/memory/swap_algorithm.rs:518-521 | only the threshold changes |
| `PageSwapping.PageSwapper.AccessPage` | kernel/src/memory/swap_algorithm.rs:370-394 | the abstract access, and the invariant; panics if and only if the algorithm is Clock with capacity zero |
| `PageSwapping.PageSwapper.LeastUsed` | kernel/src/memory/swap_algorithm.rs:491-496 | the record with the fewest accesses, lowest frame among equals |
| `PageSwapping.PageSwapper.SelectVictimPage` | kernel/src/memory/swap_algorithm.rs:480-498 | the victim each algorithm defines; Nothing if and only if it tracks no page; only the clock may move |
| `PageSwapping.PageSwapper.RemoveFromTracking` | kernel/src/memory/swap_algorithm.rs:501-505 | the page leaves all three replacers and nothing else does |
| `PageSwapping.PageSwapper.EvictOne` | kernel/src/memory/swap_algorithm.rs:442-466 | replacers, records and swap manager together do the abstract eviction |
| `PageSwapping.PageSwapper.SwapOutPages` | kernel/src/memory/swap_algorithm.rs:438-477 | the loop evicts exactly as many different pages as it returns, each forgotten and newly stored, fewer than asked only when no candidate is left or one cannot be stored, and panics exactly under the stated condition |
| `PageSwapping.PageSwapper.CurrentPageCount` | kernel/src/memory/swap_algorithm.rs:508-515 | the number of pages the current algorithm tracks |
| `PageSwapping.PageSwapper.CheckMemoryPressure` | kernel/src/memory/swap_algorithm.rs:423-435 | evicts exactly the excess over the threshold unless no candidate is left or one cannot be stored, panics exactly under the stated condition, and keeps tracked and stored pages apart |
| `PageSwapping.PageSwapper.HandlePageFault` | kernel/src/memory/swap_algorithm.rs:397-420 | the abstract fault; it never returns an error, and panics if and only if the page was out and the algorithm is Clock with capacity zero |
| `Processes.SlotOf` | kernel/src/process/process.rs:245-292 | in every reachable table process i+1 can only be in slot i |
| `Processes.CreatedMeaning` | kernel/src/process/process.rs:245-279 | one new ready process with a PID larger than all live ones, listed with its parent if that is live; no other process changes |
| `Processes.FullIffCreatedEnough` | kernel/src/process/process.rs:245-279 | after every run creation returns the number of creations plus one as PID, and fails if and only if as many creations as the limit were attempted, however many processes are left |
| `Processes.EmptyTableIsFull` | kernel/src/process/process.rs:245-321 | a concrete run: create and remove one process under a limit of one, and the empty table refuses the next |
| `Processes.RemovedMeaning` | kernel/src/process/process.rs:294-321 | exactly one process goes, its listed children become zombies, its parent no longer lists it, and nothing else changes |
| `Processes.RemovalOrphans` | kernel/src/process/process.rs:294-321 | children of the removed process become zombies with exit code -1, its parent forgets it, every other process stays as it was |
| `Processes.SwitchedMeaning` | kernel/src/process/process.rs:351-372 | the named process becomes current and running whatever its state was, and the current one stops; a switch to a missing process fails but still stops the current one; nothing else changes |
| `Processes.SwitchRevives` | kernel/src/process/process.rs:196-201 | a terminated process that is switched to runs again, exit code and all |
| `Processes.CreatedKeeps` | kernel/src/process/process.rs:245-279 | creation keeps the forest and a single running process |
| `Processes.RemovedKeeps` | kernel/src/process/process.rs:294-321 | removal keeps the forest and a single running process |
| `Processes.SwitchedKeeps` | kernel/src/process/process.rs:351-372 | switching keeps the forest and a single running process |
| `Processes.StepKeepsFamily` | kernel/src/process/process.rs:161-446 | every operation, failed ones and states set by hand included, keeps PIDs unique and the child relation a forest |
| `Processes.StepSingleIff` | kernel/src/process/process.rs:161-446 | an operation keeps the single running process if and only if it does not set another process than the current one running by hand |
| `Processes.RunKeepsFamily` | kernel/src/process/process.rs:161-446 | after every run PIDs are unique and every listed child is live, names its parent and has a larger PID |
| `Processes.SingleIffLegal` | kernel/src/process/process.rs:161-446 | throughout a run only the current process runs if and only if no other is ever set running by hand |
| `Processes.TwoCanRun` | kernel/src/process/process.rs:161-165 | a concrete run after which two processes run: one switched to, the other set running by hand |
| `Processes.RunKeepsInv` | kernel/src/process/process.rs:161-446 | after every such run both hold |
| `Processes.RunIsForest` | kernel/src/process/process.rs:245-446 | after every run PIDs strictly increase along every path of listed children, so no process is its own descendant |
| `ZombieCleanup.PidsWhereMeaning` | kernel/src/process/process.rs:324-339 | the filter queries return exactly the matching processes, in increasing PID order |
| `ZombieCleanup.RemovedAllMeaning` | kernel/src/process/process.rs:436-443 | removing a list of processes removes exactly those, orphans exactly their surviving listed children, and changes no other state |
| `ZombieCleanup.PassRemovesZombies` | kernel/src/process/process.rs:429-446 | one pass removes exactly the zombies at its start and leaves all processes that are not their children in the state they were in |
| `ZombieCleanup.PassShrinks` | kernel/src/process/process.rs:429-446 | a pass that finds a zombie leaves fewer processes, so repeating it ends |
| `ZombieCleanup.DoomPasses` | kernel/src/process/process.rs:294-321 | being a descendant of a zombie is inherited by the next generation of zombies, in both directions |
| `ZombieCleanup.CascadeRemovesDescendants` | kernel/src/process/process.rs:294-446 | cleanup repeated until it finds nothing removes exactly the descendants of the initial zombies and leaves every other state as it was |
| `ProcessTables.ProcessTable.constructor` | kernel/src/process/process.rs:235-242 | an empty table |
| `ProcessTables.ProcessTable.CreateProcess` | kernel/src/process/process.rs:245-279 | the abstract creation, full table included |
| `ProcessTables.ProcessTable.RemoveProcess` | kernel/src/process/process.rs:294-321 | the loop over the children computes the abstract removal; the process it took, or not-found without a change |
| `ProcessTables.ProcessTable.SetCurrentProcess` | kernel/src/process/process.rs:351-372 | the abstract switch, missing process included |
| `ProcessTables.ProcessTable.SetProcessState` | kernel/src/process/process.rs:161-165 | the abstract change of state; the forest is kept, the single running process exactly under the stated condition |
| `ProcessTables.ProcessTable.AddCpuTime` | kernel/src/process/process.rs:178-181 | charges exactly one process |
| `ProcessTables.ProcessTable.GetProcessesWhere` | kernel/src/process/process.rs:324-339 | the scan computes the abstract filter |
| `ProcessTables.ProcessTable.CleanupZombies` | kernel/src/process/process.rs:429-446 | one abstract pass; the count returned is the number of zombies at its start |
| `Scheduling.DispatchKeepsRunnable` | kernel/src/process/scheduler.rs:88-114 | dispatching a runnable process never fails and preserves the runnable list, its order and all CPU times |
| `Scheduling.PickRunsIff` | kernel/src/process/scheduler.rs:88-114 | a picked process runs after the call if and only if it was not current already or was running |
| `Scheduling.PickCanWait` | kernel/src/process/scheduler.rs:88-114 | a concrete run: create, switch, fail to switch; the next call picks the process and leaves it ready |
| `Scheduling.PickIsRunnable` | kernel/src/process/scheduler.rs:123-210 | what each of the three algorithms picks is runnable |
| `Scheduling.PickIsReady` | kernel/src/process/scheduler.rs:123-210 | whatever the algorithm, the pick is live and ready or running, never blocked, dead or unborn; with none such there is no pick |
| `Scheduling.RoundStartsAtFront` | kernel/src/process/scheduler.rs:123-157 | a fresh or overrun index starts at the smallest PID |
| `Scheduling.PicksRotate` | kernel/src/process/scheduler.rs:123-157 | with an unchanged list the k-th pick is the k-th entry in circular order from the start, even from an out-of-range index |
| `Scheduling.RoundRobinFair` | kernel/src/process/scheduler.rs:123-157 | with an unchanged list of n, n picks are a rotation of the list, each process once |
| `Scheduling.RoundsFair` | kernel/src/process/scheduler.rs:78-157 | n consecutive schedule calls on a real table, switches included, return each of the n runnable processes exactly once |
| `Scheduling.PickLeastMeaning` | kernel/src/process/scheduler.rs:189-210 | a process with the least CPU time; None if and only if every one is at u64::MAX |
| `Scheduling.PickLeastFirst` | kernel/src/process/scheduler.rs:189-210 | among those of least CPU time the smallest PID is picked |
| `Scheduling.ChargedMeaning` | kernel/src/process/process.rs:178-181 | charging adds to one CPU time and keeps the runnable list |
| `Scheduling.SpreadAfterCharge` | kernel/src/process/scheduler.rs:189-210 | charging a least process at most the gap keeps the gap |
| `Scheduling.QuantumMeaning` | kernel/src/process/scheduler.rs:189-210 | one round of select and charge keeps the gap and adds exactly the charge to the total |
| `Scheduling.FairRunKeepsSpread` | kernel/src/process/scheduler.rs:189-210 | over every run of rounds charged at most the gap, the difference of any two CPU times never exceeds it, and the total grows by exactly the charges |
| `PriorityLevels.PickUrgentFirst` | kernel/src/process/scheduler.rs:160-187 | the pick is more urgent than every process before it and no less urgent than every one after it |
| `PriorityLevels.UrgentIsFirstQueued` | kernel/src/process/scheduler.rs:160-187 | the first entry of the first queue that has one is that pick |
| `Scheduling.PickUrgentMeaning` | kernel/src/process/scheduler.rs:160-187 | the pick is the process of smallest PID at the most urgent level, and no other |
| `Scheduling.NeutralPickIsHighest` | kernel/src/process/scheduler.rs:160-245 | with policies that adjust nothing the pick has the highest process priority, system over interactive over normal over background, smallest PID among equals |
| `Scheduling.PickIsHighestAdjusted` | kernel/src/process/scheduler.rs:160-245 | under any policy its adjusted priority is the highest of those not throttled; a throttled process is picked only if every runnable one is, smallest PID first |
| `Scheduling.PicksUnder` | kernel/src/process/scheduler.rs:160-245 | under any policies, one per call, each of any number of calls picks the process of smallest PID at the level most urgent to that call's own policy: rebuilding the queues undoes their rotation |
| `Scheduling.StarvesIff` | kernel/src/process/scheduler.rs:160-245 | a process is never picked if and only if no call's policy makes it foremost |
| `Scheduling.PicksAreCalls` | kernel/src/process/scheduler.rs:78-120 | consecutive calls, each notifying power management, are calls under the policies they leave to each other |
| `Scheduling.SwitchSettles` | kernel/src/process/scheduler.rs:88-114 | a call that switches settles for good the boost or the throttling of a process, or is followed by the same pick |
| `Scheduling.SwitchBoosts` | kernel/src/process/scheduler.rs:88-114 | the boost is on after a call if and only if it was, or the call switched to a system or interactive process |
| `Scheduling.PrioritySettles` | kernel/src/process/scheduler.rs:78-120 | in any number of consecutive calls, notifications included, all but at most two more than there are runnable processes pick one and the same process |
| `Scheduling.BoostChangesPick` | kernel/src/process/scheduler.rs:88-120 | before that the pick can change: under Balanced, switching to a system process boosts an interactive one past it |
| `PowerManagement.NotifiedSettles` | kernel/src/power/power_policy.rs:131-143 | a notification never makes a pending boost or a change of throttling possible again |
| `PowerManagement.NotifiedUnchanged` | kernel/src/power/power_policy.rs:172-265 | unless the boost comes on or the notified process's throttling flips, nobody's priority or throttling changes |
| `PowerManagement.StepsAddUp` | kernel/src/power/power_policy.rs:172-211 | lowering and raising add up, and undo each other unless a priority ran into the end of the scale |
| `PowerManagement.AwareIsMonotone` | kernel/src/power/power_policy.rs:172-211 | adjusting keeps the order of priorities within a class |
| `PowerManagement.ClassesKeepOrder` | kernel/src/power/power_policy.rs:172-211 | in every mode, at equal priority, critical and interactive tasks are never behind background ones, nor those behind batch jobs |
| `PowerManagement.SavingLowers` | kernel/src/power/power_policy.rs:172-211 | saving power never makes a process more urgent than balancing, nor balancing without a boost than full performance |
| `PowerManagement.ClassesAreStepsApart` | kernel/src/power/power_policy.rs:172-211 | in every mode, by how many steps the adjusted priorities of the four classes lie apart |
| `PowerManagement.HoldingBackIsOrdered` | kernel/src/power/power_policy.rs:248-265 | which classes each mode holds back, by comparison: saving power everybody any mode does, and what a boost changes |
| `PowerManagement.NobodyThrottled` | kernel/src/power/power_policy.rs:248-265 | full performance, critical and interactive tasks, low load, a boost or enough interactions: not throttled |
| `PowerManagement.PressureThrottles` | kernel/src/power/responsiveness.rs:285-309 | under pressure a process that is not boosted and has interacted fewer than five times is throttled |
| `PowerManagement.CountIsBestBalance` | kernel/src/power/responsiveness.rs:324-348 | after any activities of a process its interaction count is the best balance of interactions over other activities that any final part of them has; nobody else is affected, and one interaction puts it among the boosted |
| `PowerManagement.PowerManager.NotifyProcessActivity` | kernel/src/power/responsiveness.rs:324-348 | both managers hear of the activity: the boost, the interaction count and the boosted set |
| `Scheduling.SecondNeverRuns` | kernel/src/process/scheduler.rs:160-245 | two processes of equal priority under policies that adjust nothing: the second is runnable and no number of calls picks it |
| `Scheduling.Scheduler.constructor` | kernel/src/process/scheduler.rs:61-75 | zero index and counters |
| `Scheduling.Scheduler.ScheduleRoundRobin` | kernel/src/process/scheduler.rs:123-157 | the abstract round-robin pick and next index |
| `Scheduling.Scheduler.UpdatePriorityQueues` | kernel/src/process/scheduler.rs:212-245 | the loop puts every runnable process into the queue of its level, in table order; what the levels are is `NeutralPickIsHighest` and `PickIsHighestAdjusted` |
| `Scheduling.Scheduler.SchedulePriority` | kernel/src/process/scheduler.rs:160-187 | the abstract pick, moved to the end of its queue |
| `Scheduling.Scheduler.SetAlgorithm` | kernel/src/process/scheduler.rs:253-264 | index and queues start over |
| `Scheduling.Scheduler.ScheduleFair` | kernel/src/process/scheduler.rs:189-210 | the scan returns the abstract least pick |
| `Scheduling.Scheduler.Schedule` | kernel/src/process/scheduler.rs:78-120 | the pick of the current algorithm, whether it runs afterwards, the switch, both counters and the notification to power management; the runnable list and the table invariant are kept |
| `MessageQueues.MostUrgent` | kernel/src/ipc/queue.rs:66-102 | the oldest pending message of the numerically smallest priority |
| `MessageQueues.InsertPosition` | kernel/src/ipc/queue.rs:74-82 | before the first less urgent message and after all others |
| `MessageQueues.InsertKeepsOrder` | kernel/src/ipc/queue.rs:66-87 | inserting at that position keeps the queue in the reference delivery order |
| `MessageQueues.OrderPermutes` | kernel/src/ipc/queue.rs:66-102 | the delivery order is a permutation of what is pending |
| `MessageQueues.EnqueueHolds` | kernel/src/ipc/queue.rs:66-87 | accepted if and only if count and size limits allow; the queue then holds the pending messages in delivery order and total_size is their sum |
| `MessageQueues.DequeueHolds` | kernel/src/ipc/queue.rs:90-102 | returns the oldest most urgent message, and the saturating subtraction of its size never saturates |
| `MessageQueues.QueueRefinesReference` | kernel/src/ipc/queue.rs:66-102 | under every interleaving of enqueue and dequeue the queue answers exactly as the unordered reference that searches for the most urgent message |
| `MessageQueues.SizeMeaning` | kernel/src/ipc/message.rs:69-217 | a message takes its header, every byte of its content, the fixed part of its kind and the room of each capability |
| `MessageQueues.HeldContentIsBounded` | kernel/src/ipc/queue.rs:49-87 | content and headers of everything held stay within the byte limit, and the number within the message limit |
| `MessageQueues.CountersMatchAnswers` | kernel/src/ipc/queue.rs:66-102 | over every run the statistics count the messages accepted and those refused |
| `MessageQueues.MessageQueue.constructor` | kernel/src/ipc/queue.rs:35-46 | an empty queue |
| `MessageQueues.MessageQueue.Enqueue` | kernel/src/ipc/queue.rs:66-87 | the loop finds the insertion position; size and counters follow |
| `MessageQueues.MessageQueue.Dequeue` | kernel/src/ipc/queue.rs:90-102 | the abstract dequeue, empty queue included |
| `MessageQueues.MessageQueueManager.constructor` | kernel/src/ipc/queue.rs:184-190 | no queues |
| `MessageQueues.MessageQueueManager.CreateQueue` | kernel/src/ipc/queue.rs:193-204 | a new empty queue, refused if one exists |
| `MessageQueues.MessageQueueManager.EnqueueMessage` | kernel/src/ipc/queue.rs:221-226 | the queue is created on demand, the message accepted exactly under the limits, and the total counts it |
| `MessageQueues.MessageQueueManager.Deliver` | kernel/src/ipc/queue.rs:229-236 | one message fewer in one queue and in the total, which never saturates |
| `MessageQueues.MessageQueueManager.DequeueMessage` | kernel/src/ipc/queue.rs:229-236 | missing queue, empty queue, or the oldest most urgent message of exactly that queue; the total stays pending plus dropped |
| `MessageQueues.MessageQueueManager.RemoveQueue` | kernel/src/ipc/queue.rs:215-218 | the queue is returned with exactly the pending messages in delivery order, None if and only if there is none; its messages stay in the total |
| `Capabilities.StepMembers` | kernel/src/ipc/capability.rs:336-495 | what a step can add to a set is a grant to that process or a copy of a delegatable unexpired capability |
| `Capabilities.StepKeepsInv` | kernel/src/ipc/capability.rs:336-522 | every operation keeps ids unique across all processes and owners correct |
| `Capabilities.RunKeepsInv` | kernel/src/ipc/capability.rs:336-522 | over every run ids stay unique across all processes |
| `Capabilities.RightsAreJustified` | kernel/src/ipc/capability.rs:336-495 | after every run each capability was there at the start, copies a delegatable one that was, or was granted in the run |
| `Capabilities.DelegationNeverAmplifies` | kernel/src/ipc/capability.rs:386-438 | in every run without grants each right held at the end was held by someone at the start |
| `Capabilities.GrantTakesEffect` | kernel/src/ipc/capability.rs:336-358 | a grant gives the named process exactly the named right and nobody anything else |
| `Capabilities.RevokeUndoesGrant` | kernel/src/ipc/capability.rs:336-456 | the id a grant returns is the one to revoke it by: revoking succeeds and leaves every set as before the grant |
| `Capabilities.DelegationTakesEffect` | kernel/src/ipc/capability.rs:386-438 | delegation succeeds if and only if the capability is delegatable and unexpired, and gives the receiver exactly what it allows |
| `Capabilities.RevokeUndoesDelegation` | kernel/src/ipc/capability.rs:386-456 | the id a delegation returns is the one to revoke it by at the receiver |
| `Capabilities.DelegationRefused` | kernel/src/ipc/capability.rs:386-438 | which of the three errors, and exactly when; a refusal changes nothing |
| `Capabilities.DelegationIsDead` | kernel/src/ipc/capability.rs:386-438 | from an empty system every delegation is refused: nothing sets the delegatable flag |
| `Capabilities.RevokeRemovesOne` | kernel/src/ipc/capability.rs:441-456 | a successful revocation removes the one capability with that id anywhere in the system and nothing else |
| `Capabilities.RevocationRefused` | kernel/src/ipc/capability.rs:441-456 | refused if and only if the process holds no capability of that id, without a change |
| `Capabilities.UsableUntil` | kernel/src/ipc/capability.rs:154-182 | an only capability answers checks up to its expiry time, inclusive, and never after |
| `Capabilities.RunCounts` | kernel/src/ipc/capability.rs:336-495 | over every run the statistics count creations, checks and failed checks, and ids run from 1 without gaps |
| `Capabilities.CleanupIsInvisible` | kernel/src/ipc/capability.rs:483-495 | cleaning up expired capabilities changes no later permission check |
| `Capabilities.CapabilityManager.constructor` | kernel/src/ipc/capability.rs:326-333 | no capabilities |
| `Capabilities.CapabilityManager.GrantCapability` | kernel/src/ipc/capability.rs:336-358 | the abstract grant, the id returned included, which is the one `RevokeUndoesGrant` revokes; ids stay unique |
| `Capabilities.CapabilityManager.CheckCapability` | kernel/src/ipc/capability.rs:361-383 | true if and only if a matching unexpired capability is held; both counters follow |
| `Capabilities.CapabilityManager.DelegateCapability` | kernel/src/ipc/capability.rs:386-438 | the abstract delegation, its three errors included |
| `Capabilities.CapabilityManager.RevokeCapability` | kernel/src/ipc/capability.rs:441-456 | the abstract revocation, missing id included |
| `Capabilities.CapabilityManager.CleanupExpired` | kernel/src/ipc/capability.rs:483-495 | exactly the unexpired capabilities remain, in order, and the number returned is that of the expired ones in the whole system |
| `Ipc.UrgentSendThenReceive` | kernel/src/ipc/message.rs:306-359 | a message more urgent than all waiting is the next one received, and the queue is then as before |
| `Ipc.StepPending` | kernel/src/ipc/message.rs:306-359 | a queue gains a message only by an authorized send to its owner |
| `Ipc.EveryMessageWasAuthorized` | kernel/src/ipc/message.rs:306-337 | over every run from empty queues each pending message was sent by a process that held a matching unexpired SendMessage capability at that moment |
| `Ipc.MessagesAreConserved` | kernel/src/ipc/message.rs:306-359 | over every run, per receiver and message: initially pending plus accepted is pending plus received plus dropped with the queue |
| `Ipc.SendMessage` | kernel/src/ipc/message.rs:306-337 | the checks over both managers compute the abstract send; which refusal and exactly when, in the order of the checks; a refused send changes no queue and no capability |
| `Ipc.ReceiveMessage` | kernel/src/ipc/message.rs:340-359 | the abstract receive; which refusal and exactly when, without a change |
| `UnloadOrders.TurnDecreases` | userspace/driver-manager/src/dependency_resolver.rs:134-144 | the termination measure: a turn visits a new driver, or consumes an already visited entry while pushing only unvisited ones |
| `UnloadOrders.VisitsReachable` | userspace/driver-manager/src/dependency_resolver.rs:130-148 | on every graph, cyclic ones included, exactly the transitive dependents are visited, once each, the requested one first and every other after one it depends on |
| `UnloadOrders.UnloadOrderGuarantees` | userspace/driver-manager/src/dependency_resolver.rs:130-148 | the result is duplicate-free, is exactly the set reachable through dependents, ends with the requested driver, and every other driver comes before one it depends on |
| `UnloadOrders.SafeIffLayered` | userspace/driver-manager/src/dependency_resolver.rs:130-148 | every driver is unloaded before all it depends on if and only if the graph is layered: no cycle, and entries of a dependents list share nothing unless one is reached through a later one |
| `UnloadOrders.TopologicalIffLayered` | userspace/driver-manager/src/dependency_resolver.rs:130-148 | the visit order is topological if and only if the graph is layered |
| `UnloadOrders.SingleDependencyIsSafe` | userspace/driver-manager/src/dependency_resolver.rs:130-148 | a driver with a single dependency in the result is unloaded before it |
| `UnloadOrders.DiamondIsUnsafe` | userspace/driver-manager/src/dependency_resolver.rs:130-148 | a concrete diamond in which a driver is unloaded after one it depends on |
| `UnloadOrders.DrainCompose` | userspace/driver-manager/src/dependency_resolver.rs:134-144 | entries pushed later are finished before those below them are touched |
| `UnloadOrders.RemoveUndoesAdd` | userspace/driver-manager/src/dependency_resolver.rs:43-57 | removing a dependency just added restores the graph if and only if it was not there and no empty list was |
| `UnloadOrders.DependencyResolver.constructor` | userspace/driver-manager/src/dependency_resolver.rs:13-18 | an empty graph |
| `UnloadOrders.DependencyResolver.AddDependency` | userspace/driver-manager/src/dependency_resolver.rs:43-48 | the dependent is appended to that list, duplicates kept |
| `UnloadOrders.DependencyResolver.RemoveDependency` | userspace/driver-manager/src/dependency_resolver.rs:50-57 | every copy of the dependent leaves that list, and an empty list leaves the map |
| `UnloadOrders.DependencyResolver.PushUnseen` | userspace/driver-manager/src/dependency_resolver.rs:135-140 | pushes exactly the unvisited dependents, in order |
| `UnloadOrders.DependencyResolver.GetUnloadOrder` | userspace/driver-manager/src/dependency_resolver.rs:130-148 | the worklist loop terminates with the abstract unload order |
| `VgaText.VgaTextDriver.constructor` | drivers/graphics/src/lib.rs:80-97 | cursor at the origin and the default colour, on whatever the video memory shows |
| `VgaText.VgaTextDriver.SetColor` | drivers/graphics/src/lib.rs:162-164 | background in the high, foreground in the low four bits |
| `VgaText.VgaTextDriver.ClearRow` | drivers/graphics/src/lib.rs:201-209 | blanks exactly one row |
| `VgaText.VgaTextDriver.ClearScreen` | drivers/graphics/src/lib.rs:167-181 | a blank screen showing an empty page |
| `VgaText.VgaTextDriver.Scroll` | drivers/graphics/src/lib.rs:186-193 | every row moves up by one and the last is blank |
| `VgaText.VgaTextDriver.NewLine` | drivers/graphics/src/lib.rs:184-198 | the screen shows the page with one more row |
| `VgaText.VgaTextDriver.WriteCell` | drivers/graphics/src/lib.rs:140-145 | one cell and the cursor change, and the screen shows the page with one more character |
| `VgaText.VgaTextDriver.WriteByte` | drivers/graphics/src/lib.rs:130-147 | the screen shows the page after one byte, wrapping lazily at column 80 |
| `VgaText.VgaTextDriver.WriteString` | drivers/graphics/src/lib.rs:150-159 | the screen shows the page after all bytes, unprintable ones replaced |
| `VgaText.LinesSplitText` | drivers/graphics/src/lib.rs:130-147 | the layout's lines joined by newlines are the text |
| `VgaText.PrintableIsShown` | drivers/graphics/src/lib.rs:150-159 | text is shown as it is if and only if it is printable ASCII, newlines and the block; any other byte is shown as the block |
| `VgaText.WrapCutsLine` | drivers/graphics/src/lib.rs:134-138 | a line is cut into rows of exactly 80 cells but the last, losing nothing |
| `VgaText.LayoutAppend` | drivers/graphics/src/lib.rs:130-147 | one more byte extends the last row of the layout or starts a new one |
| `VgaText.PageIsLayout` | drivers/graphics/src/lib.rs:130-198 | the page built byte by byte is the layout of the whole text |
| `VgaText.ScreenIsTail` | drivers/graphics/src/lib.rs:130-209 | each screen cell is the corresponding cell of the last 25 rows of the layout, blank-padded |
| `VgaText.ShowText` | drivers/graphics/src/lib.rs:130-209 | from a cleared screen, writing any text leaves the last 25 rows of its layout on screen and the cursor at its end |

## Left out

- KernelHeaps.KernelHeap.Deallocate: memory is one header per address, so a foreign header that overlaps a block's own header, and an address below the header size, are not covered.
- Scheduling.Scheduler.ScheduleRoundRobin: models the probing loop by its first probe, which always succeeds on a list of runnable processes read from the same table; SchedulePriority does the same within a queue.
- `from_storage` and device names of swap devices.
- Scheduling.FairRunKeepsSpread: CPU times stay below u64::MAX, where the source's selection stops working.
- Scheduling.Scheduler.Schedule: time slices and scheduler time are not modelled, nor what happens between calls: battery and load updates, the expiry of boosts they cause, classification, CPU scaling and idle states.
- Frames.PhysicalMemoryManager.ParseMemoryMap: takes the list of areas; reading multiboot tags and placing the bitmap are not modelled.
- Debug-build fill patterns and allocation ids of the heap: raw memory writes that no decision depends on.
- Alignment of heap pointers: the source ignores the requested alignment.
- u32, u64 and usize overflow of ids, counters and timestamps.
- Queues, devices and slot allocators inside their managers are values, so aliasing between them is not modelled.
- Partition swap devices are modelled as always failing, as in the source; device availability does not change once added.
- Message kinds, timestamps, flags and replies; process names, address spaces, contexts and clock readings: nothing modelled branches on them.
- Driver names, dependency resolution and load order: the source's topological sort visits no dependencies and returns its input without repetitions.
- `set_cursor` of the text driver, `clear` and `peek` of queues, statistics printing and global mutex wrappers: easy members.
- Virtual memory, platform, system calls, register contexts, file-system service, keyboard, touch, network, storage, shell and init.
