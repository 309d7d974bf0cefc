# Verified models of the emulator core

This project models the parts of the emulator core under `Aurora-qemu-sgx/` whose correctness rests on
more than one function, and proves what they promise. Protocols between threads are step machines, one
step per access to shared state, with theorems over every run; code that changes data in place is a class
or a method proved against a specification. Every file holds one module, `Basics.dfy` and `LittleEndian.dfy`
what several of them share; `dafny verify dfyconfig.toml` verifies the whole project.

| component | files | main results |
|---|---|---|
| Stop-the-world protocol | `ExclusiveProtocol.dfy` | mutual exclusion in every interleaving, the exact meaning of `pending_cpus`, no lost wake-up, no deadlock |
| Per-CPU work queue | `WorkQueue.dfy` | first in, first out, exactly once; no access to an item after `done` or `free`; a synchronous call returns only after its function; no sleeper is forgotten and no item lost; one pass of the worker serves everything |
| Physical memory dispatch | `RadixGeometry.dfy`, `PhysPageTree.dfy`, `PhysPageCompact.dfy`, `PhysPageMap.dfy`, `DispatchMaps.dfy`, `AddressSpaceDispatch.dfy` | filling, compressing and searching the radix tree refines a flat map; the cache never changes a resolving lookup; the section table overflows exactly when the pieces need more entries than it has; bound on node allocations |
| RAM blocks | `RamList.dfy` | blocks stay disjoint, in range and sorted; best fit; the cached lookup is the list search |
| Bounce buffer | `BounceBuffer.dfy` | one owner; no stranded map client; clients are conserved |
| Bottom halves | `NotifyProtocol.dfy`, `BottomHalves.dfy` | no lost wake-up under `notify_me`, with pollers in `aio_poll` and in the main loop; every setting of a flag is answered by one run or one cancel; a poll serves what was scheduled when it began; safe and complete reclamation under nested polls |
| Memory dump, kdump format | `VmcoreFile.dfy`, `GuestPages.dfy`, `DumpBitmap.dfy`, `KdumpPages.dfy`, `KdumpLayout.dfy`, `KdumpHeader.dfy`, `Kdump.dfy` | a reader that starts from the headers of the replayed file gets back every guest page; the bitmaps are exact; the layout is sound exactly below 4 GiB |
| Memory dump, ELF format | `DumpFilter.dfy`, `MemoryMapping.dfy`, `ElfFormat.dfy`, `ElfDump.dfy`, `ElfHeaders.dfy` | a reader of the file's bytes obtains the guest's byte at every address that passes the filter and nothing at any other; the program headers cover the memory image, each byte once; exactly when a dump is refused, fails or writes what was announced, for every filter |
| Software TLB | `SoftTlb.dfy` | after a page flush nothing of a mapping that contained the address remains and every other entry stays; a new entry grants exactly what the protection permits |
| Instruction counting | `Icount.dfy` | the raw counter is the number of instructions executed, which is what the budget allows; when the shift changes, time stands still |
| GDB packets | `GdbPackets.dfy` | a packet delivers its payload exactly when it has no `#` and at most 4095 bytes; and a given checksum is accepted exactly when it is the sum of the bytes; codecs are undone by their inverses |

How the pieces are read:

- Barriers and atomic accesses are sequentially consistent, and a condition wait may wake up spuriously.
  The set of CPUs is fixed.
- Integers are unbounded except where the width matters and is written out: the 64-bit address wrap in
  section coverage, page alignment and RAM block lookup, the mixed signed and unsigned 64-bit arithmetic of
  the ELF dump's filter (signed overflow wraps: `configure` passes `-fwrapv`), the 32-bit layout arithmetic
  of the kdump header, the 64-bit masks of the TLB, the signed bytes of the packet checksum, the 16-bit
  decrementer and the 32-bit word it is tested in.
- Parameters stand for what the code cannot know by itself: whether host memory could be allocated, what
  the compressor returns, which answer the command handler gives, the current clock, the timer deadline.

Three places where the code does not do what one might expect, each with the exact condition:

- The offsets of the kdump layout are computed in 32 bits. `KdumpLayout.LayoutSound` proves that header,
  sub-header, notes, bitmaps and page section are disjoint if and only if the page section starts below
  4 GiB; `KdumpLayout.SixtyFourTebibytes` is a guest for which it does not.
- Nothing checks the sign of a dump filter's `begin` and `length`, and they are compared with unsigned
  addresses. `ElfDumps.SizesAgree` proves that the size asked for in a block is the size counted for it if
  and only if `length >= 0` or `begin + length < 0`. `ElfDumps.CreateVmcore` proves that a dump is refused
  exactly if no block matches, which is always so for a negative `begin`; that it fails exactly if the filter
  runs backwards and its length is no multiple of the page size; and that the bytes written are as many as
  `dump_calculate_size` announced if and only if `begin` is not negative or the announced widths add up to a
  multiple of 2^64. Under a filter that runs backwards each program header has no file range and a memory
  size of 2^64 plus the negative length; under any other, file and memory size are equal
  (`ElfHeaders.DumpWithoutPaging`). `ElfDumps.OddFilters`, `MemoryMappings.WrappedMappings` and
  `ElfDumps.NegativeBeginZero` give inputs.
- With 65533 mappings or more the number of program headers is left to the section header, but
  `write_elf_section` writes the memory at its pointer to the section header and not the section header.
  `ElfFormat.ReadFront` proves that a reader obtains the headers if and only if it reads their number, which
  is certain below that count and otherwise up to the stack; `ElfFormat.SectionNotWritten` is a case.

`find_ram_offset` looks only at gaps that follow a block: space below the lowest block is never handed out
again (`RamLists.LowHoleUnused`, reached by `RamLists.ReachLowHole`). `icount_adjust` leaves virtual time alone
if and only if its caller has no instruction budget outstanding (`Icount.Counters.Adjust`), which is so between
slices.

## Model

| member | source | states |
|---|---|---|
| ExclusiveProtocol.MutualExclusion | Aurora-qemu-sgx/cpus-common.c:180-297 | In every run, while a thread is between start_exclusive and end_exclusive no CPU is between cpu_exec_start and cpu_exec_end and no other exclusive section is open |
| ExclusiveProtocol.FlagMayShow | Aurora-qemu-sgx/cpus-common.c:223-243 | A reachable state in which an exclusive section is open and another CPU's running flag is set, so the exclusion is not one of flags |
| ExclusiveProtocol.PendingCounts | Aurora-qemu-sgx/cpus-common.c:189-202 | Whenever the list lock is free, pending_cpus is 0 with no has_waiter set, or one more than the number of CPUs with has_waiter, each of which still has its decrement ahead |
| ExclusiveProtocol.SleepersHaveReason | Aurora-qemu-sgx/cpus-common.c:171-220 | With the lock free, an unwoken sleeper on exclusive_cond implies pending_cpus > 1 and one on exclusive_resume implies pending_cpus >= 1: no wake-up is lost |
| ExclusiveProtocol.NoDeadlock | Aurora-qemu-sgx/cpus-common.c:171-297 | Whenever some thread is inside the protocol, some thread in it is awake and has a step |
| ExclusiveProtocol.FunctionsEnd | Aurora-qemu-sgx/cpus-common.c:171-297 | In every run a thread stays in its function or leaves it at its end: cpu_exec_start with the CPU executing, start_exclusive in the exclusive section, the other two outside |
| ExclusiveProtocol.FlagMeans | Aurora-qemu-sgx/cpus-common.c:223-297 | The running flag is set while a CPU executes and clear while it lets an exclusive section pass and after cpu_exec_end |
| ExclusiveProtocol.YieldedCpuRuns | Aurora-qemu-sgx/cpus-common.c:244-256 | A run in which a CPU comes in during an exclusive section, lets it pass and then executes |
| ExclusiveProtocol.StepKeeps | Aurora-qemu-sgx/cpus-common.c:171-297 | Every step of every thread keeps the inductive invariant |
| WorkQueue.FifoExactlyOnce | Aurora-qemu-sgx/cpus-common.c:116-130 | Finished functions are a prefix of the enqueue order without repetition, and all of it once the queue is empty and the worker idle |
| WorkQueue.ReturnsAfterRun | Aurora-qemu-sgx/cpus-common.c:132-155 | Every call recorded as returned had its function finished |
| WorkQueue.SynchronousWaits | Aurora-qemu-sgx/cpus-common.c:132-155 | In every run, when a thread leaves do_run_on_cpu its function has finished and its item is gone |
| WorkQueue.CallsBegin | Aurora-qemu-sgx/cpus-common.c:132-168 | In every run a thread can begin an asynchronous call at any time and a synchronous one when the big lock is free, which it then holds; the call gets an item of its own that was never queued, not done, to be freed exactly if the call is asynchronous |
| WorkQueue.AsynchronousNeverWaits | Aurora-qemu-sgx/cpus-common.c:157-168 | A waiting thread's item is a synchronous one and has been queued |
| WorkQueue.FinishedItems | Aurora-qemu-sgx/cpus-common.c:340-349 | Once the worker has let go of an item whose function has finished, an asynchronous item is freed and a synchronous one is done |
| WorkQueue.NoItemLost | Aurora-qemu-sgx/cpus-common.c:116-353 | Every allocated item belongs to a call in progress or, if it is to be freed, is on the list or in the worker's hand |
| WorkQueue.WorkerServes | Aurora-qemu-sgx/cpus-common.c:313-353 | From every reachable state with work queued, the worker away and both locks free, the worker alone reaches a state in which all of it has run, every waiting call's item is done and no caller sleeps |
| WorkQueue.NoDanglingAccess | Aurora-qemu-sgx/cpus-common.c:313-353 | Every item the worker or a queueing thread is about to touch still exists |
| WorkQueue.DoneIsLastTouch | Aurora-qemu-sgx/cpus-common.c:344-349 | The worker holds no pointer to an item whose done flag is set |
| WorkQueue.NoForgottenWaiter | Aurora-qemu-sgx/cpus-common.c:149-154 | In every run, if the item of a do_run_on_cpu thread that sleeps unwoken is done, the worker is still in its pass and its broadcast is yet to come; once the worker has left, no such sleeper exists |
| WorkQueue.StepKeeps | Aurora-qemu-sgx/cpus-common.c:116-353 | Every step keeps the invariant: the linked list is the enqueued and not yet taken items, in order |
| RadixGeometry.SlotOfPage | Aurora-qemu-sgx/exec.c:264-264 | The masked index bits of a page select the slot of its node that contains it |
| PhysPageTree.LoopLeaf | Aurora-qemu-sgx/exec.c:266-275 | Writing a leaf over a whole slot extends the assigned range by that slot and keeps the tree's meaning |
| PhysPageTree.LoopChild | Aurora-qemu-sgx/exec.c:270-275 | The recursive call on a partly covered slot extends the assigned range and keeps the tree's meaning |
| PhysPageMaps.PhysPageMap.NodeReserve | Aurora-qemu-sgx/exec.c:222-231 | Afterwards the requested number of nodes fits; the reservation grows only if it did not, to the larger of the need and the hint, which then follows |
| PhysPageMaps.PhysPageMap.NodeAlloc | Aurora-qemu-sgx/exec.c:233-251 | Appends a node of empty slots; both asserts of the source are met by every caller |
| PhysPageMaps.PhysPageMap.SetLevel | Aurora-qemu-sgx/exec.c:253-277 | Assigns the part of the range inside the slot to the leaf, tells how far it came, touches nothing outside and stays within the node budget |
| PhysPageMaps.PhysPageMap.PageSet | Aurora-qemu-sgx/exec.c:279-287 | Over an unassigned range: the tree then means the old map with the range assigned, at the cost of at most 2 * P_L2_LEVELS - 1 nodes |
| PhysPageCompact.BypassWeak | Aurora-qemu-sgx/exec.c:317-340 | Skipping a node with a single non-empty slot loses no assigned page, although the skipped bits are no longer compared |
| PhysPageMaps.PhysPageMap.Compact | Aurora-qemu-sgx/exec.c:292-340 | Compressing an entry keeps what the tree says of every assigned page and touches nothing outside its slot; no node reached from it could then still be bypassed |
| PhysPageMaps.PhysPageMap.CompactAll | Aurora-qemu-sgx/exec.c:342-347 | After it no node reached from the root has a single non-empty slot that the skip field could bypass |
| PhysPageCompact.SkipsFit | Aurora-qemu-sgx/exec.c:322-325 | The limit of the skip field is never met: two skips add up to at most the six levels |
| PhysPageCompact.WalkFlat | Aurora-qemu-sgx/exec.c:367-373 | A search through a compressed tree ends at the flat map's section for an assigned page, and at some registered section or unassigned for any other |
| PhysPageMaps.PhysPageMap.Find | Aurora-qemu-sgx/exec.c:360-373 | The search loop computes that walk |
| DispatchMaps.CoversRange | Aurora-qemu-sgx/exec.c:349-358 | The wrapping coverage test is the plain range test for sections inside the address space |
| DispatchMaps.FlatCover | Aurora-qemu-sgx/exec.c:375-379 | A registered section covers an address exactly when the flat map holds it for that page, which is why the final check of the search suffices |
| DispatchMaps.MultiExact | Aurora-qemu-sgx/exec.c:1172-1182 | Registering whole pages changes the resolution of exactly the addresses of the piece |
| DispatchMaps.NewSubExact | Aurora-qemu-sgx/exec.c:1156-1169 | The same for a piece of a page that had no sub-page table |
| DispatchMaps.OldSubExact | Aurora-qemu-sgx/exec.c:1162-1169 | The same for a piece of a page that already has one |
| AddressSpaceDispatches.AddressSpaceDispatch.constructor | Aurora-qemu-sgx/exec.c:2376-2394 | After mem_begin every address is unassigned |
| AddressSpaceDispatches.AddressSpaceDispatch.PhysPageFind | Aurora-qemu-sgx/exec.c:360-380 | The result is the flat map's section for the page, for every address |
| AddressSpaceDispatches.AddressSpaceDispatch.SubpageRegister | Aurora-qemu-sgx/exec.c:2301-2319 | The table then holds the section from start to end and its old entries elsewhere |
| AddressSpaceDispatches.AddressSpaceDispatch.RegisterMultipage | Aurora-qemu-sgx/exec.c:1172-1182 | The resolution changes at the addresses of the piece only, to the piece; the table's assertion stops it exactly when the table is full |
| AddressSpaceDispatches.AddressSpaceDispatch.RegisterSubpage | Aurora-qemu-sgx/exec.c:1141-1169 | The same for a piece inside one page, which takes two entries if the page has no sub-page table and one if it has; the source's assertion on the existing section is proved |
| AddressSpaceDispatches.AddressSpaceDispatch.MemAdd | Aurora-qemu-sgx/exec.c:1184-1215 | For a section no registered one overlaps: it runs into the assertion on the table exactly when its pieces need more entries than are left; otherwise every address of it resolves to a piece of it, every other address as before, and it takes exactly that many entries |
| AddressSpaceDispatches.AddressSpaceDispatch.MemCommit | Aurora-qemu-sgx/exec.c:2402-2413 | Compressing the tree changes the result of phys_page_find for no address, and nothing is left to compress |
| AddressSpaceDispatches.AddressSpaceDispatch.LookupRegion | Aurora-qemu-sgx/exec.c:389-413 | With resolve_subpage the result is that of the tables, whatever earlier lookups of either kind left in mru_section; without it, that of mru_section if it covers the address and of the tree otherwise; mru_section becomes the result exactly if it did not serve |
| AddressSpaceDispatches.Publish | Aurora-qemu-sgx/exec.c:1184-1215 | For any disjoint sections: mem_begin, mem_add on each and mem_commit abort exactly when four plus the entries the sections need exceed the table; otherwise every address resolves to a piece of the section covering it, or to unassigned if none does |
| RamLists.HitIff | Aurora-qemu-sgx/exec.c:944-949 | The wrapping subtraction test holds exactly for the addresses of the block |
| RamLists.RamList.FindRamOffset | Aurora-qemu-sgx/exec.c:1386-1420 | Returns the end of the first block followed by a smallest gap that fits, 0 for an empty list, and gives up exactly when no gap fits |
| RamLists.BestFitApart | Aurora-qemu-sgx/exec.c:1386-1420 | A block at a best fit overlaps no other block and stays in range |
| RamLists.LowHoleUnused | Aurora-qemu-sgx/exec.c:1397-1411 | A valid list with half of the address space free below its only block and no gap for a single byte |
| RamLists.ReachLowHole | Aurora-qemu-sgx/exec.c:1386-1420 | Adding two blocks and freeing the first leads to that list |
| RamLists.RamList.Add | Aurora-qemu-sgx/exec.c:1596-1659 | Blocks stay disjoint, in range and sorted by descending length; the contents grow by exactly the new block; the cache is dropped; on failure nothing changes |
| RamLists.RamList.Free | Aurora-qemu-sgx/exec.c:1816-1830 | The contents shrink by exactly that block, the invariant stays and the cache is dropped |
| RamLists.RamList.GetRamBlock | Aurora-qemu-sgx/exec.c:939-975 | The result is that of searching the list, whatever is cached |
| BounceBuffers.OneOwner | Aurora-qemu-sgx/exec.c:2946-2951 | In every run at most one mapping has the buffer, the flag is set while it does, and the buffer exists exactly while it is mapped |
| BounceBuffers.NoClientStranded | Aurora-qemu-sgx/exec.c:2886-2914 | If a client is listed while buffer and list lock are free, some unmapper has yet to run its notification |
| BounceBuffers.ClientsConserved | Aurora-qemu-sgx/exec.c:2886-2914 | Every registration is listed, scheduled or unregistered, once |
| BounceBuffers.RegistersOne | Aurora-qemu-sgx/exec.c:2903-2914 | cpu_register_map_client adds exactly one entry of its client at the head of the list |
| BounceBuffers.ChecksFlag | Aurora-qemu-sgx/exec.c:2910-2912 | It then notifies if and only if the buffer is not in use |
| BounceBuffers.UnregistersOne | Aurora-qemu-sgx/exec.c:2932-2945 | cpu_unregister_map_client removes exactly one entry of its client if there is one, and nothing else |
| BounceBuffers.NeverStuck | Aurora-qemu-sgx/exec.c:2886-2945 | A thread inside any of these operations can take a step unless it waits for a lock that another holds |
| BounceBuffers.WaitingClientServed | Aurora-qemu-sgx/exec.c:3057-3081 | A run in which a client registers while the buffer is in use and is scheduled when it is unmapped |
| BounceBuffers.DrainedIsEmpty | Aurora-qemu-sgx/exec.c:2892-2901 | When a notification ends, no client is listed |
| BounceBuffers.StepKeeps | Aurora-qemu-sgx/exec.c:3057-3081 | Every step of map, unmap, register and unregister keeps the invariant |
| NotifyProtocol.NoLostWakeup | Aurora-qemu-sgx/async.c:324-341 | With any number of pollers in aio_poll and the event source of the main loop: if a poller of either kind is blocked and the notifier is clear, every scheduled bottom half has a scheduler still on its way to event_notifier_set, or another poller that will visit it |
| NotifyProtocol.NoLostWakeupSingle | Aurora-qemu-sgx/async.c:149-164 | With one poller, of either kind, the scheduler is the only possibility |
| NotifyProtocol.InFlightWillSet | Aurora-qemu-sgx/async.c:324-334 | While a poller of either kind is blocked notify_me is not 0, so the next step of such a scheduler takes it to event_notifier_set |
| NotifyProtocol.MoveCounts | Aurora-qemu-sgx/async.c:213-244 | The or and and of the event source and the additions of aio_poll do not disturb each other: both parts of notify_me stay exact |
| NotifyProtocol.NotifiesIff | Aurora-qemu-sgx/async.c:324-334 | aio_notify goes on to event_notifier_set if and only if the notify_me it read is not 0 |
| NotifyProtocol.NotifierNoticed | Aurora-qemu-sgx/async.c:336-341 | Whenever the notifier is set, notified is set or about to be, or a poller is about to clear the notifier |
| NotifyProtocol.ClearsMatchSets | Aurora-qemu-sgx/async.c:336-341 | The notifier is found noticed, and cleared, at most once for each time a scheduler set it, and no poller clears it without that |
| NotifyProtocol.CheckTakesBack | Aurora-qemu-sgx/async.c:230-244 | While aio_ctx_check looks for work the event source's bit of notify_me is clear |
| NotifyProtocol.SchedulingSets | Aurora-qemu-sgx/async.c:149-164 | A thread enters aio_notify only after setting the flag of a bottom half that was clear and is on the list |
| NotifyProtocol.WokenServes | Aurora-qemu-sgx/aio-posix.c:400-463 | From every reachable state in which a poller of either kind is blocked, once poll() returns that poller alone can get to where nothing is scheduled |
| NotifyProtocol.PollServes | Aurora-qemu-sgx/aio-posix.c:400-463 | So can a call of aio_poll that does not block |
| NotifyProtocol.IdleBlocks | Aurora-qemu-sgx/async.c:181-226 | With nothing scheduled, aio_poll and the event source can go to sleep |
| NotifyProtocol.CallbackPolls | Aurora-qemu-sgx/async.c:91-117 | A callback in a walk can poll again, without blocking, through aio_poll or, on the main loop's thread, through the event source |
| NotifyProtocol.PollsReturn | Aurora-qemu-sgx/async.c:230-258 | A walk that ends, or an iteration of the main loop that dispatches nothing, goes back to the loop or to the walk of any outer poll |
| NotifyProtocol.StepKeeps | Aurora-qemu-sgx/aio-posix.c:400-463 | Every step of aio_poll, of the event source, of schedulers and of list changes keeps the invariant: notify_me is twice the number of announced aio_poll calls, plus bit 0, which is set while the event source is announced |
| BottomHalves.WalksReachOnlyAllocated | Aurora-qemu-sgx/async.c:91-117 | However deeply polls are nested, what an activation will visit next, and all that follows, is allocated and linked |
| BottomHalves.FreedOnlyWithoutWalks | Aurora-qemu-sgx/async.c:119-135 | A bottom half is freed only when no activation is walking, and only if deleted and not scheduled |
| BottomHalves.OneshotsRunOnce | Aurora-qemu-sgx/async.c:47-63 | A one-shot queued before an outermost poll has run exactly once and is unlinked when that poll's reclamation ends |
| BottomHalves.OneshotsNeverTwice | Aurora-qemu-sgx/async.c:98-114 | In every state of every run a one-shot has run at most once |
| BottomHalves.SchedulesAnswered | Aurora-qemu-sgx/async.c:149-178 | In every state, the times a bottom half's flag was set are its runs, plus the cancels and deletes that found it set, plus one if it is set |
| BottomHalves.FlagCleared | Aurora-qemu-sgx/async.c:109-115 | A flag is cleared only by the walk that stands at the bottom half, which then is in its callback, or by its owner |
| BottomHalves.RunsOnlyScheduled | Aurora-qemu-sgx/async.c:109-115 | A callback runs only for a bottom half whose flag was set, and the flag is then clear |
| BottomHalves.PollServes | Aurora-qemu-sgx/async.c:91-117 | A bottom half that is scheduled when an outermost poll begins has run, or was cancelled or deleted, when its walk ends |
| BottomHalves.DeletedReclaimed | Aurora-qemu-sgx/async.c:119-135 | One that is deleted and not scheduled when the outermost walk ends is freed when the reclaiming loop ends |
| BottomHalves.PollsEnd | Aurora-qemu-sgx/async.c:91-138 | From every reachable state the polling thread alone, with callbacks that end, reaches the end of every poll in progress and of the reclaiming loop |
| BottomHalves.CallsTakeEffect | Aurora-qemu-sgx/async.c:47-178 | What scheduling, cancelling, deleting and creating do to the flags and the head of the list |
| BottomHalves.StepKeeps | Aurora-qemu-sgx/async.c:47-138 | Every step, including insertion at the head by other threads, keeps the invariant |
| VmcoreFiles.AppendAt | Aurora-qemu-sgx/dump.c:674-693 | A record decides the bytes of its range in the replayed file and no others |
| GuestPages.GetNextPage | Aurora-qemu-sgx/dump.c:1009-1053 | Delivers the guest's pages in order, number and contents, one per call, and stops exactly after the last |
| GuestPages.FramesIncrease | Aurora-qemu-sgx/dump.c:1439-1445 | Page frame numbers strictly increase and the last is one below max_mapnr |
| DumpBitmaps.LengthExact | Aurora-qemu-sgx/dump.c:1575-1578 | len_dump_bitmap is the end of the buffer that holds the last page frame |
| DumpBitmaps.TestPut | Aurora-qemu-sgx/dump.c:977-984 | Setting or clearing a bit changes that bit and no other |
| DumpBitmaps.DumpState.SetDumpBitmap | Aurora-qemu-sgx/dump.c:936-987 | Both bitmaps hold everything before the buffer of pfn; flushed bytes and buffer together mark the old set with pfn added or removed |
| DumpBitmaps.WriteDumpBitmap | Aurora-qemu-sgx/dump.c:1055-1105 | Two identical bitmaps of exactly len_dump_bitmap bytes, bit pfn set if and only if pfn lies in a guest block; num_dumpable is the number of set bits |
| LittleEndian.LeRoundTrip | Aurora-qemu-sgx/dump.c:1220-1223 | A field read back gives the value that was written, if it fits |
| LittleEndian.LeTruncates | Aurora-qemu-sgx/dump.c:184-198 | Read back, any number is what is left of it modulo the width of its field |
| KdumpPages.ParseEncode | Aurora-qemu-sgx/dump.c:1317-1323 | A page descriptor read back gives offset, size and flags, and no page flags |
| KdumpPages.DataCache.constructor | Aurora-qemu-sgx/dump.c:1107-1115 | An empty cache of the given size at an offset |
| KdumpPages.DataCache.Write | Aurora-qemu-sgx/dump.c:1117-1147 | The file and the buffer together hold all that was handed in, in order from the start offset; after a sync the file alone does; the buffer is written out exactly when the data does not fit |
| KdumpPages.ChosenOk | Aurora-qemu-sgx/dump.c:1239-1320 | Zero page, compressed page or plain text: the descriptor leads to bytes that decode to the page |
| KdumpPages.StorePage | Aurora-qemu-sgx/dump.c:1238-1332 | One more page is described; all zero pages share the first slot of the data |
| KdumpPages.WriteDumpPages | Aurora-qemu-sgx/dump.c:1184-1340 | The file holds a descriptor for every page, each leading to data that decodes to it, and nothing before the page section is touched |
| KdumpPages.ReadBack | Aurora-qemu-sgx/dump.c:1184-1340 | A reader that follows the k-th descriptor obtains the k-th guest page |
| KdumpLayout.PageExact | Aurora-qemu-sgx/dump.c:797-803 | Below 4 GiB the 32-bit offsets are the block boundaries the format asks for |
| KdumpLayout.LayoutSound | Aurora-qemu-sgx/dump.c:797-803 | Header, sub-header, notes, bitmaps and page section are pairwise disjoint if and only if the page section starts below 4 GiB |
| KdumpLayout.SixtyFourTebibytes | Aurora-qemu-sgx/dump.c:898-904 | For a guest of 64 TiB with one to four x86-64 CPUs the page section is placed on the first bitmap |
| Kdump.CreateHeader | Aurora-qemu-sgx/dump.c:812-905 | Header, sub-header and notes are in the file at their offsets, and the offsets of bitmaps and pages are set |
| KdumpHeaders.LayoutRead | Aurora-qemu-sgx/dump.c:812-905 | From the bytes of the two headers a reader finds the block size, the second bitmap, the page section and max_mapnr |
| KdumpHeaders.NotesRead | Aurora-qemu-sgx/dump.c:867-889 | And the notes |
| KdumpHeaders.HeaderRead | Aurora-qemu-sgx/dump.c:824-855 | The version, the name and time stamp, the compression flag, the number of CPUs and the 32-bit max_mapnr, cut off at its largest value, read back |
| KdumpHeaders.SubHeaderHolds | Aurora-qemu-sgx/dump.c:863-873 | The sub-header holds phys_base, cut to its field, and dump level 1; every other field except the notes' place and max_mapnr is zero |
| Kdump.CreateKdumpVmcore | Aurora-qemu-sgx/dump.c:1353-1405 | At the end header, notes, both bitmaps, descriptors and data are all intact in the file at once |
| Kdump.RankOfFrame | Aurora-qemu-sgx/dump.c:1075-1085 | The number of marked pages below a page is its index among the descriptors |
| Kdump.RoundTrip | Aurora-qemu-sgx/dump.c:1353-1405 | Looking a page up by number in the bitmap and then in the descriptors gives the guest's bytes for a page of a block and nothing for any other page |
| Kdump.DumpGuest | Aurora-qemu-sgx/dump.c:1353-1405 | From any sorted, disjoint, page-aligned, non-empty blocks to the file and back: a reader that starts from the headers obtains, for every page number, the guest's bytes if a block contains the page and nothing otherwise, the notes, and the codec's flag |
| ElfDumps.GetOffsetRange | Aurora-qemu-sgx/dump.c:370-426 | For every filter and every mapping, in the 64-bit arithmetic of the source: -1 is returned exactly for addresses not dumped; unless a mapping wraps around the address space from a dumped address, the offset is where the image holds its start, the size is cut at the mapping, the block and the filter, and the bytes there are the guest's |
| ElfDumps.DumpCalculateSize | Aurora-qemu-sgx/dump.c:1463-1483 | For every filter and all blocks: the 64-bit loop returns the sum of what is counted for each block, as an int64_t |
| ElfDumps.CountedImage | Aurora-qemu-sgx/dump.c:1463-1483 | That sum is the length of the memory image unless the filter's begin is negative |
| ElfDumps.NegativeBeginCounts | Aurora-qemu-sgx/dump.c:1463-1483 | A filter with a negative begin matches no block, and what is counted for it is the sum of those widths from begin to the end that an int64_t can hold |
| ElfDumps.NegativeBeginZero | Aurora-qemu-sgx/dump.c:1463-1483 | Two filters with a negative begin for which nothing, or a multiple of 2^62, is counted |
| ElfDumps.SizesAgree | Aurora-qemu-sgx/dump.c:602-612 | For a block that is not passed over, the size dump_iterate asks for is the size counted for it if and only if length >= 0 or begin + length < 0; otherwise it asks for the negative length, 0 is counted and the image has nothing of the block |
| ElfDumps.OddFilters | Aurora-qemu-sgx/dump.c:602-612 | Four filters on one block: passed over but counted with 50 bytes; a negative length with both sizes equal; -50 bytes asked for, which cannot be written; -4096 asked for, which writes nothing and succeeds |
| ElfDumps.AcceptedIff | Aurora-qemu-sgx/dump.c:1411-1437 | Some block matches if and only if there is no filter, or begin is not negative and the filter, its end taken as unsigned, meets a block |
| ElfDumps.ElfDump.GetStartBlock | Aurora-qemu-sgx/dump.c:1411-1437 | Selects the first block that matches the filter in unsigned comparisons and the position in it, or -1 exactly if there is none |
| ElfDumps.ElfDump.GetNextBlock | Aurora-qemu-sgx/dump.c:568-592 | Selects the next such block, or reports that all remaining blocks are outside |
| ElfDumps.ElfDump.WriteMemory | Aurora-qemu-sgx/dump.c:341-367 | For any signed size: exactly the requested bytes of the block are written, page by page and with the rest; a negative size writes nothing and succeeds if and only if it is a multiple of the page size |
| ElfDumps.ElfDump.DumpIterate | Aurora-qemu-sgx/dump.c:596-618 | For every filter: succeeds if and only if the filter does not run backwards or its length is a multiple of the page size, and then exactly the memory image is written; otherwise nothing is |
| ElfDumps.WriteElfLoads | Aurora-qemu-sgx/dump.c:428-465 | For any list of mappings: the bytes appended are one program header for each up to the largest count that can be expressed, with the mapping's addresses and size and the file range that get_offset_range gives for it |
| ElfDumps.DumpBegin | Aurora-qemu-sgx/dump.c:466-566 | The bytes written are the ELF header, PT_NOTE, the PT_LOAD headers, what write_elf_section writes and the notes, exactly memory_offset many |
| ElfFormat.PhdrRoundTrip | Aurora-qemu-sgx/dump.c:161-206 | A program header of either class read back gives its type, offset, addresses and sizes, cut to the width of the class |
| ElfFormat.EhdrRoundTrip | Aurora-qemu-sgx/dump.c:99-159 | An ELF header of either class read back gives its class, machine, offsets, entry sizes and counts |
| ElfFormat.PhdrUnset | Aurora-qemu-sgx/dump.c:161-206 | The flags and the alignment of a program header are zero |
| ElfFormat.EhdrIsCore | Aurora-qemu-sgx/dump.c:99-159 | The file is marked as a little-endian core file of version 1, without entry point, flags or string table, with the size of its own header |
| ElfFormat.ReadFront | Aurora-qemu-sgx/dump.c:466-566 | A reader of any file with this front obtains exactly the program headers written if and only if it reads their number, which is certain below 65533 mappings |
| ElfFormat.SectionNotWritten | Aurora-qemu-sgx/dump.c:302-329 | With 65533 mappings and zeros on the stack the reader is told of no program header |
| ElfFormat.NotesAt | Aurora-qemu-sgx/dump.c:207-230 | PT_NOTE points at the notes and has no address, and the memory follows them |
| ElfFormat.SectionAnnounced | Aurora-qemu-sgx/dump.c:1617-1632 | A section header is announced exactly from 65533 mappings on, and the number of program headers stops at its 32-bit limit |
| ElfDumps.CreateVmcore | Aurora-qemu-sgx/dump.c:621-632 | For every filter and any list of mappings: exactly when the dump is refused, fails or completes; a complete file is the headers, then the image; a reader of its bytes obtains the headers if and only if it reads their number, PT_NOTE points at the notes and every PT_LOAD with a file range at the memory of its mapping; the bytes written are as many as announced if and only if begin is not negative or the widths counted add up to a multiple of 2^64 |
| MemoryMappings.CutIs | Aurora-qemu-sgx/memory_mapping.c:331-356 | A mapping inside the address space that passes is cut to exactly the addresses it shares with the filter; if the filter's end lies before its begin, it starts at begin, where nothing is dumped, and wraps around |
| MemoryMappings.FilterMapping | Aurora-qemu-sgx/memory_mapping.c:344-354 | For every mapping, the two steps in unsigned arithmetic amount to cutting it at both ends modulo 2^64 |
| MemoryMappings.BlockMapping | Aurora-qemu-sgx/memory_mapping.c:337-338 | The mapping of a block passes if and only if get_start_block matches the block, and becomes the part of it that is dumped; under a filter that runs backwards its length is 2^64 plus the negative length |
| MemoryMappings.WrappedMappings | Aurora-qemu-sgx/memory_mapping.c:352-354 | The filters (100, -50) and (8192, -4096) turn the mapping of [0, 65536) into ones of 2^64 - 50 and 2^64 - 4096 bytes |
| MemoryMappings.MemoryMappingList.CreateNewMemoryMapping | Aurora-qemu-sgx/memory_mapping.c:25-53 | Inserts the mapping and keeps the list sorted by physical address |
| MemoryMappings.MemoryMappingList.GetGuestSimpleMemoryMapping | Aurora-qemu-sgx/memory_mapping.c:320-329 | The list holds one mapping for each block and no other |
| MemoryMappings.MemoryMappingList.Filter | Aurora-qemu-sgx/memory_mapping.c:331-356 | For any list: exactly the mappings that pass remain, in order, each cut |
| MemoryMappings.DescribesCut | Aurora-qemu-sgx/memory_mapping.c:331-356 | Filtering the list of all blocks leaves one mapping for each block that matches and no other |
| ElfHeaders.HeaderOfBlock | Aurora-qemu-sgx/dump.c:370-426 | The header of a block's mapping has the file range of exactly that block's part of the image |
| ElfHeaders.HeadersTile | Aurora-qemu-sgx/dump.c:428-465 | Every position of the image is reached by exactly one header, and no position outside it by any |
| ElfHeaders.ReadsGuest | Aurora-qemu-sgx/dump.c:370-465 | Looking an address up in the headers that a reader obtains leads to the guest's byte, or to none if the address is not dumped |
| ElfHeaders.DumpWithoutPaging | Aurora-qemu-sgx/dump.c:1559-1610 | From blocks and filter to the file and back, for every filter: when it is refused, fails or completes; one header for each block that matches, with equal file and memory size unless the filter runs backwards; every byte of the image is reached by exactly one header; a reader of the file's bytes obtains the guest's byte at every address that passes the filter and nothing at any other, as long as it reads the number of headers and everything fits the class |
| SoftTlbs.GrowMask | Aurora-qemu-sgx/cputlb.c:323-327 | The widening loop ends with the finest mask under which region and new page agree |
| SoftTlbs.CoversAll | Aurora-qemu-sgx/cputlb.c:309-330 | A region that covers a large page contains every address of it |
| SoftTlbs.FlushEntryGone | Aurora-qemu-sgx/cputlb.c:121-131 | An entry for a page, whatever its flags, does not survive the flush of that page |
| SoftTlbs.FlushExact | Aurora-qemu-sgx/cputlb.c:121-131 | Flushing a page clears an entry if and only if it is of that page |
| SoftTlbs.IndexSame | Aurora-qemu-sgx/cputlb.c:381-381 | Two addresses share a slot if and only if the low eight bits of their page numbers agree |
| SoftTlbs.SoftTlb.constructor | Aurora-qemu-sgx/cputlb.c:75-89 | A new TLB is valid and empty |
| SoftTlbs.SoftTlb.Flush | Aurora-qemu-sgx/cputlb.c:75-89 | Every entry is blank, no large page is recorded, every address is forgotten |
| SoftTlbs.SoftTlb.AddLargePage | Aurora-qemu-sgx/cputlb.c:311-330 | The region covers the new large page and all those before it, and is the smallest that does among the masks within the old one |
| SoftTlbs.SoftTlb.FlushPage | Aurora-qemu-sgx/cputlb.c:133-166 | No main or victim entry of any mode comes from a mapping that contains the address; outside the flush region exactly the entries of that page are cleared, inside it all are |
| SoftTlbs.SoftTlb.SetPage | Aurora-qemu-sgx/cputlb.c:339-418 | For every access kind the new entry's comparator matches the page if and only if the protection permits the access, with TLB_MMIO exactly for I/O, watched pages and writes to ROM and TLB_NOTDIRTY exactly for writes to clean RAM; the I/O slot leads back to the I/O address; the old entry with its origin is in the victim table, all others unchanged; a forgotten address outside the new mapping stays forgotten |
| SoftTlbs.SoftTlb.VictimTlbHit | Aurora-qemu-sgx/cputlb.c:539-559 | Hits exactly if a victim matches, then exchanges the two entries, their I/O slots and the mappings they come from and nothing else; a forgotten address stays forgotten |
| Icount.RoundLeast | Aurora-qemu-sgx/cpus.c:341-344 | The result is the least number of instructions that takes at least the given time |
| Icount.LimitLeast | Aurora-qemu-sgx/cpus.c:1058-1080 | The budget is the least number of instructions that takes as long as the deadline, or INT32_MAX nanoseconds without a near one |
| Icount.Counters.BeginSlice | Aurora-qemu-sgx/cpus.c:1102-1115 | The budget is handed out as decrementer and extra; the raw counter still is the number of instructions executed |
| Icount.Counters.ExecuteBlock | Aurora-qemu-sgx/include/exec/gen-icount.h:24-46 | The sign of the 32-bit difference is negative exactly if an interrupt is flagged or the block is longer than the decrementer; the block then does not run, otherwise it is charged for what it executed |
| Icount.Counters.Expire | Aurora-qemu-sgx/cpu-exec.c:562-585 | Refilling moves budget without creating or losing any; without a refill nothing changes and the remaining instructions are reported |
| Icount.Counters.EndSlice | Aurora-qemu-sgx/cpus.c:1122-1130 | The unused budget is taken back, and the counter is the number of instructions executed |
| Icount.Counters.TcgCpuExec | Aurora-qemu-sgx/cpus.c:1092-1132 | Over every sequence of blocks, refills and interrupts the raw counter is exact, and exactly the instructions that the budget allows before an interrupt are executed |
| Icount.Counters.Adjust | Aurora-qemu-sgx/cpus.c:288-324 | The shift goes down by one if and only if the guest is ahead by enough and it can, up by one if and only if it is behind by enough and it can, and the lead is remembered; virtual time is unchanged if and only if the caller has no budget outstanding; what a CPU with a budget reads moves by the change in its budget's worth if another thread adjusts |
| Icount.SliceThenAdjust | Aurora-qemu-sgx/cpus.c:1058-1132 | For every deadline: over a slice and an adjustment virtual time never goes back, and it passes the deadline, or INT32_MAX nanoseconds for a missing or distant one, by less than one instruction's time |
| GdbPackets.HexRoundTrip | Aurora-qemu-sgx/gdbstub.c:410-451 | hextomem undoes memtohex for all bytes |
| GdbPackets.HexDigits | Aurora-qemu-sgx/gdbstub.c:410-428 | Digits are written in lower case, read in either case, and anything else reads as 0 |
| GdbPackets.MemToHex | Aurora-qemu-sgx/gdbstub.c:430-441 | The buffer holds the hexadecimal digits and the terminating NUL |
| GdbPackets.HexToMem | Aurora-qemu-sgx/gdbstub.c:443-451 | The memory holds the decoded bytes |
| GdbPackets.UnescapeEscape | Aurora-qemu-sgx/gdbstub.c:499-517 | The escape encoding can be undone, so it is injective |
| GdbPackets.FlipBits | Aurora-qemu-sgx/gdbstub.c:508-508 | The flip of an escaped byte inverts bit 5 and no other |
| GdbPackets.EscapeClean | Aurora-qemu-sgx/gdbstub.c:499-517 | It contains no `#`, `$` or `*` and at most doubles the length |
| GdbPackets.MemToX | Aurora-qemu-sgx/gdbstub.c:499-517 | The buffer holds that encoding and its length is returned |
| GdbPackets.FeedAllOk | Aurora-qemu-sgx/gdbstub.c:1392-1466 | For every byte stream the line fits its buffer and every delivered payload is free of `#` and at most 4095 bytes long |
| GdbPackets.FeedPacket | Aurora-qemu-sgx/gdbstub.c:1420-1462 | From the idle state a packet of such a payload is acknowledged and delivers exactly that payload |
| GdbPackets.PacketChecksum | Aurora-qemu-sgx/gdbstub.c:454-476 | The two digits of a packet are the sum of its bytes, taken unsigned, modulo 256 |
| GdbPackets.FeedFramed | Aurora-qemu-sgx/gdbstub.c:1436-1462 | A framed payload with any two digits is delivered and acknowledged if and only if the digits are that sum; otherwise it is refused with '-' and nothing is delivered |
| GdbPackets.DeliveredIff | Aurora-qemu-sgx/gdbstub.c:454-486 | A payload is delivered by its own packet if and only if it has no `#` and at most 4095 bytes |
| GdbPackets.EscapedArrives | Aurora-qemu-sgx/gdbstub.c:499-517 | An escaped byte string that fits arrives and decodes to the original |
| GdbPackets.GdbState.PutPacketBinary | Aurora-qemu-sgx/gdbstub.c:454-486 | The packet is stored for retransmission and sent |
| GdbPackets.GdbState.ReadByte | Aurora-qemu-sgx/gdbstub.c:1392-1466 | The stub's buffers do what the parser specification says, and stay in bounds |

## Left out

- AddressSpaceDispatches.AddressSpaceDispatch.MemAdd: assumes a section disjoint from those registered, which the memory core guarantees.
- AddressSpaceDispatches.Publish: the failed assertion on the section table is a result; nothing is promised of the tables then.
- PhysPageMaps.PhysPageMap.PageSet: assumes an unassigned range, as the code does; page size and address width are those of x86 (4 KiB, 64 bits, six levels).
- ElfDumps.ElfDump.WriteMemory: a write of a negative count is taken to fail, and no other write does.
- ElfDumps.GetOffsetRange: assumes block ends below 2^63; of a mapping that wraps around the address space from a dumped address only the offset's sign and the bound of the size are stated, and memory_mapping_filter produces none (MemoryMappings.CutIs).
- ElfDumps.CreateVmcore: assumes guest blocks in ascending order, which the source asserts, and at least one.
- ElfHeaders.DumpWithoutPaging: the mapping lists that a walk of the guest's page tables builds are not modelled; ElfDumps.CreateVmcore holds for any list.
- MemoryMappings.MemoryMappingList.CreateNewMemoryMapping: the merging of adjacent mappings, used with page tables only, is not modelled.
- Kdump.DumpGuest: the same assumptions as Kdump.CreateKdumpVmcore and Kdump.RoundTrip.
- Kdump.CreateKdumpVmcore: assumes that the page section starts below 4 GiB, the exact condition of KdumpLayout.LayoutSound.
- Kdump.RoundTrip: assumes that file offsets fit in 64 bits and the page size in 32.
- KdumpPages.ParseEncode: little-endian targets only, as in ElfFormat and KdumpHeaders.
- KdumpLayout.SixtyFourTebibytes: the note size of a CPU is that of x86-64.
- KdumpPages.WriteDumpPages: the compressor is any function whose results its decompressor undoes.
- SoftTlbs.SoftTlb.SetPage: assumes a page-aligned address and a size that is a power of two of at least a page; the section lookup is a set of flags.
- Icount.Counters.TcgCpuExec: replay mode and the clock warp of an idle guest are not modelled.
- Icount.Counters.ExecuteBlock: assumes blocks of at most 0x7fff0000 instructions; the block length field of the source holds at most 0x7fff.
- GdbPackets.GdbState.PutPacketBinary: assumes payloads of at most 4096 bytes, the size of the packet buffer.
- GdbPackets.GdbState.ReadByte: the payload is delivered whole; the command handler of the source gets a NUL-terminated buffer without a length, so it sees a payload with a zero byte only up to that byte.
- WorkQueue.FifoExactlyOnce: an exclusive item's calls of start_exclusive and end_exclusive are part of its function here; that protocol is modelled on its own.
- WorkQueue.CallsBegin: a call made on the CPU's own thread, which runs its function directly, is not modelled.
- NotifyProtocol.NoLostWakeup: one thread runs the main loop; the order of its other event sources is any order.
- ExclusiveProtocol.NoDeadlock: states that some thread can move, not that a given thread eventually does.
- CPU hotplug during an exclusive section, and weak memory orders.
- Bottom halves scheduled idle, which rely on a timeout, and the epoll and Windows pollers.
- Writes to the dump's file descriptor that fail, and the contents of the notes.
- Flushes of single MMU modes, dirty tracking of TLB entries and the jump cache.
- GDB commands beyond framing and encodings.
- Direct (not bounced) mappings of guest memory, and migration of RAM blocks.
- Block layer, device models, the monitor and option parsing.
