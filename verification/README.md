# A verified model of the kernel's core

This project models the hard parts of a bare-metal Raspberry Pi kernel in Dafny and proves what they
promise: the lock-free pool allocator, the page tables and the heap on top of it, the completion
protocol of its coroutines, and six smaller cores (timer and spark queue, USB device tree, USB
configuration parser, USB transfer, xHCI event ring, memory copy).

| module (file) | models |
|---|---|
| `Kernel`, `Arith`, `Bits` | outcomes, remainders, 64-bit words as 64 booleans |
| `ZeroRuns` | the bit searches inside a word |
| `PoolWords`, `PoolProtocol`, `PoolSafety`, `PoolSteps`, `PoolTheorems` | the pool as a concurrent protocol: any number of threads, one step for each compare-and-swap or store, one program counter per thread |
| `PoolSolo` | what a thread of that protocol achieves when nobody disturbs it: every call ends, with the right result |
| `PoolWitness` | a run of the code as written that loses a slot |
| `PoolSearch`, `SequentialPool` (PoolAllocator.dfy) | the pool as a class used by one thread, with the search loops |
| `Promise` | `promise_base` as two interleaved agents |
| `PageTable`, `PageMapping` (Mmu.dfy) | descriptors, the three-level walk, mapping and committing pages |
| `Heap` | blocks of 64 KB over pages and pools |
| `Fifo` (CircularFifo.dfy), `Timer` | the timer table and the spark queue of one core |
| `DeviceTree`, `Descriptors`, `UsbTransfer` | the USB device table, the configuration parser, the channel's retries and copies |
| `EventRing` | the xHCI event ring and its cycle bit |
| `MemoryCopy` | `memcpy` and `memmove` on one memory |

## How the pool is shown to be safe

`PoolSafety.Inv` gives every slot an owner: a block in a caller's hands, a thread that is claiming or
freeing one, or the tail behind the last slot. What a thread owns is read off its program counter
alone. Each step hands slots of one word from one owner to another, and the bits follow
(`PoolSafety.KeepByWord`); the plain reads of `AllocateInternal` return anything at all, so that the
compare-and-swaps alone carry the proof. The sequential class reuses the invariant with one thread
and adds what only holds without interference: first fit, completeness, exact sizes.

## Where the code falls short of what it promises

- Line 368 of src/Containers.h undoes a first word with `INT64_MAX << bitIndex` where all ones are
  meant. It is right from `bitIndex` 1 on; at 0 it leaves slot 63 in use for ever. A step keeps the
  pool consistent if and only if it is not that one (`PoolTheorems.StepKeepsConsistencyIff`). Two
  threads can get there (`PoolWitness.RunLosesASlot`), but not while nobody asks for more than 64 slots
  (`PoolTheorems.ShortRequestsAreConsistent`).
- `abandon` in src/Async.h never destroys a frame when it reads Completing, and the two branches
  that were to do it in its place cannot be reached (`Promise.EveryRunIsSafe`).
- The unit count of a heap request is stored in 32 bits. Above 64 GB less 16 bytes it no longer covers
  the size (`Heap.UnitsCoverSizeIff`), and a request whose cut count is 1 to 4096 gets a block that is
  too short (`Heap.OversizeIsTruncated`).
- A timer at least 2^62 - 1 ticks ahead is never armed; the interrupt is switched off when there is
  no nearer one (`Timer.Settled`, `Timer.FarSparkIsNotArmed`).
- Line 678 of src/UsbDevices.cpp does not take device number 32 for a parent. Freeing a device below
  that entry leaves a pointer to a free entry when `UsbDeallocateDevice` returns; both callers clear it
  themselves (lines 767 and 809). Freeing that entry with a child frees the child twice and goes wrong
  (`DeviceTree.DanglesIffOnLastEntry`, `DeviceTree.Bus.UsbDeallocateDevice`, `DeviceTree.LastEntryFails`).
- An IN transfer reports its full size whatever it copied. The flag tested at line 661 of
  src/DesignWareUsbChannel.cpp is never cleared: when the packet count falls in a round while no
  answer has completed yet, bytes are missing (`UsbTransfer.FinishedIsWhole`,
  `UsbTransfer.FinishesWithoutItsBytes`); after an earlier success such a round copies whatever the DMA
  buffer holds (`UsbTransfer.OwnRoundsFill`).
- Heap addresses are aligned up to the page size only. Beyond it the heap accepts the request, and the
  address is aligned exactly when the block's first page happens to be (`Heap.BeyondPagesAlignedIff`,
  `Heap.OddBlockIsNotAligned`).

## Model

| member | source | states |
|---|---|---|
| `ZeroRuns.FindConsecutiveZeros` | src/Containers.h:53-86 | returns the least position whose next N bits of the zero-extended word are zero, else 64; terminates for every word and N |
| `ZeroRuns.FindConsecutiveZerosAligned` | src/Containers.h:94-135 | the same among multiples of the alignment, for every power of two; agrees with the unaligned search for 0 and 1; panics exactly on other alignments |
| `Bits.PowerOfTwoIff` | src/Containers.h:199-202 | the test for a power of two accepts 2^k for every k, and nothing else |
| `ZeroRuns.FirstFitUnique` | src/Containers.h:88-93 | the reference answer is the only position that fits with none before it |
| `ZeroRuns.SkipOnes` | src/Containers.h:112-120 | jumping over a run of ones and up to the next multiple passes no candidate |
| `ZeroRuns.SkipZeros` | src/Containers.h:124-133 | jumping over a run of zeros that is too short passes no candidate |
| `PoolWords.InitialSlots` | src/Containers.h:161-170 | at the start exactly the slots past the pool's end are in use, marked as one block |
| `PoolTheorems.EveryRunIsConsistent` | src/Containers.h:188-484 | in every state of every run of any number of threads the set bits are exactly the disjoint union of blocks, partly claimed blocks, partly freed blocks and the tail; start bits are exactly their first slots; blocks lie inside the pool; nobody has panicked and every thread's next step is defined; every measured size is the size of the block in its caller's hands |
| `PoolTheorems.StepKeepsConsistencyIff` | src/Containers.h:300-378 | a step from a consistent state leads to a consistent state if and only if it is not the rollback of line 368 at bit 0 with the mask as written |
| `PoolTheorems.RunsWithoutFaultAreConsistent` | src/Containers.h:188-484 | the code as written is consistent in every run without such a rollback |
| `PoolTheorems.ShortRequestsAreConsistent` | src/Containers.h:226-378 | the code as written is consistent in every run in which no request is for more than 64 slots |
| `PoolTheorems.FaultBreaks` | src/Containers.h:363-375 | that rollback leaves slot 63 of its word in use with no owner |
| `PoolTheorems.WrittenMaskLosesASlot` | src/Containers.h:363-375 | a concrete consistent state of two threads whose next step loses slot 63 |
| `PoolWitness.RunLosesASlot` | src/Containers.h:188-378 | a run of two threads from a new pool, every read returning what is there, after which slot 63 is in use and nobody has it |
| `PoolSolo.UndisturbedAllocate` | src/Containers.h:172-381 | whatever the other threads are in the middle of, an allocation that nobody disturbs ends, with the least aligned position that starts `count` free slots, or with nothing, and then there is none |
| `PoolSolo.UndisturbedDeallocate` | src/Containers.h:383-484 | a deallocation that nobody disturbs ends, the block is gone and the pool consistent |
| `PoolSolo.UndisturbedGetBlockSize` | src/Containers.h:547-581 | a measurement that nobody disturbs ends with the size of the block |
| `PoolSolo.LostSwapSearchesOn` | src/Containers.h:231-378 | a lost swap leads back to the search at the same word, if need be through the rollback, and never out of the call |
| `PoolSolo.EndsWithNothingOnlyAtTheEnd` | src/Containers.h:209-295 | under any contention an allocation ends with nothing only behind the last of the (size + 63) / 64 words |
| `PoolSolo.AloneIsARun` | src/Containers.h:172-484 | the steps of an undisturbed thread are a run of the protocol |
| `PoolSolo.NothingIsRefused` | src/Containers.h:172-211 | in a consistent state every allocation of a count up to 2^32 - 64 with an alignment 2^k may begin, and every thread in a call can take its next step |
| `PoolTheorems.RollbackGivesBackItsClaim` | src/Containers.h:350-378 | backing out of a multi-word attempt clears exactly slots it had claimed and no other bit, whatever other threads did to the same words |
| `PoolTheorems.StepTouchesOnlyItsOwn` | src/Containers.h:300-484 | a step changes no bit of a slot that its thread neither holds nor hands out |
| `PoolTheorems.PublishedIsFresh` | src/Containers.h:231-348 | a block is handed out only by an allocation, with the count and alignment it asked for, at a start where no live block is |
| `PoolTheorems.MeasuresKeep` | src/Containers.h:547-581 | a block that any number of threads are measuring stays its caller's, of the size they are to find, whatever step is taken |
| `PoolTheorems.InvIsConsistent` | src/Containers.h:139-159 | slot-by-slot ownership implies the statement about disjoint unions |
| `PoolSteps.MaskAsIntended` | src/Containers.h:368-369 | the written mask gives the intended word for bits 1 to 63 and differs from it by exactly bit 63 for bit 0 |
| `PoolSteps.ClaimSingle` | src/Containers.h:231-240 | the swap that claims a block inside one word keeps the invariant with the block as its new owner |
| `PoolSteps.ClaimFirst` | src/Containers.h:300-309 | the swap that claims the upper end of the first word keeps the invariant |
| `PoolSteps.ClaimWhole` | src/Containers.h:311-327 | the swap that claims a whole empty word extends the thread's claim by 64 slots |
| `PoolSteps.ClaimFinal` | src/Containers.h:329-348 | the last swap turns the claim into a block |
| `PoolSteps.ReleaseFirst` | src/Containers.h:363-375 | undoing the first word with the intended mask gives back the rest of the claim |
| `PoolSteps.ClaimIsClearable` | src/Containers.h:404-407 | the checks before each clear of `Deallocate` pass on a word that shows the freeing thread's claim |
| `PoolSteps.ReadingOn` | src/Containers.h:400-471 | a first read whose halves come from different moments passes those checks too |
| `PoolSteps.ReleaseTail` | src/Containers.h:408-482 | clearing the upper end of a shrinking block keeps the invariant, with the slots free |
| `PoolSteps.SizeFirstOk` | src/Containers.h:547-566 | the first word read by `GetBlockSize` counts exactly the block's slots in it, although other threads change the word meanwhile |
| `PoolSteps.SizeMoreOk` | src/Containers.h:567-581 | so does every later word, and the count stops at the block's end |
| `PoolSafety.KeepByWord` | src/Containers.h:147-155 | a write to one word that follows a transfer of slots between two owners keeps the invariant |
| `PoolSafety.CountedRun` | src/Containers.h:547-581 | in bitmap xor starts, the ones after a slot of a block run exactly to the block's end |
| `PoolWords.NextWordIsLeast` | src/Containers.h:209-212 | the next word tried is the first later one in which an aligned block can start |
| `PoolSearch.NoFitInSkippedWords` | src/Containers.h:209-230 | the words skipped for alignments above 64 hold no candidate |
| `PoolSearch.NoFitAcross` | src/Containers.h:249-295 | after a block across words has failed at a used slot, no candidate up to that slot was lost |
| `SequentialPool.PoolAllocator.constructor` | src/Containers.h:161-170 | a new pool is valid and has no block |
| `SequentialPool.PoolAllocator.Allocate` | src/Containers.h:172-186 | returns the least aligned position that starts `count` free slots and adds exactly that block; no room exactly when there is none; panics exactly on count 0 or an alignment that is not 2^k for any k |
| `SequentialPool.PoolAllocator.AllocateInternal` | src/Containers.h:188-207 | the same from the hint's word on |
| `SequentialPool.PoolAllocator.SearchFrom` | src/Containers.h:209-381 | the word loop, with its skips, is first fit and complete |
| `SequentialPool.PoolAllocator.TryWord` | src/Containers.h:215-295 | one word yields the first place in it, or the point up to which nothing fits |
| `SequentialPool.PoolAllocator.CommitAcross` | src/Containers.h:300-348 | the words of a block are claimed front to back and end up as exactly one new block |
| `SequentialPool.PoolAllocator.GetBlockSize` | src/Containers.h:547-581 | the size read off the bits is the size asked for; panics exactly when no block starts there |
| `SequentialPool.PoolAllocator.Deallocate` | src/Containers.h:383-484 | removes exactly the block, all checks on the way passing; panics, changing nothing, exactly when no block starts there |
| `SequentialPool.PoolAllocator.FreeOneWord` | src/Containers.h:396-418 | the check of line 404 passes and exactly the block is removed |
| `SequentialPool.PoolAllocator.ClearBackwards` | src/Containers.h:432-483 | the checks of lines 439 and 469 pass, and clearing back to front leaves no trace of the block |
| `SequentialPool.AllocateThenDeallocate` | src/Containers.h:172-484 | freeing what was just allocated restores every bit |
| `SequentialPool.WordsFromBlocks` | src/Containers.h:147-155 | the bits are a function of the set of blocks |
| `SequentialPool.BlocksDisjoint` | src/Containers.h:139-155 | live blocks never overlap |
| `SequentialPool.BlocksInside` | src/Containers.h:161-170 | live blocks lie inside the pool |
| `SequentialPool.BitsOfBlocks` | src/Containers.h:147-170 | a slot is in use exactly when a block covers it or it lies behind the end, and marked exactly where one of these starts |
| `SequentialPool.StartIffBlock` | src/Containers.h:547-560 | below the pool's end the start bits are exactly the starts of blocks |
| `Promise.EveryRunIsSafe` | src/Async.h:306-542 | in every interleaving the frame is destroyed at most once, nobody touches it afterwards, no assertion fires, and the branches at 404-409 and 440-446 are never taken |
| `Promise.DestroyedOnceUnlessAbandonReadCompleting` | src/Async.h:306-446 | a finished run destroys the frame once, or never, and never exactly when `abandon` read Completing |
| `Promise.DestroyedOnceAfterResume` | src/Async.h:306-462 | an owner that gives up only after its resumer has run never reads Completing, and the frame is destroyed exactly once |
| `Promise.CallbackExactlyOnce` | src/Async.h:419-542 | an await that returned true is called back exactly once, with the result stored, unless the owner gave up first; any other is never called back |
| `Promise.EndsCompleted` | src/Async.h:392-542 | once the coroutine has finished and the owner's call has ended the word is Completed |
| `Promise.HolderIsHowTheBodyEnded` | src/Async.h:139-209 | in every run the holder has an error exactly when the body threw, a value exactly when it returned and nothing before: whatever is read is what the body ended with |
| `Promise.PollTellsTheTruth` | src/Async.h:465-476 | polling says ready exactly when the coroutine has begun to complete |
| `Promise.OwnerStepRecords` | src/Async.h:306-351 | what `abandon` is recorded to have read, as the values of the word, and what an await returned |
| `Promise.CoroutineAdvances` | src/Async.h:375-462 | every step of the coroutine brings it nearer its end |
| `Promise.OwnerAdvances` | src/Async.h:306-352 | so does every step of the owner, but for the wait while the word is Completing |
| `Promise.NothingIsRefused` | src/Async.h:465-548 | the calls an owner may make, with the literal range of waiters |
| `Promise.AbandonWhileCompletingLosesTheFrame` | src/Async.h:336-351 | a run whose frame is never destroyed |
| `PageTable.TableDescriptorDecodes` | src/Mmu.cpp:26-42 | the hardware reads back the table's page from its descriptor |
| `PageTable.PageDescriptorDecodes` | src/Mmu.cpp:92-113 | and the page from a page descriptor |
| `PageTable.BlockDescriptorDecodes` | src/Mmu.cpp:44-66 | and the gigabyte from a block descriptor, for every attribute |
| `PageTable.BlockKinds` | src/Mmu.cpp:166-192 | normal, GPU and device blocks field by field: attribute index, shareability, access flag, execute-never, address, all other bits clear |
| `PageTable.PageKind` | src/Mmu.cpp:211-214 | page and table descriptors bit by bit |
| `PageTable.WalkOfThreeLevels` | src/Mmu.cpp:415-463 | which bits of the address choose the entry of each level, and what each kind of entry leads to |
| `PageTable.AddLevel2` | src/Mmu.cpp:437-450 | hanging an empty level 2 table in changes no translation and keeps the tree |
| `PageTable.AddLevel3` | src/Mmu.cpp:415-428 | the same for level 3 |
| `PageTable.SetPage` | src/Mmu.cpp:405-413 | writing an entry changes the walk of one virtual page to it and of no other |
| `PageMapping.Mmu.constructor` | src/Mmu.cpp:306-403 | the initial tables form a tree and are those of the board |
| `PageMapping.WhereEveryPageGoes` | src/Mmu.cpp:306-386 | in every reachable state, on either board, every page outside the allocator's gigabyte goes exactly where the tables are meant to send it, with its attributes: normal memory, device memory, the two windows, and nothing elsewhere |
| `PageMapping.WhereCommittedPagesAre` | src/Mmu.cpp:395-403 | committed pages lie in the gigabyte from 4 GB on, their physical pages and the tables in the 256 MB from 512 MB on, and they read as normal memory |
| `PageMapping.Mmu.MapOnePage` | src/Mmu.cpp:437-463 | afterwards the page walks to the entry and every other page as before, whichever tables had to be made |
| `PageMapping.Mmu.MapInLevel2` | src/Mmu.cpp:415-435 | the same below level 1 |
| `PageMapping.Mmu.CommitPages` | src/Mmu.cpp:465-486 | every page of the range gets a physical page of its own; every other committed page keeps its own and every page outside the range walks as before, even when the physical pages run out, which is the only way to fail |
| `PageMapping.Mmu.AllocateAndCommitPages` | src/Mmu.cpp:488-499 | a fresh range of virtual pages, all committed; earlier pages keep their physical pages and every page outside the new range walks as before; fails only when a pool has no room |
| `PageMapping.Mmu.AllocateGpuMemory` | src/Mmu.cpp:507-512 | a fresh physical block, reached page by page through the window |
| `PageMapping.PagesAreDistinct` | src/Mmu.cpp:415-486 | in every reachable state committed pages have different physical pages, none of which holds a table |
| `PageMapping.GpuBlocksApart` | src/Mmu.cpp:507-512 | memory handed to the GPU holds no committed page and no table |
| `PageMapping.ApertureWindow` | src/Mmu.cpp:336-388 | the window at 0x7'0000'0000 translates the first 8 GB one to one in every reachable state |
| `PageMapping.GpuWindow` | src/Mmu.cpp:311-352 | the window at 0xC000'0000 translates the first gigabyte |
| `Heap.Heap.CommitIfNeeded` | src/Heap.cpp:31-55 | a block gets committed memory once, and keeps it; fails only when no pages are left |
| `Heap.Heap.AllocateInBlock` | src/Heap.cpp:57-74 | a fresh aligned run in the block, or the block is full for the request, or no pages are left for it |
| `Heap.Heap.TryBlocks` | src/Heap.cpp:141-161 | the rotation meets every block; full means every block is; it stops early only for want of pages |
| `Heap.Heap.PlaceUnits` | src/Heap.cpp:135-176 | terminates within two rounds, grows by at most one block, and gives up only with 256 full blocks or no pages left |
| `Heap.Heap.AllocateAligned` | src/Heap.cpp:118-176 | the address of a fresh run in a block below the count, for a good request only; blocks are tried in rotation from the hint, which then moves behind the block; a block is added only when all others are full; a panic only on a bad request or when all 256 blocks lack a fitting run; out of pages only when no page or no range for a block is left |
| `Heap.Heap.Deallocate` | src/Heap.cpp:178-213 | the byte address of a live allocation's first unit frees exactly that allocation; any other pointer frees the one that starts at the 16-byte unit it points into, or panics, changing nothing |
| `Heap.AllocateThenDeallocate` | src/Heap.cpp:118-213 | the address just returned frees exactly what was allocated |
| `Heap.LivePointer` | src/Heap.cpp:195-203 | which unit of which block an address names |
| `Heap.LiveAllocationsDisjoint` | src/Heap.cpp:118-176 | live allocations are disjoint byte ranges inside their blocks |
| `Heap.LiveBytesAreBacked` | src/Heap.cpp:31-74 | every byte of a live allocation lies on a committed page, apart in physical memory from every other committed byte and from all tables |
| `Heap.OneContains` | src/Heap.cpp:186-206 | no pointer lies in two blocks |
| `Heap.AddressAligned` | src/Heap.cpp:118-176 | addresses are aligned to every power of two up to the page size that was asked for |
| `Heap.BeyondPagesAlignedIff` | src/Heap.cpp:57-74 | from the page size on an address is aligned if and only if the block's first page is |
| `Heap.OddBlockIsNotAligned` | src/Heap.cpp:57-74 | unit 0 of a block on an odd page passes for aligned to 8192 and is not |
| `Heap.UnitsCoverSizeIff` | src/Heap.cpp:118-133 | the units cover the size if and only if it is at most 64 GB less 16 bytes |
| `Heap.OversizeIsTruncated` | src/Heap.cpp:118-133 | 64 GB and 16 bytes are taken for 16 bytes |
| `Heap.Geometry` | src/Heap.cpp:13-24 | 256 blocks of 64 KB in 16 pages of 4 KB and 4096 units of 16 bytes |
| `Fifo.CircularFifo.Push` | src/Containers.h:23-31 | appends the item; panics exactly when it would be item number `capacity` |
| `Fifo.CircularFifo.Pop` | src/Containers.h:33-42 | removes the oldest item; panics exactly when there is none |
| `Timer.NearerFirst` | src/BootLib/inc/BootLib/Cpu.h:31-32 | the wrapping comparison of times agrees with the time left, below the far-future bound |
| `Timer.Core.FindNextScheduledTimerTriggerTime` | src/Timer.cpp:40-69 | queues exactly the due sparks in slot order, empties exactly their slots and finds the slot with the least time left; panics exactly when the queue cannot take them |
| `Timer.Core.SetupTimerForNext` | src/Timer.cpp:72-102 | nothing left was due, and the armed delay is the least time left; switched off exactly when all that is left is beyond the bound |
| `Timer.FarSparkIsNotArmed` | src/Timer.cpp:46-87 | a spark scheduled 2^62 - 1 ticks ahead on a new core is accepted, waits, and nothing is armed for it |
| `Timer.ProbesReachAll` | src/Timer.cpp:125-127 | the rotating search reaches every slot, wherever its 32-bit start stands |
| `Timer.Core.ScheduleSparkAtTime` | src/Timer.cpp:112-144 | refuses exactly a null function or a full table; otherwise stores the spark in the first free slot of the rotation and conserves all others |
| `Timer.Core.FindFreeSlot` | src/Timer.cpp:125-129 | the rotating search finds the first free slot in its order, and misses none |
| `Timer.Core.CancelSpark` | src/Timer.cpp:146-167 | removes exactly the spark in the slot and counts it as cancelled; false exactly when there is none |
| `Timer.Core.HandleArmVirtualTimerInterrupt` | src/Timer.cpp:225-232 | queues what is due, arms again and hands out the oldest spark |
| `Timer.Core.AddSpark` | src/Scheduler.cpp:78-83 | a spark taken on directly is queued behind the others |
| `Timer.Core.GetNextScheduledSpark` | src/Scheduler.cpp:85-105 | sparks are handed out in the order they were queued |
| `Timer.FiringMoves` | src/Timer.cpp:49-66 | what leaves the table is exactly what is queued |
| `Timer.OnlyDueSlotsFire` | src/Timer.cpp:49-66 | exactly the slots with a function whose time is not ahead of the clock are emptied; all others stay as they are |
| `Timer.DueSparksInOrder` | src/Timer.cpp:49-61 | exactly their sparks are queued, in slot order |
| `Timer.ConservedByScheduling` | src/Timer.cpp:112-144 | scheduling keeps the account of sparks |
| `Timer.ConservedByCancelling` | src/Timer.cpp:146-167 | cancelling keeps it |
| `Timer.ConservedByFiring` | src/Timer.cpp:55-60 | firing keeps it |
| `Timer.InExactlyOnePlace` | src/Timer.cpp:40-167 | a spark taken on once is in exactly one of table, queue, delivered and cancelled |
| `Timer.WaitingMeansHeld` | src/Timer.cpp:16-33 | a spark counts as waiting exactly when some slot holds it |
| `DeviceTree.Bus.UsbDeallocateDevice` | src/UsbDevices.cpp:669-688 | terminates; frees exactly the subtree, its hub payloads and the pointers to it, and changes nothing else; goes wrong exactly on a free device or with a child on entry 31 inside the subtree |
| `DeviceTree.Bus.FreeChildren` | src/UsbDevices.cpp:671-674 | after the loop exactly the subtrees on the ports are freed; it fails exactly when some child cannot be freed |
| `DeviceTree.Bus.RemoveHubPayload` | src/UsbDevices.cpp:626-636 | on any device: frees the children still there, then clears the payload; leaves a device that is no hub alone; fails exactly when some child cannot be freed, such as one freed before |
| `DeviceTree.Bus.Unlink` | src/UsbDevices.cpp:678-687 | clears the one parent slot and the entry |
| `DeviceTree.DanglesIffOnLastEntry` | src/UsbDevices.cpp:678-686 | freeing leaves a pointer to a free entry if and only if the device hung on entry 31 |
| `DeviceTree.LastEntryFails` | src/UsbDevices.cpp:669-688 | concrete tables with a hub on entry 31: freeing its child leaves the pointer, freeing the hub goes wrong |
| `DeviceTree.PrunedForest` | src/UsbDevices.cpp:669-688 | freeing devices keeps the forest well formed |
| `DeviceTree.FreedEntriesAreFree` | src/UsbDevices.cpp:605-616 | entries of freed devices and of their hub payloads pass for free in the searches for one, and no others that did not before |
| `DeviceTree.PrunedTwice` | src/UsbDevices.cpp:672-675 | freeing one set of devices and then another is freeing both |
| `DeviceTree.SiblingsApart` | src/UsbDevices.cpp:672-675 | children of one hub share no descendant |
| `DeviceTree.SubtreeStays` | src/UsbDevices.cpp:672-675 | freeing devices outside a subtree leaves it as it was |
| `Descriptors.UsbDevice.ParseConfiguration` | src/UsbDevices.cpp:1112-1153 | the loop over the buffer computes the parse function, for every buffer and length |
| `Descriptors.ParseUndoesSerialise` | src/UsbDevices.cpp:1114-1153 | for every well-formed configuration parsing ends exactly at the total length and stores each interface in order with exactly its own endpoints, touching no other place |
| `Descriptors.WhatIsStored` | src/UsbDevices.cpp:1118-1137 | exactly descriptors of type 4 become interfaces, of 9 bytes, and of type 5 endpoints, of 7 |
| `Descriptors.ParseBody` | src/UsbDevices.cpp:1127-1152 | the endpoints between two interfaces fill the row of the first, and other descriptors are passed over |
| `Descriptors.OneDescriptor` | src/UsbDevices.cpp:1115-1152 | the loop steps from each descriptor to the next |
| `UsbTransfer.OneAnswer` | src/DesignWareUsbChannel.cpp:179-254 | no counter passes its limit; fatal are exactly the two bus errors and an unacknowledged answer that brings a counter to its limit; the last error code is never reported |
| `UsbTransfer.AnswerInFull` | src/DesignWareUsbChannel.cpp:179-254 | the error code, every flag and every counter for every answer |
| `UsbTransfer.LimitsAndSizes` | src/DesignWareUsbChannel.cpp:573-575 | the limits 5, 3 and 3, and packets of 8 bytes at low speed and of the pipe's size otherwise |
| `UsbTransfer.Round` | src/DesignWareUsbChannel.cpp:605-658 | for every sequence of answers the round goes on exactly while no answer ends it or makes it give up, and reports which; at most 6 unacknowledged transmissions when split, and at most what is left of 3 at high speed |
| `UsbTransfer.TransferIn` | src/DesignWareUsbChannel.cpp:537-690 | the rounds are exactly those that the answers end; it fails exactly at the first answer that is dead or the third, fifth or third serious unacknowledged one, finishes exactly at the first round that leaves no packet, and overruns exactly at the first copy past the buffer, which needs a count that rises; the buffer holds exactly what the rounds delivered and is otherwise untouched; at most 3 unacknowledged transmissions at high speed and 6 in each split round |
| `UsbTransfer.OutcomeIsDetermined` | src/DesignWareUsbChannel.cpp:589-690 | what `TransferIn` promises of the outcome admits exactly one result, after exactly one number of answers |
| `UsbTransfer.RoundRecorded` | src/DesignWareUsbChannel.cpp:589-658 | while a round goes on no earlier answer stops the transfer or ends a round |
| `UsbTransfer.GivesUpMeans` | src/DesignWareUsbChannel.cpp:613-657 | the counters give up exactly when the sequence of answers says so |
| `UsbTransfer.ReceivedIsDone` | src/DesignWareUsbChannel.cpp:660-684 | the bytes received never pass the packets gone, and equal them if and only if the count fell only with the success flag set |
| `UsbTransfer.EachRoundFillsItsStretch` | src/DesignWareUsbChannel.cpp:662-683 | consecutive rounds fill consecutive stretches from their DMA buffers: no gap, no overlap |
| `UsbTransfer.FinishedIsWhole` | src/DesignWareUsbChannel.cpp:591-690 | a finished transfer has received the whole buffer if and only if the count fell only with the success flag set |
| `UsbTransfer.OwnRoundsFill` | src/DesignWareUsbChannel.cpp:660-684 | all bytes of the packets gone are there, each from a round that completed itself, if and only if the count fell only in such rounds |
| `UsbTransfer.FinishesWithoutItsBytes` | src/DesignWareUsbChannel.cpp:659-690 | a high-speed transfer of 8 bytes that reports 8 and has not touched the buffer |
| `UsbTransfer.OneVanishes` | src/DesignWareUsbChannel.cpp:659-687 | why: one halted answer without acknowledgement ends the round with no packet left and no byte received |
| `UsbTransfer.LastPacketStartsInside` | src/DesignWareUsbChannel.cpp:573-575 | the packet count rounds up: the last packet starts inside the buffer, so the last length does not underflow |
| `EventRing.Ring.TakeEvent` | src/UsbXhci.cpp:298-325 | takes the next event if and only if there is one |
| `EventRing.Ring.ProcessEvents` | src/UsbXhci.cpp:297-330 | while the controller goes on writing between the rounds, what it has written is what came and found room, in order; every event is consumed once and in order, and the loop stops exactly at the producer's position |
| `EventRing.Ring.Arrive` | src/UsbXhci.cpp:297-330 | the controller's side: events are appended in order until it is a full ring ahead |
| `EventRing.FullRing` | src/UsbXhci.cpp:321-324 | a full ring ahead is the same position with the other cycle state |
| `EventRing.NewOrOld` | src/UsbXhci.cpp:301-305 | the cycle bit tells an event of this lap from one of the lap before, up to a full ring ahead |
| `EventRing.NextSlot` | src/UsbXhci.cpp:227-229 | position and cycle state after each advance, including the wrap |
| `EventRing.WrittenMore` | src/UsbXhci.cpp:297-330 | one more event of the producer overwrites only what was consumed |
| `MemoryCopy.Memcpy` | src/Crt.cpp:50-79 | the mixed byte and 8-byte loops copy the region, and change nothing else, for disjoint regions and for a destination at or below its source |
| `MemoryCopy.Memmove` | src/Crt.cpp:81-101 | the destination equals the old source for every overlap and length, and nothing else changes |
| `MemoryCopy.CopiedByte` | src/Crt.cpp:50-101 | what copied means, byte by byte |
| `MemoryCopy.CopyOn` | src/Crt.cpp:50-79 | a forward step copies bytes of the source that earlier steps have not overwritten |

## Left out

- PoolProtocol: callers do not free a block while a thread measures it, as they may not use it after freeing it.
- Weak memory: each atomic operation is one sequentially consistent step. Liveness is claimed for threads that nobody disturbs, not under contention.
- Undefined shifts by 64 are taken modulo 64, as AArch64 does; `x & ~(a - 1)` and `a & (a - 1)` are modelled as the arithmetic they compute.
- Pools larger than 2^32 - 64 slots and counts above that, for which line 230 of src/Containers.h wraps around.
- `GetContainingBlockInformation` (src/Containers.h, lines 492-545), which is unfinished.
- SequentialPool.PoolAllocator.AllocateInternal: every swap succeeds, so the retry loop of `Allocate` runs once; contention is in `PoolProtocol`.
- Exception rethrow, the categories of result types and the layout of coroutine frames: a result is empty, a value or an error. The owner awaits at most once, with a waiter value above 16 that is none of the four states.
- Cache maintenance, barriers, attribute registers and TLB behaviour in src/Mmu.cpp; level 2 block entries, which the code never makes.
- PageMapping.Mmu.CommitPages: running out of physical pages, which the source does not check, ends the call in the model.
- Heap: calls are atomic, so a lost race for a block's memory, and the pages it leaks, do not occur; the memory of the heap structure itself, `DestroyHeap` and the statistics are not modelled. `hint % 0` on first use is 0, what the hardware gives.
- Timer: one core, with its own search start where the source shares one among cores; the clock is a parameter; a timer interrupt runs the handler and `GetNextScheduledSpark` as one step; the 32-bit width of the countdown register is not modelled, and the delay is the value written to it.
- DeviceTree: allocation of entries and hub payloads (they would only add a search for the first free entry) and HID payloads, which freeing a device does not return.
- Descriptors: the HID branch is passed over like any other descriptor (its payload is not stored, and its allocation does not fail); an index outside an array ends the parse as OutOfBounds.
- UsbTransfer.TransferIn: the run is taken over every finite sequence of answers of the hardware, since the source may wait for ever; delays and register programming are not modelled. A low-speed pipe is covered for a maximum packet size of 8. `TransferOut` has the same loop with the copy reversed.
- EventRing: event contents are not interpreted, the dequeue register is not modelled, and neither are the command ring and its doorbells.
- MemoryCopy: `memset` and the string functions.
- Drivers for UART, GPIO, SD card, mailbox, PCIe, interrupt controllers and the debugger, the framebuffer, input decoding and the game.
