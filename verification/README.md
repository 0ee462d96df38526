# Verified models of the MollenOS memory, scheduling and boot code

This project models the parts of the MollenOS kernel, driver library and boot loader whose
state is easiest to get wrong, and proves what they promise. `dafny verify dfyconfig.toml`
checks everything.

| component | source | modules |
|---|---|---|
| two buddy pools, one over an array and one over linked nodes | `kernel/utils/static_memory_pool.c`, `kernel/utils/dynamic_memory_pool.c` | Powers, BuddyTree, BuddyArray, BuddySteps, StaticPool, DynamicPool, BuddyRuns, BuddyCompleteness, BuddyFlags |
| boundary-tag pool in raw memory | `librt/libddk/bytepool.c` | Memory, BytePoolTiling, BytePoolFit, BytePoolLayout, BytePoolSteps, BytePool |
| multilevel feedback scheduler | `kernel/components/scheduler.c` | Counting, SchedulerSpec, SchedulerSystem, SchedulerRuns, SchedulerAdvance, SchedulerQueues, SchedulerMachine, SchedulerSleep |
| aPLib-style depacker of the boot loader | `boot/uefi/depack.c` | Tokens, TokenCodec, TokenFacts, Depack |
| slab heap | `kernel/memory/heap.c` | SlabLayout, Slabs, SlabCache, Heap, HeapRuns |
| boot memory map | `boot/uefi/library.c` | MemoryMap |
| stack of physical pages | `kernel/utils/memory_stack.c` | PageStack |
| ticket spinlock | `kernel/sync/spinlock.c` | TicketLock |

`Sequences` and `Wrappers` hold what several components need.

Each component has two layers. A specification on values says what an operation does (a tree,
a tiling of memory by blocks, a list of tokens, a step of a state machine), and lemmas prove
what is promised of it over all inputs or whole runs. Beside it stands the code's own form:
classes whose methods change arrays, links, bitmaps and counters in place, with the loops of
the source, each proved equal to the specification. Concurrent code (the scheduler's object
states and messages between cores, the ticket lock) is a step system in which every atomic
operation is one step and any interleaving is allowed. For the scheduler the two layers meet in
`SchedulerMachine`: every run of the step system is carried out on the linked queues of all the
cores, and one call of SchedulerAdvance is a run of steps.

## What the code was found to do

Some properties do not hold of the code as one would first state them. The code is modelled
as it is. For each there is a lemma or method at an input that fails, and one that gives the
exact condition.

| what fails | input | exact condition |
|---|---|---|
| a buddy pool refuses a request although a block is free: a split node keeps its flag until both halves are clear, and hides the free half | `BuddyCompleteness.UpperHalfHidden` | `BuddyCompleteness.RefusedIffHidden` |
| a buddy request larger than the pool is given the whole pool | `BuddyTree.OversizeTakesAll` | `BuddyTree.FitHeightIsSmallest` |
| small objects whose alignment does not divide the page size run over their slab | `SlabLayout.AlignmentMatters` | `SlabLayout.LayoutSoundAnyAlignment` |
| padded objects of 4096 or 8192 bytes run over their slab | `SlabLayout.PaddedOverrun` | `SlabLayout.LayoutSound` |
| objects of 8192 bytes and more are asked for at multiples of their size and get multiples of the page size | `SlabLayout.LargeNotAligned` | `SlabLayout.ObjectsAligned` |
| a pass over the scheduler's sleep queue leaves sleepers asleep whose time has come | `SchedulerSleep.TwoSleepersDue` | `SchedulerSleep.Sweep` |
| the boot memory map says something new about memory outside the kernel, and its total length changes, because a 64-bit length wraps | `MemoryMap.KernelRunsOver` | `MemoryMap.MarkingChangesOnlyKernel`, `MemoryMap.MarkingKeepsTotal` |
| a page stack is not restored by a push and a pop | `PageStack.EmptyRunLost` | `PageStack.PopAfterPush` |
| the assert in the release of the ticket lock fails for a single, well-behaved thread | `TicketLock.TicketsRunOut` | `TicketLock.RunSafe`, for fewer tickets than the input takes |

Where comments and code disagree, the code is followed: the slab search accepts a sixteenth of
a page of waste, not an eighth, and up to 512 pages, not 256 (`kernel/memory/heap.c:493-526`).

## Model

| member | source | states |
|---|---|---|
| BuddyTree.AllocateTakesLowestOpen | kernel/utils/static_memory_pool.c:139-206 | the search returns the lowest-addressed unsplit block of the fitting height with no flag on it or above it, and fails exactly when there is none |
| BuddyTree.FitHeightIsSmallest | kernel/utils/static_memory_pool.c:139-206 | the height chosen is the smallest whose block holds the request; it holds it exactly when the whole pool does, and otherwise is that of the whole pool |
| BuddyTree.OversizeTakesAll | kernel/utils/static_memory_pool.c:139-206 | of a clear pool a request larger than it is not refused but given all of it |
| BuddyTree.AllocateAddsBlock | kernel/utils/static_memory_pool.c:139-206 | an allocation keeps the tree invariant and adds exactly one live block, of the fitting size and disjoint from every other |
| BuddyTree.LiveDisjoint | kernel/utils/static_memory_pool.c:139-206 | no two live blocks share a byte |
| BuddyTree.LiveWellPlaced | kernel/utils/static_memory_pool.c:139-206 | live blocks lie inside the pool, have a size of chunk times a power of two and are aligned to it |
| BuddyTree.ReleaseKeepsValid | kernel/utils/static_memory_pool.c:222-282 | a release keeps the tree invariant and sets no flag |
| BuddyTree.ReleaseSucceeds | kernel/utils/static_memory_pool.c:222-282 | a release succeeds exactly when a live block contains the address, and otherwise changes nothing |
| BuddyTree.ReleaseRemovesBlock | kernel/utils/static_memory_pool.c:222-282 | a release gives back exactly the live block that contains the address |
| BuddyTree.NoLiveIsClear | kernel/utils/static_memory_pool.c:241-275 | a subtree without live blocks has every flag clear, and the other way round |
| BuddyArray.SoundIsValid | kernel/utils/static_memory_pool.c:103-282 | flags in the array that fit their children make a valid tree |
| BuddyArray.SameTreeSameFlags | kernel/utils/static_memory_pool.c:222-282 | equal trees have equal Split and Allocated flags at every node |
| StaticPool.CalculateSize | kernel/utils/static_memory_pool.c:51-67 | the storage paid for is exactly the number of nodes of the tree over the largest power of two of chunks, and so that of the tree of every pool |
| StaticPool.PowerOfTwo | kernel/utils/static_memory_pool.c:37-49 | the loop computes a power of two |
| StaticPool.Pool.constructor | kernel/utils/static_memory_pool.c:69-90 | a new pool is one clear block |
| StaticPool.Create | kernel/utils/static_memory_pool.c:51-90 | a pool on the storage that was asked for has a place for every node of its tree |
| StaticPool.Pool.FindNextParent | kernel/utils/static_memory_pool.c:103-137 | the climb ends at the next unflagged upper half, with index, depth and address that agree, and searching from there is what is left of the recursive search; or nothing is left of it |
| StaticPool.Pool.Allocate | kernel/utils/static_memory_pool.c:139-206 | the iterative search stays inside the node array, terminates and gives the address and the tree of the recursive allocation; on failure no flag changes |
| StaticPool.Pool.Free | kernel/utils/static_memory_pool.c:222-282 | the iterative release gives the tree and the result of the recursive one; on failure no flag changes |
| DynamicPool.Node.constructor | kernel/utils/dynamic_memory_pool.c:35-50 | a new node has no children and clear flags |
| DynamicPool.Pool.constructor | kernel/utils/dynamic_memory_pool.c:52-70 | a new pool is one clear block |
| DynamicPool.Pool.FindNextParent | kernel/utils/dynamic_memory_pool.c:95-124 | over parent links: the next unflagged upper half, or null when nothing is left of the search |
| DynamicPool.Pool.Allocate | kernel/utils/dynamic_memory_pool.c:126-206 | with nodes created on demand: the address and the tree of the same recursive allocation |
| DynamicPool.Pool.Free | kernel/utils/dynamic_memory_pool.c:226-284 | the tree and the result of the same recursive release |
| BuddyRuns.StepAgrees | kernel/utils/static_memory_pool.c:139-282 | after one operation the live blocks are what a client holds, judged by the replies alone |
| BuddyRuns.RunSafe | kernel/utils/static_memory_pool.c:139-282 | after every run the pool holds exactly the blocks handed out and not given back; they are disjoint, inside the pool and aligned |
| BuddyRuns.RunDrained | kernel/utils/static_memory_pool.c:222-282 | once everything is given back the tree is that of a new pool and a request of any size is placed at its start |
| BuddyRuns.Lockstep | kernel/utils/dynamic_memory_pool.c:95-284 | any sequence of operations gives the same replies on both pools and leaves equal flags |
| BuddyCompleteness.VacantIffFree | kernel/utils/static_memory_pool.c:139-206 | the blocks of the tree that hold nothing in use are exactly the blocks of that size that share no byte with a live one |
| BuddyCompleteness.OpenIsVacantInSight | kernel/utils/static_memory_pool.c:139-206 | the search can see a block exactly when it is vacant and no split node above it is flagged |
| BuddyCompleteness.RefusedIffHidden | kernel/utils/static_memory_pool.c:139-282 | a request is refused exactly when every free block of the fitting size is hidden by a flag |
| BuddyCompleteness.UpperHalfHidden | kernel/utils/static_memory_pool.c:222-282 | on every pool of more than one chunk, when both halves are taken and the upper one is given back, it is refused to the next request for a half |
| BuddyFlags.AllocateLatches | kernel/utils/static_memory_pool.c:139-206 | in the tree after an allocation every split node is flagged if both its halves are, clear if neither is, and otherwise as it was |
| BuddyFlags.ReleaseLatches | kernel/utils/static_memory_pool.c:222-282 | the same of the tree after a release |
| BuddyFlags.AllocateHidesNothing | kernel/utils/static_memory_pool.c:139-206 | a block of any size that the search could see and that does not overlap the one handed out can still be seen |
| BuddyFlags.ReleaseHidesNothing | kernel/utils/static_memory_pool.c:222-282 | a block of any size that the search could see can still be seen after a release |
| BuddyFlags.GetsRefusedIffNoneFree | kernel/utils/static_memory_pool.c:139-206 | after any number of allocations from a new pool a request is refused exactly when no block of the fitting size is free |
| Memory.StoreReads | librt/libddk/bytepool.c:139-311 | a 64-bit little-endian word in memory is read back as stored |
| Memory.StoreOther | librt/libddk/bytepool.c:139-311 | storing a word changes no other word |
| BytePoolTiling.BestFitIsSmallest | librt/libddk/bytepool.c:178-193 | nothing large enough is smaller than the block chosen, nothing before it is as small, and none is chosen only when all are too small |
| BytePoolTiling.TakeKeepsTiled | librt/libddk/bytepool.c:195-254 | taking a block, cut or whole, keeps memory tiled without adjacent free blocks and the list equal to the free blocks |
| BytePoolTiling.ReleaseKeepsTiled | librt/libddk/bytepool.c:387-522 | a release, with either neighbour joined, keeps the same |
| BytePoolTiling.ReleaseUndoesGet | librt/libddk/bytepool.c:421-496 | releasing a buffer straight after getting it restores the tiling, and the list holds the same blocks |
| BytePoolTiling.TakeConserves | librt/libddk/bytepool.c:195-254 | bytes move from free to used; their sum is constant |
| BytePoolTiling.ReleaseConserves | librt/libddk/bytepool.c:387-522 | bytes move from used to free; their sum is constant |
| BytePoolTiling.TakeKeepsUsed | librt/libddk/bytepool.c:195-254 | every used block stays where it was and the new one joins them |
| BytePoolTiling.ReleaseKeepsUsed | librt/libddk/bytepool.c:387-522 | every used block but the released one stays where it was |
| BytePoolTiling.ListSum | librt/libddk/bytepool.c:625-650 | adding up the free list gives the free bytes of the tiling |
| BytePoolTiling.ExtendedTiled | librt/libddk/bytepool.c:548-619 | a further region keeps memory tiled |
| BytePoolFit.RefusedIffTooSmall | librt/libddk/bytepool.c:158-254 | a request finds no block exactly when every free block is smaller than the 16 bytes of the header and the request, which counts as at least 16 |
| BytePoolFit.GetServes | librt/libddk/bytepool.c:158-254 | which free block a request is met from, how many bytes of it are taken, where they lie and what becomes of the rest |
| BytePoolFit.ReleaseReturns | librt/libddk/bytepool.c:421-496 | a block that comes back is one free block with the free blocks that touch it; the place it gets in the list |
| BytePoolSteps.PayloadStored | librt/libddk/bytepool.c:797-839 | a client that writes only inside its own buffer disturbs no header, link or wiped byte |
| BytePool.Pool.Get | librt/libddk/bytepool.c:139-311 | in raw memory: NULL exactly when every free block is smaller than 16 bytes and the request, which counts as at least 16; otherwise the upper end of the first of the smallest blocks that are large enough is taken, less than four bytes more than needed or all of a block that would leave at most 32; no payload byte of another buffer is changed, and on failure nothing is |
| BytePool.Pool.Release | librt/libddk/bytepool.c:387-522 | in raw memory: the block and the free blocks that touch it become one, wiped, in the place of the one below or last in the list; no payload byte of another buffer is changed; the asserts hold |
| BytePool.Pool.GetAgain | librt/libddk/bytepool.c:349-383 | NULL exactly when every free block is too small; otherwise the first bytes, as many as both sizes allow, move along and no other buffer changes; on failure nothing does |
| BytePool.Pool.Stats | librt/libddk/bytepool.c:625-650 | used and free bytes add up to the capacity, and the largest free block is reported |
| BytePool.Pool.Validate | librt/libddk/bytepool.c:797-839 | a region is accepted exactly when none of its free blocks has been written to |
| BytePool.Pool.ValidateValid | librt/libddk/bytepool.c:797-839 | every pool that the operations keep passes its own validator |
| BytePool.Pool.AddRegion | librt/libddk/bytepool.c:548-619 | a region becomes one free block and a sentinel, and nothing else in memory changes meaning |
| SchedulerSpec.CountEnqueue | kernel/components/scheduler.c:174-191 | queueing adds one entry and disturbs no other |
| SchedulerSpec.CountDequeue | kernel/components/scheduler.c:726-736 | taking the head removes that entry and no other |
| SchedulerSpec.BoostKeepsAll | kernel/components/scheduler.c:569-582 | a boost loses no entry and adds none |
| SchedulerSpec.BoostPlace | kernel/components/scheduler.c:569-582 | where every boosted entry ends up: behind the lower levels, in its old order |
| SchedulerSystem.ChangeKeepsInv | kernel/components/scheduler.c:122-146 | when one object and its core change, the invariant of the whole system has to be checked for that object alone |
| SchedulerSystem.WakeKeepsInv | kernel/components/scheduler.c:453-503 | an object that becomes QUEUEING by a wake-up has a queue operation on its way |
| SchedulerSystem.DeliverKeepsInv | kernel/components/scheduler.c:223-244 | a queue operation finds its object in the state it needs, however late it arrives: the FATAL call is not reached |
| SchedulerSystem.BlockKeepsInv | kernel/components/scheduler.c:428-451 | blocking keeps the system in order |
| SchedulerSystem.YieldKeepsInv | kernel/components/scheduler.c:647-658 | the object given up is RUNNING or BLOCKING: the FATAL call is not reached |
| SchedulerSystem.FinishRequeue | kernel/components/scheduler.c:660-671 | demotion and requeueing succeed and keep the bandwidth right |
| SchedulerSystem.FinishPark | kernel/components/scheduler.c:672-678 | parking keeps the system in order although the object may have been woken meanwhile |
| SchedulerSystem.RedeployKeepsInv | kernel/components/scheduler.c:703-716 | a time slice that is not used up stays positive |
| SchedulerSystem.DispatchKeepsInv | kernel/components/scheduler.c:726-736 | the chosen object was QUEUED on this core, and its new level and slice keep the bandwidth right |
| SchedulerSystem.ExitKeepsInv | kernel/components/scheduler.c:718-723 | advancing without the finished thread keeps the system in order |
| SchedulerSystem.DestroyKeepsInv | kernel/components/scheduler.c:364-376 | destroying an object that has left takes its share of the bandwidth |
| SchedulerRuns.CreateKeepsInv | kernel/components/scheduler.c:282-362 | a new object is on no queue and adds its share of the bandwidth unless it is idle |
| SchedulerSystem.FreshStart | kernel/components/scheduler.c:332-362 | an ordinary object starts on level 0 with ten milliseconds, an idle one on level 59 with 128 |
| SchedulerRuns.BoostKeepsInv | kernel/components/scheduler.c:569-582 | a boost keeps the system in order |
| SchedulerRuns.StepKeepsInv | kernel/components/scheduler.c:122-766 | every step of every core keeps the invariant and none is fatal |
| SchedulerRuns.RunSafe | kernel/components/scheduler.c:73-766 | in every reachable state: QUEUED is the same as being on a ready queue, once, on the own core; what a core runs is RUNNING or BLOCKING; no wake-up is lost; sleepers are BLOCKED or QUEUEING; bandwidth is the sum of the slices and slices follow levels; no FATAL was met |
| SchedulerSystem.RunningIsRequeued | kernel/components/scheduler.c:647-671 | an object that was running goes behind its level, one level down if it was interrupted, with the slice of that level |
| SchedulerSystem.BlockingIsParked | kernel/components/scheduler.c:647-678 | an object that was blocking goes on no ready queue, and to the sleepers exactly if it has a deadline |
| SchedulerSystem.WokenIsQueued | kernel/components/scheduler.c:223-244 | a blocked object that is woken ends up behind its level and leaves the sleepers |
| SchedulerSystem.WakeBeatsBlock | kernel/components/scheduler.c:73-86 | a wake-up that comes while its object is still blocking makes the core requeue it instead of parking it |
| SchedulerRuns.StepKeepsLine | kernel/components/scheduler.c:681-766 | only a dispatch on the core moves the first level up, by one |
| SchedulerRuns.DispatchedInTurn | kernel/components/scheduler.c:681-766 | the object at position p of the first level is what the core's dispatch number p + 1 starts, whatever happens in between anywhere |
| SchedulerRuns.BoostedInTurn | kernel/components/scheduler.c:569-582 | after a boost every ready object is started by a dispatch whose number is known in advance |
| SchedulerQueues.SchedulerObject.constructor | kernel/components/scheduler.c:282-362 | a new object is in its initial state, unlinked, with the slice of its level |
| SchedulerQueues.Scheduler.Adopt | kernel/components/scheduler.c:282-362 | a core takes in a new object and its share of the bandwidth; its queues stay as they are |
| SchedulerQueues.Queue.Append | kernel/components/scheduler.c:174-191 | a chain is linked behind the tail; the list stays acyclic with a right tail |
| SchedulerQueues.Queue.Remove | kernel/components/scheduler.c:193-221 | the object is unlinked if it is there, and reported; otherwise nothing changes |
| SchedulerQueues.GetAvailableTransition | kernel/components/scheduler.c:73-120 | the table scan gives the transition function of the specification |
| SchedulerQueues.ExecuteEvent | kernel/components/scheduler.c:122-146 | the state changes as the table says, and not at all for an unexpected event |
| SchedulerQueues.ExecuteContended | kernel/components/scheduler.c:122-146 | with any interference between read and exchange, the event takes effect at once on one of the states that other cores have set |
| SchedulerQueues.Scheduler.QueueObject | kernel/components/scheduler.c:223-244 | the object leaves the sleep queue, wherever it is in it, and joins its level; fatal exactly when it was not QUEUEING |
| SchedulerQueues.Scheduler.UpdatePressure | kernel/components/scheduler.c:553-567 | a new level gives a new slice, and the bandwidth changes by the difference |
| SchedulerQueues.Scheduler.Boost | kernel/components/scheduler.c:569-582 | on linked queues: levels 1 to 59 are joined to level 0 in order, as the specification says |
| SchedulerQueues.Scheduler.Timeout | kernel/components/scheduler.c:584-607 | a blocked sleeper is moved to its ready queue; one that is being queued already stays |
| SchedulerQueues.Scheduler.UpdateSleepQueue | kernel/components/scheduler.c:623-645 | the first blocked sleeper whose time has come is moved to its ready queue, no other is, and the state of every other object stays |
| SchedulerQueues.NotBeforeIsTime | kernel/components/scheduler.c:635 | the comparison with the wake-up time is that of seconds times 10^9 plus nanoseconds |
| SchedulerQueues.Scheduler.Requeue | kernel/components/scheduler.c:647-679 | running: demoted if interrupted and queued behind its level; blocking: parked, on the sleep queue if it has a deadline; fatal in every other state |
| SchedulerQueues.Scheduler.FindReady | kernel/components/scheduler.c:726-736 | the first level with an object |
| SchedulerQueues.Scheduler.FinishRequeue | kernel/components/scheduler.c:660-679 | the second half of a requeue: demoted and queued behind its level, or parked; fatal exactly when the object is not QUEUEING any more |
| SchedulerQueues.Scheduler.Next | kernel/components/scheduler.c:726-736 | the head of that level is unlinked, takes the level's slice and runs; nothing changes when all levels are empty, and no other object changes state, level or slice |
| SchedulerSleep.Sweep | kernel/components/scheduler.c:623-645 | a pass wakes every sleeper whose time has come exactly when at most one blocked sleeper is due |
| SchedulerSleep.StageNext | kernel/components/scheduler.c:223-503 | the six steps in which a new object is woken, queued, run, blocked and parked, and the states between them |
| SchedulerSleep.TwoSleepersDue | kernel/components/scheduler.c:623-645 | a machine reaches a state in which two sleepers are due, and a pass leaves one of them asleep |
| SchedulerMachine.StandsOrderly | kernel/components/scheduler.c:584-766 | on linked queues that show the state of an orderly system, ready objects are QUEUED, sleepers BLOCKED or QUEUEING, and slices follow levels |
| SchedulerAdvance.AdvanceIs | kernel/components/scheduler.c:681-766 | what a call makes of the state it finds: if it does not go on with the object that ran, that object, if RUNNING, goes to the end of its level, or of the next one if it was interrupted, then the first sleeper whose time has come to the end of its own; the next object is the head of the first level that then has one, it leaves its queue and runs with the slice of that level, and a boost joins what is left; the sleepers and every object afterwards |
| SchedulerMachine.OneQueue | kernel/components/scheduler.c:174-221 | no object is on two queues, of one core or of two |
| SchedulerMachine.Machine.constructor | kernel/components/cpu.c:71 | cores without objects show a starting state of the step system |
| SchedulerMachine.Machine.Wake | kernel/components/scheduler.c:453-503 | waking an object in memory is the step of the system |
| SchedulerMachine.Machine.Deliver | kernel/components/scheduler.c:223-280 | the queue operation on linked queues is the step of the system |
| SchedulerMachine.Machine.Block | kernel/components/scheduler.c:392-451 | so is blocking with or without a deadline |
| SchedulerMachine.Machine.Yield | kernel/components/scheduler.c:647-658 | so is giving up the processor |
| SchedulerMachine.Machine.FinishYield | kernel/components/scheduler.c:660-679 | so is requeueing or parking what was given up |
| SchedulerMachine.Machine.Redeploy | kernel/components/scheduler.c:703-716 | so is going on with what is left of a time slice |
| SchedulerMachine.Machine.Exit | kernel/components/scheduler.c:718-723 | so is the end of a thread |
| SchedulerMachine.Machine.Dispatch | kernel/components/scheduler.c:726-736 | so is the choice of the next object |
| SchedulerMachine.Machine.Boost | kernel/components/scheduler.c:569-582 | so is the boost |
| SchedulerMachine.Machine.Create | kernel/components/scheduler.c:282-362 | so is the creation of an object |
| SchedulerMachine.Machine.Destroy | kernel/components/scheduler.c:364-376 | so is its destruction |
| SchedulerMachine.Machine.Perform | kernel/components/scheduler.c:122-766 | whatever step the system can make is carried out on the linked queues, which then show the new state |
| SchedulerMachine.Machine.Execute | kernel/components/scheduler.c:73-766 | every run of the system, with any interleaving of any number of cores, is carried out on linked queues that stay acyclic and disjoint with right tails |
| SchedulerMachine.Machine.Sweep | kernel/components/scheduler.c:623-645 | a pass over the sleep queue is the wake-up and the queue operation of the first sleeper whose time has come, or no step |
| SchedulerMachine.Machine.Advance | kernel/components/scheduler.c:681-766 | the same on linked queues, and as a run of steps of the system in which no FATAL call is met: the sleeper woken is the first that is due, the result runs and is on no queue, and no other core or its objects change |
| Tokens.GetBit | boot/uefi/depack.c:46-68 | every bit read makes the unread part smaller, which bounds the decoder |
| Tokens.GetGamma | boot/uefi/depack.c:70-95 | a gamma code is read in 32 bits and makes the unread part smaller |
| Tokens.UnpackIsExpand | boot/uefi/depack.c:97-302 | decoding step by step is expanding the token list that the stream spells |
| Tokens.CopiedIsPeriodic | boot/uefi/depack.c:97-302 | an overlapping copy repeats the last bytes with the match distance as period |
| TokenCodec.LaySpells | boot/uefi/depack.c:46-68 | bits and bytes laid out with their tag bytes in between are read back, whatever follows |
| TokenCodec.TokenReads | boot/uefi/depack.c:127-299 | every encodable token is read back, with the repeat-offset rule |
| TokenCodec.TokensRead | boot/uefi/depack.c:127-299 | a token list is read back from a stream that spells it |
| TokenCodec.UnpackEncoded | boot/uefi/depack.c:97-302 | unpacking the encoding of any encodable token list gives its expansion |
| TokenFacts.RepeatRepeatsLast | boot/uefi/depack.c:207-286 | a repeat copies from as far back as the last match before it did, short or not; it fails exactly when that is before the output or there is no room |
| TokenFacts.RepeatNeedsMatch | boot/uefi/depack.c:118-237 | a repeat that no match precedes fails |
| TokenFacts.MatchEchoes | boot/uefi/depack.c:185-293 | each byte that a match appends is the one its offset before it; it fails exactly when the offset is before the output or there is no room |
| TokenFacts.MatchNotShorter | boot/uefi/depack.c:239-270 | a match of less than 128 back has at least 4 bytes, of less than 1280 at least 2, of less than 32000 at least 3, and of more at least 4, unless its length overflows 32 bits |
| TokenFacts.ShortestMatch | boot/uefi/depack.c:239-270 | these are the matches that can be written down |
| TokenFacts.KnownItems | boot/uefi/depack.c:127-208 | a literal, a short match, a single byte and the end, bit by bit |
| TokenFacts.KnownMatches | boot/uefi/depack.c:211-289 | a repeat and matches after a match and after something else, bit by bit |
| TokenFacts.KnownTag | boot/uefi/depack.c:46-68 | the bits of a tag are read from its most significant one |
| Depack.State.GetBit | boot/uefi/depack.c:46-68 | the tag register gives the next bit of the specification's reader, or fails at its end |
| Depack.State.GetGamma | boot/uefi/depack.c:70-95 | the loop reads the specification's gamma code |
| Depack.State.Step | boot/uefi/depack.c:127-299 | one token is read and applied as the specification says, inside both buffers |
| Depack.Depack | boot/uefi/depack.c:97-302 | for every source of at least 24 bytes the depacker terminates, touches nothing outside the buffers and leaves exactly the bytes of the specification, or reports an error |
| Depack.DepackEncoded | boot/uefi/depack.c:97-302 | depacking the encoding of a token list gives its expansion |
| Depack.DepackedIsExpansion | boot/uefi/depack.c:97-302 | whatever the source, the result is the expansion of the tokens it spells |
| SlabLayout.Padding | kernel/memory/heap.c:575-586 | the padding makes the object size a multiple of the alignment and keeps room for the overrun pattern |
| SlabLayout.ConstructedFor | kernel/memory/heap.c:575-596 | the geometry of a new cache has positive objects that keep their alignment, as the choice of a layout needs |
| SlabLayout.StructureSize | kernel/memory/heap.c:419-430 | the bitmap has a bit for every object |
| SlabLayout.ReservedFits | kernel/memory/heap.c:484-531 | what is set aside never exceeds the pages, so that no subtraction wraps |
| SlabLayout.CalculateSlabSize | kernel/memory/heap.c:484-562 | the layout is that of the first acceptable number of pages; the assert fails exactly when none up to 2^9 is acceptable |
| SlabLayout.LittleIsLost | kernel/memory/heap.c:484-562 | objects and what is set aside take up the pages but for a sixteenth of a page |
| SlabLayout.SevenHundredBytes | kernel/memory/heap.c:484-562 | 187 objects of 700 bytes are put on 32 pages, with the header on site, because fewer pages lose more than 256 bytes |
| SlabLayout.LayoutSound | kernel/memory/heap.c:260-313 | objects lie inside the pages and behind an on-site header and its bitmap, on every page, exactly when the two special sizes fit |
| SlabLayout.ObjectsAligned | kernel/memory/heap.c:270-304 | every object is aligned exactly when the header is on site or the pages are aligned |
| SlabLayout.LayoutSoundAnyAlignment | kernel/memory/heap.c:260-313 | for any alignment, small objects fit exactly when rounding up takes no more than the waste |
| SlabLayout.AlignmentMatters | kernel/memory/heap.c:260-313 | 24-byte objects at multiples of 24 run eight bytes over the end of their slab |
| SlabLayout.PaddedOverrun | kernel/memory/heap.c:534-548 | with room for the overrun pattern, objects of 4096 and of 8192 bytes run over the end of their slab wherever it is |
| SlabLayout.LargeNotAligned | kernel/memory/heap.c:534-548 | a slab of 8192-byte objects on the first page does not begin at a multiple of 8192 |
| Slabs.HasPut | kernel/memory/heap.c:170-205 | setting or clearing a bit of a byte changes that bit only |
| Slabs.Slab.AllocateIndex | kernel/memory/heap.c:170-189 | the first object not in use is taken, its bit set and the counter lowered; -1 exactly when there is none |
| Slabs.Slab.FreeIndex | kernel/memory/heap.c:191-205 | the object's bit is cleared and the counter raised |
| SlabCache.TakenInOrder | kernel/memory/heap.c:715-742 | taking an object keeps the three lists a partition of the slabs by free count and the cache counter their sum |
| SlabCache.ExtendedInOrder | kernel/memory/heap.c:743-761 | a new slab keeps the same |
| SlabCache.GivenBackInOrder | kernel/memory/heap.c:843-847 | giving back an object of a partial slab keeps the same |
| SlabCache.ReopenedInOrder | kernel/memory/heap.c:849-866 | giving back an object of a full slab keeps the same, also for slabs of one object |
| SlabCache.Construct | kernel/memory/heap.c:564-603 | a new cache is empty and in order, with the layout that was chosen for its padded objects; none exactly when the assert of the search fails |
| SlabCache.Cache.NewSlab | kernel/memory/heap.c:260-313 | a slab on new pages that are large enough is apart from all others, with its first object in use |
| SlabCache.Cache.Allocate | kernel/memory/heap.c:690-773 | an object that was not in use is handed out and its bit alone is set: the first free one of the first partial slab, or else of the first free slab, or that of a new slab with memory of its own; NULL exactly when none is free and no slab can be added |
| SlabCache.Cache.ObjectsApart | kernel/memory/heap.c:260-313 | two objects of a cache never share a byte |
| SlabCache.Cache.IndexInside | kernel/memory/heap.c:207-223 | the index found for an address is that of the object around it, and -1 exactly outside |
| SlabCache.Cache.OneSlab | kernel/memory/heap.c:207-223 | an address lies in one slab at most |
| SlabCache.Cache.Contains | kernel/memory/heap.c:395-417 | found exactly when a partial or full slab is around the address |
| SlabCache.Cache.Free | kernel/memory/heap.c:782-868 | exactly the object around the address is given back; nothing happens for an address outside every slab |
| Heap.FindFixedSize | kernel/memory/heap.c:152-168 | the smallest of the default sizes that is enough, none exactly above 262144 |
| Heap.DefaultRound | kernel/memory/heap.c:484-526 | for every default size the search accepts a layout: round 0 up to a page, otherwise the first round in which an object fits |
| Heap.DefaultLayout | kernel/memory/heap.c:484-562 | which gives each default cache the number of pages of its slabs |
| Heap.DefaultSound | kernel/memory/heap.c:260-313 | and slabs that are laid out soundly on every page |
| Heap.DefaultCaches.constructor | kernel/memory/heap.c:83-104 | no cache exists yet and nothing is held |
| Heap.DefaultCaches.Create | kernel/memory/heap.c:886-890 | the cache of a size is created in order and apart from all others; what is held stays |
| Heap.DefaultCaches.Kmalloc | kernel/memory/heap.c:877-892 | keeps all caches in order and pairwise separate; a new block of the smallest sufficient size joins what is held and nothing else changes; the pages on offer come into use exactly when nothing was free; NULL exactly above 262144 bytes or when nothing is free and there are no pages |
| Heap.DefaultCaches.HeldApart | kernel/memory/heap.c:877-936 | blocks handed out and not given back share no byte, of whatever sizes they are |
| Heap.DefaultCaches.HeldAligned | kernel/memory/heap.c:877-892 | a block of up to a page is at a multiple of its size, a larger one at a multiple of the page size |
| Heap.DefaultCaches.HeldMayBeFreed | kernel/memory/heap.c:908-936 | every block that is held may be given back, by any address in it |
| Heap.DefaultCaches.OnlyAround | kernel/memory/heap.c:395-417 | no other slab of any cache is around an address in an object in use, so that the search cannot find the wrong cache |
| Heap.DefaultCaches.Route | kernel/memory/heap.c:917-926 | the search finds a cache with a slab around the address, and none exactly when no object in use is around it |
| Heap.DefaultCaches.Kfree | kernel/memory/heap.c:908-936 | keeps all caches in order and pairwise separate, on the same pages; NULL is ignored, an address in no block that is held ends in the failed assert, and otherwise exactly the block around the address is no longer held |
| Heap.DefaultCaches.HeldIsItself | kernel/memory/heap.c:908-936 | no other block is around the address of a block, so that what is given back by its own address is that block |
| HeapRuns.PutOne | kernel/memory/heap.c:908-936 | giving back a block by its own address takes away that block alone; giving back NULL nothing |
| HeapRuns.NextIsClear | kernel/memory/heap.c:877-892 | pages that do not overlap those on offer before are clear whatever the heap has taken of them |
| HeapRuns.Execute | kernel/memory/heap.c:877-936 | in every run of requests and frees, with pages on offer that do not overlap, the heap stays in order and holds exactly the blocks handed out and not given back, each of the smallest sufficient size, and no two share a byte |
| MemoryMap.MergedKeepsMap | boot/uefi/library.c:242-273 | at every address joining says what the entries said, keeps the total length and leaves no entry that has the type and attributes of the one before and starts where that one ends |
| MemoryMap.ConsolidationKeepsMap | boot/uefi/library.c:242-273 | the same for the whole map |
| MemoryMap.MarkingReserves | boot/uefi/library.c:275-356 | the kernel's addresses become reserved in the entry that held them |
| MemoryMap.MarkingChangesOnlyKernel | boot/uefi/library.c:275-356 | what the map says about all other addresses stays, exactly when the kernel lies inside the entry |
| MemoryMap.MarkingKeepsTotal | boot/uefi/library.c:275-356 | the total length is conserved exactly when no entry is around the kernel or the kernel lies inside it |
| MemoryMap.KernelRunsOver | boot/uefi/library.c:275-356 | with a kernel of two pages in an entry of one, all memory behind the kernel becomes available |
| MemoryMap.OneUse | boot/uefi/library.c:242-356 | where entries do not overlap the map is a function of the address |
| MemoryMap.VBoot.MoveDown | boot/uefi/library.c:229-240 | overlapping entries are moved down intact |
| MemoryMap.VBoot.MoveUp | boot/uefi/library.c:216-227 | overlapping entries are moved up intact |
| MemoryMap.VBoot.Consolidate | boot/uefi/library.c:242-273 | the array holds the joined map |
| MemoryMap.VBoot.Fixup | boot/uefi/library.c:275-356 | the array holds the marked map |
| PageStack.PushAppends | kernel/utils/memory_stack.c:108-132 | push appends the pages, whether or not they extend the last run |
| PageStack.PopTakesLast | kernel/utils/memory_stack.c:169-219 | pop takes exactly the last n pages or all there are; each is given as often as it was there, and those below stay |
| PageStack.PopAfterPush | kernel/utils/memory_stack.c:108-219 | popping what was pushed gives the pages in ascending order and restores the runs exactly when no empty run lay there |
| PageStack.EmptyRunLost | kernel/utils/memory_stack.c:108-219 | an empty run on top does not survive a push at its base and a pop |
| PageStack.MemoryStack.constructor | kernel/utils/memory_stack.c:36-52 | a new stack is empty |
| PageStack.MemoryStack.Extend | kernel/utils/memory_stack.c:54-92 | twice the room, with the same items |
| PageStack.MemoryStack.Push | kernel/utils/memory_stack.c:108-132 | in place: the push of the specification, with room made when needed |
| PageStack.MemoryStack.PopBlocks | kernel/utils/memory_stack.c:169-219 | in place: the pages and the runs of the specification, and which of the three results is returned |
| TicketLock.WinKeepsInv | kernel/sync/spinlock.c:50-54 | a thread finds that it is its turn only when nobody is inside |
| TicketLock.ReleaseKeepsInv | kernel/sync/spinlock.c:98-114 | a release passes the lock to the next ticket |
| TicketLock.StepKeepsInv | kernel/sync/spinlock.c:43-133 | every step keeps the invariant and no assert fails while tickets last |
| TicketLock.RunKeepsIrq | kernel/sync/spinlock.c:73-133 | over every run a thread remembers how it came, and its interrupts are off from the disable of its acquisition to the restore of its release |
| TicketLock.RunSafe | kernel/sync/spinlock.c:43-133 | in every run with fewer than 2^32 tickets: mutual exclusion in ticket order, no ticket lost, no recovery, no failed assert; a thread has interrupts on exactly if it came with them on and is not between turning them off and restoring them, and once it is done it has them as it came |
| TicketLock.TicketsRunOut | kernel/sync/spinlock.c:98-114 | a run with exactly 2^32 tickets in which the assert fails, so that the bound is sharp |

## Left out

- StaticPool.Pool.constructor: the pool has a length of chunk size times a power of two, where the source only logs a length that is no power of two, and a start address other than 0, which stands for failure.
- DynamicPool.Pool.constructor: the same.
- BytePool.Pool.AddRegion: a region is at least 48 bytes, the room for a free block and the sentinel, which the source does not look at; and at most INT_MAX bytes, because sizes are kept in a signed int in places, and its end fits into memory.
- BytePool: the hooks for compaction and acquisition, direct blocks and the dump routines; nothing installs the hooks.
- Depack.Depack: the source has the 24 bytes of its header, which the code does not look at; a match distance of 0, which the format does not use, leaves the byte that was in the destination; buffers of less than 4 GB.
- SchedulerQueues.Scheduler.UpdateSleepQueue: not the deadline it returns, which is that of the last sleeper looked at, nor that comparing a wake-up time also normalizes the stored one.
- SchedulerMachine.Machine.Sweep: the same.
- SchedulerMachine.Machine.Advance: not the deadline it returns, and the outcome of the boost timer is a parameter.
- SchedulerQueues.Scheduler.Timeout: not the wait queue that the object leaves, nor the reason that is recorded.
- SchedulerMachine.Machine.Block: not the wait queue that the object joins.
- SchedulerQueues.ExecuteEvent: nobody interferes; the retry of the compare-and-exchange loop is in ExecuteContended, and interference between cores in SchedulerSystem, where each event is one atomic step.
- SchedulerSystem: the idle object of a core is never queued or woken, a thread that has exited is not handed to SchedulerAdvance again, and what a core does to its own queues is not interrupted on that core; the choice of a core for a new object is a parameter, and so is the moment of a boost.
- SchedulerQueues: nobody else changes the queues of a core, as the source demands.
- SlabCache: per-processor caches, which the default caches do not have, reaping, destructors, debug patterns and the initial slab of HEAP_INITIAL_SLAB.
- SlabCache.Cache.NewSlab: the allocation of an off-site slab header and the object constructors; new pages are a parameter and are not in use.
- SlabCache.Construct: no per-processor caches and no initial slab; objects have a size, or the overrun pattern; the source divides by zero for others.
- Slabs.Slab.FreeIndex: an object that is not in use may not be freed, here and in everything that calls it; the source would count it as free twice.
- SlabCache.Cache.Free: an address in an object that is not in use may not be freed.
- Heap.DefaultCaches.Route: the same.
- Heap.DefaultCaches.Kfree: the same.
- Heap: pages of 4096 bytes, a slab header of at most 1024, and memory for the cache structures themselves.
- MemoryMap.VBoot.Fixup: the array has room for two more entries, which the source does not look at.
- MemoryMap: whole entries are moved instead of bytes, the lemmas about the map are for entries that end below 2^64, and reading the map from the firmware is not part of the model.
- PageStack.MemoryStack.Push: run lengths do not overflow an int; MemoryStackPushMultiple, whose branch for a new run does not count down, and the mapping of new memory in __ExtendStack are not part of the model.
- TicketLock: the lock is released only by its holder, and with the same kind of release as its acquisition.
- Handles and handle sets (`kernel/handle.c`): reference counts and paths.
- Futexes, mutexes, semaphores, shared memory, processes, file systems, drivers, system calls, hardware access and logging.
