# RT-Thread 3.0.4 kernel: a verified model

The firmware in this repository runs on the RT-Thread 3.0.4 kernel. This project models the parts of that kernel whose
correctness is hardest to see and proves what they promise: the two heap allocators, the inter-thread communication
objects, the timer list, and the scheduler with its thread states. The configuration is the one in `rtconfig.h`: 32
priorities, 4-byte alignment, a timer skip list of one level, no soft timers, signals or modules.

Each component comes as a pair. A `...Spec` module says what the calls do as functions on values, with the clock, the
counters and the queues unbounded, and holds the theorems about all runs: what every call keeps, what one call undoes,
what is conserved, what is never lost. The module beside it holds a class with the fields of the C structure, updated in
place by methods with the loops and branches of the code; every method is proved to make exactly the step of the
specification. `...Calls` and `...Runs` modules say what the calls answer, in terms of the state before them, and
what the answers of a whole run add up to. Between the two lie the representation: headers inside an array of words (`Heap`), two rings of items
(`MemHeap`), a ready bitmap with find-first-set (`Kernel`), a 32-bit tick counter with modular comparison (`Timer`), a
ring buffer (`Mailbox`), linked message nodes (`MessageQueue`), small counters (`Mutex`), bit sets in a word (`Event`).

Concurrency is a state machine: a section of code that runs with interrupts disabled is one step, runs are arbitrary
sequences of steps, and a thread that has been woken but has not run yet is in a state of its own, so that all
interleavings of the re-check loops and of the two-section message sends are covered. A thread's timer may fire at any
step while it is armed. A call on another thread that enables interrupts in between, as rt_thread_delete and
rt_thread_resume do, leaves that thread half-way, and a thread that has suspended itself may be interrupted before its
rt_schedule. `KernelCalls` proves for each such call exactly when it is safe, whatever happens between its sections.

| file | what is in it |
|---|---|
| `Words`, `Bits`, `Lists`, `Runs` | 32-bit words, bitwise operations, lists without repetition, runs of a state machine |
| `List` | the intrusive doubly linked list of `rtservice.h`, and what its operations do to the sequence of objects on it; the other modules hold such lists as these sequences |
| `Blocks`, `Payloads`, `HeapSpec`, `HeapCalls`, `HeapMemory`, `Heap`, `AlignedHeap` | `mem.c` and the aligned allocation of `kservice.c` |
| `MemHeapSpec`, `MemHeapCalls`, `MemHeapItems`, `MemHeap` | `memheap.c` |
| `TimerSpec`, `TimerAlone`, `Timer` | the hard timer list of `timer.c` |
| `Ffs`, `WaitList`, `KernelSpec`, `KernelRuns`, `KernelCalls`, `SemaphoreRuns`, `ReadyOrder`, `TimeSlices`, `Kernel` | `scheduler.c`, `thread.c`, the time slice of `clock.c`, `__rt_ffs`, the semaphore of `ipc.c` |
| `MutexSpec`, `MutexRuns`, `Mutex`, `EventSpec`, `EventRuns`, `Event`, `MailboxSpec`, `MailboxRuns`, `Mailbox`, `MessageQueueSpec`, `MessageQueueRuns`, `MessageQueue`, `WaitTime` | the rest of `ipc.c` |

Properties that turned out false of the code are stated with the exact condition under which they hold, each with an
input for which they fail:

| what fails | exact condition | failing input |
|---|---|---|
| rt_malloc serves the size asked for | `HeapSpec.MallocSize` | `HeapSpec.MallocWraps` |
| rt_realloc returning NULL keeps the block | `HeapSpec.ReallocNull` | `HeapSpec.ReallocFrees` |
| rt_realloc keeps lfree lowest | `HeapSpec.ShrinkKeepsLowest` | `HeapSpec.ShrinkLeavesBelow` |
| rt_malloc_align serves the request | `AlignedHeap.AlignServes` | `AlignedHeap.AlignWraps` |
| rt_memheap_alloc and rt_memheap_realloc serve the size | `MemHeapSpec.AllocSize`, `MemHeapSpec.ReallocSize` | `MemHeapSpec.SizesWrap` |
| growing a memheap block in place finds the space | `MemHeapSpec.ExpandGuardExact` | `MemHeapSpec.ExpandGuardWraps` |
| rt_thread_delete keeps each thread on one list | `KernelCalls.DeleteExact` | `KernelCalls.DeleteRace`, `KernelCalls.DeletePriorityRace`, `KernelCalls.SleeperReached`, `KernelCalls.ReadyReached` |
| rt_thread_resume keeps ready threads on their lists | `KernelCalls.ResumeExact` | `KernelCalls.ResumeRace`, `KernelCalls.ResumeTwice`, `Kernel.BitmapGoesStale` |
| rt_thread_suspend only suspends ready threads | `KernelCalls.SuspendExact` | `KernelCalls.SuspendLosesWait`, `KernelCalls.ReadyReached` |
| rt_sem_take returns RT_EOK for a unit only | `KernelRuns.TakeUnderLock`, `KernelCalls.LockedTakeExact` | `KernelCalls.LockedTakeReached`, `KernelCalls.ResumedWithoutUnit` |
| a periodic timer started at tick s fires at s + p | `TimerSpec.StartExact` | `TimerSpec.StartExact` says when it fires otherwise |
| no wake-up of a mailbox is lost | `MailboxSpec.DeleteExact` | `MailboxSpec.WakeUpLost` |
| the nodes of a message queue total max_msgs | `MessageQueueSpec.DeleteExact` | `MessageQueueSpec.NodeLost`, `MessageQueueSpec.NodeLostReached` |
| a call that waits puts its thread on one list, once | `MailboxSpec.LockedExact`, `MessageQueueSpec.LockedExact` | any such call under a locked scheduler |
| rt_event_recv reports bits that are set | `EventSpec.LockedExact` | `EventSpec.ResumedWithoutBits`, any call that waits under a locked scheduler |
| rt_mutex_take returns RT_EOK to the owner only | `MutexSpec.TakeUnderLock` | `MutexSpec.LockedTakeReached` |
| the recomputed waiting time is what is left | `WaitTime.RemainingExact` | `WaitTime.RemainingWraps` |
| the owner keeps a mutex until it has matched its takes, and excludes others | `MutexSpec.HoldCounts`, `MutexSpec.ExclusionExact` | `MutexSpec.TakenTooOftenReached`, `MutexSpec.HoldOverflows` |
| no waiter is more urgent than the owner of a mutex | `MutexSpec.NeverInvertsExact`, `MutexSpec.InversionExact`, `MutexSpec.HandOverUrgent`, `MutexSpec.AfterHandOver` | `MutexSpec.FifoInversion` |

Where the code and its comments differ the code is followed: the mutex field `hold` is described as a number of threads
(`rtdef.h`, line 616) but counts the owner's takes.

## Model

| member | source | states |
|---|---|---|
| List.Node.constructor | 外置式倒计时器/有多功能/stm32f10x-HAL_led/rt-thread/include/rtservice.h:61-64 | a new node is a ring of its own |
| List.InsertAfter | 外置式倒计时器/有多功能/stm32f10x-HAL_led/rt-thread/include/rtservice.h:72-79 | the node goes into the ring behind the given one; the order of all others stays; only two neighbours and the node are written |
| List.InsertBefore | 外置式倒计时器/有多功能/stm32f10x-HAL_led/rt-thread/include/rtservice.h:87-94 | the same in front of the given one; in front of the head is the end of the list |
| List.Remove | 外置式倒计时器/有多功能/stm32f10x-HAL_led/rt-thread/include/rtservice.h:100-106 | the ring without the node, and the node as a ring of its own |
| List.IsEmpty | 外置式倒计时器/有多功能/stm32f10x-HAL_led/rt-thread/include/rtservice.h:112-115 | true exactly when the head is the only node |
| List.Len | 外置式倒计时器/有多功能/stm32f10x-HAL_led/rt-thread/include/rtservice.h:121-132 | the number of elements, by walking the ring |
| List.OneRing | 外置式倒计时器/有多功能/stm32f10x-HAL_led/rt-thread/include/rtservice.h:61-106 | two lists with a common node are the same list |
| List.AloneTest | 外置式倒计时器/有多功能/stm32f10x-HAL_led/rt-thread/src/thread.c:463-466 | the next/prev test of rt_thread_yield holds exactly for an element that is not the only one |
| List.InsertsInQueue | 外置式倒计时器/有多功能/stm32f10x-HAL_led/rt-thread/include/rtservice.h:72-94 | inserting before the head appends to the sequence of objects on the list, behind the head prepends, before an element puts in front of it |
| List.RemovesFromQueue | 外置式倒计时器/有多功能/stm32f10x-HAL_led/rt-thread/include/rtservice.h:100-106 | removing a node takes its object, and no other, out of that sequence |
| Heap.SmallMem.constructor | 外置式倒计时器/有多功能/stm32f10x-HAL_led/rt-thread/src/mem.c:205-258 | the two headers written make the initial layout; with less than 12 bytes between them they are written all the same |
| Heap.SmallMem.PlugHoles | 外置式倒计时器/有多功能/stm32f10x-HAL_led/rt-thread/src/mem.c:157-195 | a free block and its free neighbours become one block; lfree moves to it if it was one of them; no live payload changes |
| Heap.SmallMem.FindFit | 外置式倒计时器/有多功能/stm32f10x-HAL_led/rt-thread/src/mem.c:306-313 | the search loop finds the first fit of the block list |
| Heap.SmallMem.Malloc | 外置式倒计时器/有多功能/stm32f10x-HAL_led/rt-thread/src/mem.c:273-411 | the step of HeapSpec.Allocate on headers in memory; no live payload changes; on NULL nothing is written |
| Heap.SmallMem.Free | 外置式倒计时器/有多功能/stm32f10x-HAL_led/rt-thread/src/mem.c:549-611 | the step of HeapSpec.FreeAt; no other live payload changes |
| Heap.SmallMem.Realloc | 外置式倒计时器/有多功能/stm32f10x-HAL_led/rt-thread/src/mem.c:422-511 | the step of HeapSpec.Reallocate, whose answers are HeapCalls.ReallocAnswers; the first min(old, new) bytes are in the result and no other live payload changes; on NULL (sizes up to 0xFFFFFFFC) nothing is written |
| Heap.SmallMem.MoveBlock | 外置式倒计时器/有多功能/stm32f10x-HAL_led/rt-thread/src/mem.c:502-510 | allocate, copy the smaller of the two sizes, free |
| Heap.SmallMem.ShrinkBlock | 外置式倒计时器/有多功能/stm32f10x-HAL_led/rt-thread/src/mem.c:472-499 | the block is cut in place and the rest joins a free successor |
| HeapSpec.InitInv | 外置式倒计时器/有多功能/stm32f10x-HAL_led/rt-thread/src/mem.c:205-258 | the initial heap satisfies the invariant |
| HeapSpec.StepInv | 外置式倒计时器/有多功能/stm32f10x-HAL_led/rt-thread/src/mem.c:157-611 | every rt_malloc, rt_free and rt_realloc keeps tiling, alignment, coalescing, used_mem and the place of lfree |
| HeapSpec.RunInv | 外置式倒计时器/有多功能/stm32f10x-HAL_led/rt-thread/src/mem.c:157-611 | so does every run of them |
| HeapSpec.AllocateLive | 外置式倒计时器/有多功能/stm32f10x-HAL_led/rt-thread/src/mem.c:273-411 | success adds exactly one live block, large enough and not live before; NULL changes nothing |
| HeapSpec.FreeLive | 外置式倒计时器/有多功能/stm32f10x-HAL_led/rt-thread/src/mem.c:549-611 | rt_free takes exactly the block behind the pointer out of the live ones |
| HeapSpec.ReallocLive | 外置式倒计时器/有多功能/stm32f10x-HAL_led/rt-thread/src/mem.c:422-511 | exactly one block takes the place of the old one, or NULL and nothing changes |
| HeapSpec.ReallocNull | 外置式倒计时器/有多功能/stm32f10x-HAL_led/rt-thread/src/mem.c:432-443 | rt_realloc of a nonzero size frees the block and returns NULL if and only if the size wraps to 0 when aligned |
| HeapSpec.ReallocFrees | 外置式倒计时器/有多功能/stm32f10x-HAL_led/rt-thread/src/mem.c:432-443 | on a concrete heap rt_realloc to 0xFFFFFFFD bytes frees the block and returns NULL |
| HeapSpec.LivePayloads | 外置式倒计时器/有多功能/stm32f10x-HAL_led/rt-thread/src/mem.c:273-611 | live payloads are aligned, inside the heap and pairwise disjoint |
| HeapSpec.MallocSize | 外置式倒计时器/有多功能/stm32f10x-HAL_led/rt-thread/src/mem.c:289-301 | a successful rt_malloc serves the size asked for if and only if that is at most 0xFFFFFFFC |
| HeapSpec.MallocWraps | 外置式倒计时器/有多功能/stm32f10x-HAL_led/rt-thread/src/mem.c:289-301 | a larger size, on a concrete heap, gets a 12-byte block |
| HeapSpec.FitsIff | 外置式倒计时器/有多功能/stm32f10x-HAL_led/rt-thread/src/mem.c:306-313 | what the loop bound and the test accept: a free block with room, except a last block whose payload is exactly the size |
| HeapSpec.TrueFirstFit | 外置式倒计时器/有多功能/stm32f10x-HAL_led/rt-thread/src/mem.c:306-388 | while lfree is the lowest free block rt_malloc takes the first block of the whole heap that fits, and NULL means that none does |
| HeapSpec.LowestOverRuns | 外置式倒计时器/有多功能/stm32f10x-HAL_led/rt-thread/src/mem.c:273-388 | lfree is the lowest free block over all runs of rt_malloc and rt_free |
| HeapSpec.ShrinkKeepsLowest | 外置式倒计时器/有多功能/stm32f10x-HAL_led/rt-thread/src/mem.c:472-498 | a shrinking rt_realloc keeps that if and only if the new free block does not lie below lfree |
| HeapSpec.ShrinkLeavesBelow | 外置式倒计时器/有多功能/stm32f10x-HAL_led/rt-thread/src/mem.c:472-498 | a concrete heap on which a shrinking rt_realloc leaves a free block below lfree |
| HeapSpec.MallocThenFree | 外置式倒计时器/有多功能/stm32f10x-HAL_led/rt-thread/src/mem.c:273-611 | rt_free of the result of rt_malloc restores layout, lfree and used_mem |
| HeapSpec.AllFreeIsInitial | 外置式倒计时器/有多功能/stm32f10x-HAL_led/rt-thread/src/mem.c:157-611 | a run after which nothing is live ends in the initial single free block with used_mem 0 |
| HeapCalls.MallocAnswers | 外置式倒计时器/有多功能/stm32f10x-HAL_led/rt-thread/src/mem.c:280-388 | rt_malloc returns NULL, with nothing changed, exactly for size 0 and when no block from lfree on has room; otherwise the block cut from the first one that has becomes live, and the rest is split off exactly when it holds a header and 12 bytes |
| HeapCalls.ReallocAnswers | 外置式倒计时器/有多功能/stm32f10x-HAL_led/rt-thread/src/mem.c:432-510 | rt_realloc of a live block returns NULL, with nothing changed, exactly when the aligned size exceeds the heap or the block does not stay and none has room; a block that stays is cut to the size; otherwise the result is cut from the first block with room |
| HeapCalls.ReallocNullExact | 外置式倒计时器/有多功能/stm32f10x-HAL_led/rt-thread/src/mem.c:432-510 | with lfree lowest: NULL exactly when the aligned size exceeds the heap, or it is neither the payload nor small enough to cut the block and no block of the whole heap has room |
| HeapCalls.LowestSeesAll | 外置式倒计时器/有多功能/stm32f10x-HAL_led/rt-thread/src/mem.c:306-313 | with lfree lowest that speaks of all blocks of the heap |
| HeapCalls.ReallocEdges | 外置式倒计时器/有多功能/stm32f10x-HAL_led/rt-thread/src/mem.c:438-463 | rt_realloc of NULL is rt_malloc of the aligned size, size 0 frees the block, and a pointer outside the heap comes back |
| HeapCalls.MaxMemIsPeak | 外置式倒计时器/有多功能/stm32f10x-HAL_led/rt-thread/src/mem.c:350-370 | max_mem is the largest value used_mem has had at any moment of a run |
| HeapMemory.Rewrite | 外置式倒计时器/有多功能/stm32f10x-HAL_led/rt-thread/src/mem.c:157-195 | rewriting a stretch of headers and one prev field behind it replaces those blocks and nothing else |
| HeapMemory.KeptOutside | 外置式倒计时器/有多功能/stm32f10x-HAL_led/rt-thread/src/mem.c:157-498 | writes inside a stretch of blocks leave all other payloads |
| AlignedHeap.RtMallocAlign | 外置式倒计时器/有多功能/stm32f10x-HAL_led/rt-thread/src/kservice.c:1197-1229 | the address is aligned, payload and saved-pointer slot lie in the block from rt_malloc, and the slot holds that block's pointer; NULL exactly when no block has room for the total |
| AlignedHeap.RtFreeAlign | 外置式倒计时器/有多功能/stm32f10x-HAL_led/rt-thread/src/kservice.c:1238-1244 | frees exactly the block whose pointer was saved |
| AlignedHeap.AlignServes | 外置式倒计时器/有多功能/stm32f10x-HAL_led/rt-thread/src/kservice.c:1203-1220 | the address serves size and alignment inside a block of the computed size if and only if that size does not wrap |
| AlignedHeap.AlignWraps | 外置式倒计时器/有多功能/stm32f10x-HAL_led/rt-thread/src/kservice.c:1203-1220 | 0xFFFFFFF0 bytes aligned to 32 get a block of 16 bytes and an address that does not serve them |
| AlignedHeap.AlignPtrIs | 外置式倒计时器/有多功能/stm32f10x-HAL_led/rt-thread/src/kservice.c:1212-1220 | the masked address is the next multiple of the alignment with room for the slot |
| AlignedHeap.AlignRoundTrip | 外置式倒计时器/有多功能/stm32f10x-HAL_led/rt-thread/src/kservice.c:1197-1244 | rt_malloc_align followed by rt_free_align of the address it handed out restores layout, lfree and used_mem and changes no live payload |
| MemHeap.MemHeapObject.constructor | 外置式倒计时器/有多功能/stm32f10x-HAL_led/rt-thread/src/memheap.c:60-131 | the two headers, the rings and the counters of a new pool that holds the headers |
| MemHeap.MemHeapObject.Search | 外置式倒计时器/有多功能/stm32f10x-HAL_led/rt-thread/src/memheap.c:176-188 | the loop over the free ring finds the first item that is large enough |
| MemHeap.MemHeapObject.Alloc | 外置式倒计时器/有多功能/stm32f10x-HAL_led/rt-thread/src/memheap.c:146-288 | the step of MemHeapSpec.Allocate on both rings and all counters |
| MemHeap.MemHeapObject.Free | 外置式倒计时器/有多功能/stm32f10x-HAL_led/rt-thread/src/memheap.c:499-596 | the step of MemHeapSpec.FreeAt, left merge before right merge |
| MemHeap.MemHeapObject.Realloc | 外置式倒计时器/有多功能/stm32f10x-HAL_led/rt-thread/src/memheap.c:291-496 | the step of MemHeapSpec.Reallocate, both in-place paths and the move; the first min(old, new) bytes are in the result, no other live payload changes, and on NULL nothing does |
| MemHeap.MemHeapObject.Relocate | 外置式倒计时器/有多功能/stm32f10x-HAL_led/rt-thread/src/memheap.c:412-420 | the move: allocate, copy the smaller of the two sizes, free |
| MemHeap.MemHeapObject.MoveBorder | 外置式倒计时器/有多功能/stm32f10x-HAL_led/rt-thread/src/memheap.c:368-397 | growing in place: a free item leaves both rings and one is built behind the larger payload |
| MemHeap.MemHeapObject.CutBlock | 外置式倒计时器/有多功能/stm32f10x-HAL_led/rt-thread/src/memheap.c:436-489 | shrinking in place with its two changes of available_size |
| MemHeapItems.Rewire | 外置式倒计时器/有多功能/stm32f10x-HAL_led/rt-thread/src/memheap.c:216-220 | writes to a stretch of items and one prev behind it replace those blocks on the physical ring and nothing else |
| MemHeapItems.UnlinkChain | 外置式倒计时器/有多功能/stm32f10x-HAL_led/rt-thread/src/memheap.c:222-226 | linking the neighbours of an item takes exactly that item out of the free ring |
| MemHeapItems.PushChain | 外置式倒计时器/有多功能/stm32f10x-HAL_led/rt-thread/src/memheap.c:228-232 | an item is linked in at the head of the free ring |
| MemHeapItems.PayloadWrite | 外置式倒计时器/有多功能/stm32f10x-HAL_led/rt-thread/src/memheap.c:412-420 | writing inside one live payload changes no other |
| MemHeapSpec.RunInv | 外置式倒计时器/有多功能/stm32f10x-HAL_led/rt-thread/src/memheap.c:146-596 | in every run the blocks tile the pool up to the used tail, no two free blocks touch, the free list holds exactly the free blocks, each once, and available_size is the sum of the free payloads |
| MemHeapSpec.StepInv | 外置式倒计时器/有多功能/stm32f10x-HAL_led/rt-thread/src/memheap.c:146-596 | every call keeps that |
| MemHeapSpec.Conservation | 外置式倒计时器/有多功能/stm32f10x-HAL_led/rt-thread/src/memheap.c:72-75 | available_size, used payloads and one header per block and tail add up to pool_size |
| MemHeapSpec.MaxUsedIsPeak | 外置式倒计时器/有多功能/stm32f10x-HAL_led/rt-thread/src/memheap.c:237-249 | max_used_size is the running maximum of pool_size - available_size over every moment of a run |
| MemHeapSpec.AllocateOutcome | 外置式倒计时器/有多功能/stm32f10x-HAL_led/rt-thread/src/memheap.c:148-281 | success takes the first fit of the free list and adds one live block; NULL means no free block fits or the request is not below available_size |
| MemHeapSpec.FreeLive | 外置式倒计时器/有多功能/stm32f10x-HAL_led/rt-thread/src/memheap.c:499-596 | rt_memheap_free takes exactly one block out of the live ones |
| MemHeapSpec.ReallocLive | 外置式倒计时器/有多功能/stm32f10x-HAL_led/rt-thread/src/memheap.c:291-496 | one block with room for the rounded size takes the place of the old one, or NULL and nothing changes |
| MemHeapSpec.LivePayloads | 外置式倒计时器/有多功能/stm32f10x-HAL_led/rt-thread/src/memheap.c:146-596 | live payloads are aligned, inside the pool and pairwise disjoint, and no header of any block lies inside one |
| MemHeapSpec.AllocSize | 外置式倒计时器/有多功能/stm32f10x-HAL_led/rt-thread/src/memheap.c:155-157 | a successful rt_memheap_alloc serves the size asked for if and only if that is at most 0xFFFFFFFC |
| MemHeapSpec.ReallocSize | 外置式倒计时器/有多功能/stm32f10x-HAL_led/rt-thread/src/memheap.c:305-307 | a successful rt_memheap_realloc serves the size asked for if and only if that is at most 0xFFFFFFFC |
| MemHeapSpec.SizesWrap | 外置式倒计时器/有多功能/stm32f10x-HAL_led/rt-thread/src/memheap.c:155-157 | on concrete pools larger sizes get 12 bytes, and a block is cut down to 12 |
| MemHeapSpec.ExpandGuardExact | 外置式倒计时器/有多功能/stm32f10x-HAL_led/rt-thread/src/memheap.c:343-354 | the 32-bit test for growing in place is right if and only if the size does not wrap when 12 is added |
| MemHeapSpec.ExpandGuardWraps | 外置式倒计时器/有多功能/stm32f10x-HAL_led/rt-thread/src/memheap.c:343-354 | a concrete pool on which it passes without the space |
| MemHeapSpec.AllocThenFree | 外置式倒计时器/有多功能/stm32f10x-HAL_led/rt-thread/src/memheap.c:146-596 | rt_memheap_free of a fresh block restores blocks and available_size; the block is then first in the free list |
| MemHeapSpec.AllFreeIsInitial | 外置式倒计时器/有多功能/stm32f10x-HAL_led/rt-thread/src/memheap.c:146-596 | a run after which nothing is live has merged the pool into one free block |
| MemHeapCalls.AllocAnswers | 外置式倒计时器/有多功能/stm32f10x-HAL_led/rt-thread/src/memheap.c:146-288 | rt_memheap_alloc returns NULL, with nothing changed, exactly when the size is not below the available bytes or no free block has room; otherwise the block cut from the first of the free list that has becomes live, and the rest is split off exactly when it holds a header and 12 bytes |
| MemHeapCalls.ReallocAnswers | 外置式倒计时器/有多功能/stm32f10x-HAL_led/rt-thread/src/memheap.c:291-496 | rt_memheap_realloc keeps, cuts or grows the block in place exactly where the sizes of it and of the free block behind it allow; otherwise it moves as rt_memheap_alloc answers, and NULL comes exactly when that refuses |
| MemHeapCalls.ReallocEdges | 外置式倒计时器/有多功能/stm32f10x-HAL_led/rt-thread/src/memheap.c:298-314 | without a block it is rt_memheap_alloc of the rounded size, and size 0 frees the block |
| MemHeapCalls.FreeListIsStack | 外置式倒计时器/有多功能/stm32f10x-HAL_led/rt-thread/src/memheap.c:146-596 | every call adds at most one entry to the free list, at its head, and leaves the order of the others; a move does so twice |
| TimerSpec.RunInv | 外置式倒计时器/有多功能/stm32f10x-HAL_led/rt-thread/src/timer.c:294-546 | in every run the list is in order of the true deadlines, ties in start order, all within half the tick range |
| TimerSpec.StepInv | 外置式倒计时器/有多功能/stm32f10x-HAL_led/rt-thread/src/timer.c:294-546 | every call and every tick keeps that |
| TimerSpec.CheckIs | 外置式倒计时器/有多功能/stm32f10x-HAL_led/rt-thread/src/timer.c:488-546 | a check fires a timer once if it is due and not otherwise; a due one is started again if periodic and else becomes inactive |
| TimerSpec.CheckFiresInOrder | 外置式倒计时器/有多功能/stm32f10x-HAL_led/rt-thread/src/timer.c:501-540 | a check fires exactly the expired prefix of the list, in list order |
| TimerSpec.TickIs | 外置式倒计时器/有多功能/stm32f10x-HAL_led/rt-thread/src/clock.c:83-105 | after a tick every deadline lies ahead |
| TimerSpec.HeadIsEarliest | 外置式倒计时器/有多功能/stm32f10x-HAL_led/rt-thread/src/timer.c:110-121 | the head has the earliest deadline |
| TimerSpec.PeriodicFires | 外置式倒计时器/有多功能/stm32f10x-HAL_led/rt-thread/src/timer.c:294-546 | a periodic timer with period p started at tick s, with nothing between reading the tick and the insertion, fires exactly at s + p, s + 2p, and so on |
| TimerSpec.StartExact | 外置式倒计时器/有多功能/stm32f10x-HAL_led/rt-thread/src/timer.c:304-389 | interrupted between reading the tick and the insertion, it does so if and only if fewer than p ticks pass in between; otherwise it fires first at the next tick |
| TimerSpec.OneShotFires | 外置式倒计时器/有多功能/stm32f10x-HAL_led/rt-thread/src/timer.c:488-546 | a one-shot timer fires once, at its deadline, or at the next tick if started with 0 ticks |
| TimerSpec.ScheduleAt | 外置式倒计时器/有多功能/stm32f10x-HAL_led/rt-thread/src/timer.c:525-531 | the k-th firing is k periods after the first |
| TimerAlone.AsIfAlone | 外置式倒计时器/有多功能/stm32f10x-HAL_led/rt-thread/src/timer.c:294-546 | in every run each timer fires exactly when it would fire if it were the only one: a start counts from its tick, a stop ends it, settings take effect with the next start |
| TimerAlone.StopSilences | 外置式倒计时器/有多功能/stm32f10x-HAL_led/rt-thread/src/timer.c:419-442 | rt_timer_stop succeeds exactly for an active timer; afterwards the timer is inactive, off the list, and does not fire until it is started |
| Timer.CompareTicks | 外置式倒计时器/有多功能/stm32f10x-HAL_led/rt-thread/src/timer.c:351-363 | the wrapped difference of two ticks less than half the range apart tells which is later |
| Timer.TimerList.Start | 外置式倒计时器/有多功能/stm32f10x-HAL_led/rt-thread/src/timer.c:294-409 | the search by modular comparison makes the step on the ideal clock |
| Timer.TimerList.InsertRow | 外置式倒计时器/有多功能/stm32f10x-HAL_led/rt-thread/src/timer.c:339-377 | the loop stops exactly in front of the first later deadline |
| Timer.TimerList.Stop | 外置式倒计时器/有多功能/stm32f10x-HAL_led/rt-thread/src/timer.c:419-442 | stops an active timer; -RT_ERROR for an inactive one |
| Timer.TimerList.SetTime | 外置式倒计时器/有多功能/stm32f10x-HAL_led/rt-thread/src/timer.c:465-467 | changes the time for the next start only |
| Timer.TimerList.SetPeriodic | 外置式倒计时器/有多功能/stm32f10x-HAL_led/rt-thread/src/timer.c:469-475 | changes the mode of the timer |
| Timer.TimerList.CheckList | 外置式倒计时器/有多功能/stm32f10x-HAL_led/rt-thread/src/timer.c:488-546 | the expiry loop terminates and does what a check on the ideal clock does |
| Timer.TimerList.TickIncrease | 外置式倒计时器/有多功能/stm32f10x-HAL_led/rt-thread/src/clock.c:83-105 | the wrapping tick counter and the check make one tick of the ideal clock |
| Timer.TimerList.NextTimeoutTick | 外置式倒计时器/有多功能/stm32f10x-HAL_led/rt-thread/src/timer.c:110-121 | the wrapped earliest deadline, or RT_TICK_MAX if no timer runs |
| Ffs.RtFfs | 外置式倒计时器/有多功能/stm32f10x-HAL_led/rt-thread/src/kservice.c:1279-1293 | 0 for 0, else one more than the lowest set bit |
| Ffs.TableIsLowestBit | 外置式倒计时器/有多功能/stm32f10x-HAL_led/rt-thread/src/kservice.c:1249-1267 | every table entry but the first is the lowest set bit of its index |
| Kernel.GroupSet | 外置式倒计时器/有多功能/stm32f10x-HAL_led/rt-thread/src/scheduler.c:316-319 | or-ing a priority mask in marks exactly that list as not empty |
| Kernel.GroupClear | 外置式倒计时器/有多功能/stm32f10x-HAL_led/rt-thread/src/scheduler.c:355-368 | masking it out marks exactly that list as empty |
| Kernel.FfsFindsFirst | 外置式倒计时器/有多功能/stm32f10x-HAL_led/rt-thread/src/scheduler.c:205-206 | ffs of the bitmap, less 1, is the most urgent priority with a ready thread |
| Kernel.BitmapGoesStale | 外置式倒计时器/有多功能/stm32f10x-HAL_led/rt-thread/src/thread.c:689-701 | a thread that its timer has made ready is taken off its list by rt_thread_resume without its bit: ffs then names an empty list |
| WaitList.SuspendOn | 外置式倒计时器/有多功能/stm32f10x-HAL_led/rt-thread/src/ipc.c:92-135 | the insertion loop puts the thread where FIFO or priority order wants it |
| WaitList.PriorityOrderKept | 外置式倒计时器/有多功能/stm32f10x-HAL_led/rt-thread/src/ipc.c:104-131 | the list stays sorted by priority and the new thread is behind exactly those at least as urgent |
| WaitList.EnqueueIs | 外置式倒计时器/有多功能/stm32f10x-HAL_led/rt-thread/src/ipc.c:92-135 | one thread is added, none is lost, and the others keep their order |
| WaitList.PriorityOrderAfterDrop | 外置式倒计时器/有多功能/stm32f10x-HAL_led/rt-thread/src/ipc.c:146-159 | a thread leaving the list keeps it sorted |
| WaitList.EnqueuePlace | 外置式倒计时器/有多功能/stm32f10x-HAL_led/rt-thread/src/ipc.c:92-135 | in FIFO order the thread goes to the end; in priority order in front of the first waiter that is less urgent, whatever the order of the list |
| Kernel.Scheduler.Schedule | 外置式倒计时器/有多功能/stm32f10x-HAL_led/rt-thread/src/scheduler.c:191-277 | the bitmap and ffs pick the head of the most urgent list |
| Kernel.Scheduler.ScheduleInsertThread | 外置式倒计时器/有多功能/stm32f10x-HAL_led/rt-thread/src/scheduler.c:286-323 | READY, on the end of its list, bit set |
| Kernel.Scheduler.ScheduleRemoveThread | 外置式倒计时器/有多功能/stm32f10x-HAL_led/rt-thread/src/scheduler.c:332-372 | off its list, the bit cleared exactly if the list is empty |
| Kernel.Scheduler.EnterCritical | 外置式倒计时器/有多功能/stm32f10x-HAL_led/rt-thread/src/scheduler.c:377-392 | one more level of locking |
| Kernel.Scheduler.ExitCritical | 外置式倒计时器/有多功能/stm32f10x-HAL_led/rt-thread/src/scheduler.c:398-420 | one level less, and a schedule at the outermost |
| Kernel.Scheduler.ThreadStartup | 外置式倒计时器/有多功能/stm32f10x-HAL_led/rt-thread/src/thread.c:273-304 | the thread gets its priority and mask, becomes ready, and rt_schedule follows |
| Kernel.Scheduler.ThreadSuspend | 外置式倒计时器/有多功能/stm32f10x-HAL_led/rt-thread/src/thread.c:630-662 | with nothing between its test and its section: a ready thread leaves its list and its timer stops; -RT_ERROR otherwise |
| Kernel.Scheduler.SuspendSection | 外置式倒计时器/有多功能/stm32f10x-HAL_led/rt-thread/src/thread.c:647-658 | the section, which does not look at the state again |
| Kernel.Scheduler.ThreadResume | 外置式倒计时器/有多功能/stm32f10x-HAL_led/rt-thread/src/thread.c:672-705 | with nothing between its test and its sections: a suspended thread leaves its list and becomes ready; -RT_ERROR otherwise |
| Kernel.Scheduler.ResumeTakeOff | 外置式倒计时器/有多功能/stm32f10x-HAL_led/rt-thread/src/thread.c:689-698 | the first section: off its list whatever that is, timer stopped, state and bitmap as they were |
| Kernel.Scheduler.ResumePutBack | 外置式倒计时器/有多功能/stm32f10x-HAL_led/rt-thread/src/thread.c:700-701 | the second section: ready, on the end of its list, bit set |
| Kernel.Scheduler.ThreadSleep | 外置式倒计时器/有多功能/stm32f10x-HAL_led/rt-thread/src/thread.c:497-518 | the current thread is suspended with its timer running, and then rt_schedule |
| Kernel.Scheduler.SleepReturn | 外置式倒计时器/有多功能/stm32f10x-HAL_led/rt-thread/src/thread.c:520-524 | when the thread runs again a time-out is no error |
| Kernel.Scheduler.ThreadTimeout | 外置式倒计时器/有多功能/stm32f10x-HAL_led/rt-thread/src/thread.c:714-735 | the assertion holds; the thread gets -RT_ETIMEOUT and becomes ready |
| Kernel.Scheduler.ThreadYield | 外置式倒计时器/有多功能/stm32f10x-HAL_led/rt-thread/src/thread.c:453-487 | the current thread goes behind the others of its priority if there are any |
| Kernel.Scheduler.ChangePriority | 外置式倒计时器/有多功能/stm32f10x-HAL_led/rt-thread/src/thread.c:552-598 | a ready thread moves to the list of its new priority |
| Kernel.Scheduler.ThreadExit | 外置式倒计时器/有多功能/stm32f10x-HAL_led/rt-thread/src/thread.c:95-130 | the current thread is closed, to be cleaned up or, if static without a cleanup function, detached, and another one runs |
| Kernel.Scheduler.ThreadDelete | 外置式倒计时器/有多功能/stm32f10x-HAL_led/rt-thread/src/thread.c:413-442 | with nothing between its sections: the thread is closed wherever it was |
| Kernel.Scheduler.DeleteRemove | 外置式倒计时器/有多功能/stm32f10x-HAL_led/rt-thread/src/thread.c:420-424 | the first section: off its list, the bitmap follows |
| Kernel.Scheduler.DeleteDetach | 外置式倒计时器/有多功能/stm32f10x-HAL_led/rt-thread/src/thread.c:427-427 | the second section: the timer is stopped |
| Kernel.Scheduler.DeleteBury | 外置式倒计时器/有多功能/stm32f10x-HAL_led/rt-thread/src/thread.c:430-439 | the rest: closed and on the defunct list |
| Kernel.Scheduler.TickSlice | 外置式倒计时器/有多功能/stm32f10x-HAL_led/rt-thread/src/clock.c:88-102 | the slice is counted down and refilled with a yield |
| Kernel.Scheduler.SemTake | 外置式倒计时器/有多功能/stm32f10x-HAL_led/rt-thread/src/ipc.c:328-411 | takes a unit, fails, or joins the waiters and then calls rt_schedule |
| Kernel.Scheduler.SemTakeReturn | 外置式倒计时器/有多功能/stm32f10x-HAL_led/rt-thread/src/ipc.c:401-404 | RT_EOK if and only if a release handed the thread a unit |
| Kernel.Scheduler.SemRelease | 外置式倒计时器/有多功能/stm32f10x-HAL_led/rt-thread/src/ipc.c:435-469 | the step of KernelSpec.Release and a schedule if a waiter was woken; SemaphoreRuns.ValueCounts is about its runs |
| KernelRuns.RunInv | 外置式倒计时器/有多功能/stm32f10x-HAL_led/rt-thread/src/scheduler.c:191-372 | in every run of sections, under the rules listed below, each list holds exactly the threads linked there, thread fields, half-way calls, lists and semaphores agree, and the running thread is not one that waits |
| KernelRuns.StepInv | 外置式倒计时器/有多功能/stm32f10x-HAL_led/rt-thread/src/thread.c:95-735 | every section that keeps to those rules keeps that |
| KernelRuns.StepTouches | 外置式倒计时器/有多功能/stm32f10x-HAL_led/rt-thread/src/thread.c:95-735 | a section changes one thread at most, and in which way; only rt_schedule changes the current one |
| KernelRuns.OneList | 外置式倒计时器/有多功能/stm32f10x-HAL_led/rt-thread/src/scheduler.c:286-372 | a thread's tlist is on one list at most, there once, and a thread that nobody is deleting is ready exactly if it is on the list of its priority |
| KernelRuns.MostUrgentRuns | 外置式倒计时器/有多功能/stm32f10x-HAL_led/rt-thread/src/scheduler.c:191-277 | after an unlocked schedule the head of the most urgent list runs and no ready thread is more urgent |
| KernelRuns.TimeoutAssertHolds | 外置式倒计时器/有多功能/stm32f10x-HAL_led/rt-thread/src/thread.c:714-721 | the thread behind an armed timer is suspended |
| KernelRuns.SemaphoreCounts | 外置式倒计时器/有多功能/stm32f10x-HAL_led/rt-thread/src/ipc.c:328-469 | value above 0 means no waiters; the value is initial + releases - grants below 2^16 units; a wait is handed over, timed out, abandoned or still going on |
| KernelRuns.WaitEndsOnce | 外置式倒计时器/有多功能/stm32f10x-HAL_led/rt-thread/src/ipc.c:328-469 | no step ends a wait twice or changes how it ended |
| KernelRuns.ReturnTells | 外置式倒计时器/有多功能/stm32f10x-HAL_led/rt-thread/src/ipc.c:401-404 | a blocked rt_sem_take returns only when its wait has ended, and its error says how |
| KernelRuns.TakeUnderLock | 外置式倒计时器/有多功能/stm32f10x-HAL_led/rt-thread/src/ipc.c:348-411 | with nothing between the section and its rt_schedule: rt_sem_take reports success without a unit if and only if it has to wait while the scheduler is locked |
| SemaphoreRuns.ValueCounts | 外置式倒计时器/有多功能/stm32f10x-HAL_led/rt-thread/src/ipc.c:328-469 | from the start on, for every run: the tally counts the calls of rt_sem_release, the units taken at once and what became of the waits; below 2^16 units the value is the initial one and the releases less the units taken or handed over; those wait whose wait has not ended |
| SemaphoreRuns.StepBooks | 外置式倒计时器/有多功能/stm32f10x-HAL_led/rt-thread/src/ipc.c:328-469 | every step is counted so |
| SemaphoreRuns.TakeAnswers | 外置式倒计时器/有多功能/stm32f10x-HAL_led/rt-thread/src/ipc.c:348-411 | rt_sem_take answers RT_EOK and takes one off exactly if the value is above 0, -RT_ETIMEOUT with nothing changed exactly if it is 0 and there is no time to wait, and else waits, with its timer running exactly if it has a time |
| SemaphoreRuns.ReleaseAnswers | 外置式倒计时器/有多功能/stm32f10x-HAL_led/rt-thread/src/ipc.c:446-469 | rt_sem_release wakes the first waiter, and that one alone, or counts one up modulo 2^16 |
| ReadyOrder.StepMoves | 外置式倒计时器/有多功能/stm32f10x-HAL_led/rt-thread/src/scheduler.c:286-372 | a section moves at most the thread it is about: to the end of its ready list, to the head of the defunct list, to its place among the waiters, or off all lists; all others keep place and order |
| ReadyOrder.NoOvertaking | 外置式倒计时器/有多功能/stm32f10x-HAL_led/rt-thread/src/scheduler.c:286-323 | of two threads on a list the one in front stays in front through any steps that move neither |
| ReadyOrder.WakeUpPreempts | 外置式倒计时器/有多功能/stm32f10x-HAL_led/rt-thread/src/ipc.c:446-469 | when rt_sem_release wakes a waiter, or a timer fires, with the scheduler unlocked, the most urgent thread runs; else the same thread runs on |
| ReadyOrder.GivingUpPreempts | 外置式倒计时器/有多功能/stm32f10x-HAL_led/rt-thread/src/thread.c:453-487 | a thread that yields to others, or has to wait, does not run next, and the most urgent thread does |
| ReadyOrder.SuspendAnswers | 外置式倒计时器/有多功能/stm32f10x-HAL_led/rt-thread/src/thread.c:630-662 | rt_thread_suspend succeeds exactly for a ready thread, which then is suspended, off all lists and without a timer; else nothing changes |
| ReadyOrder.ResumeAnswers | 外置式倒计时器/有多功能/stm32f10x-HAL_led/rt-thread/src/thread.c:672-705 | rt_thread_resume succeeds exactly for a suspended thread, which then is ready and last on its list; else nothing changes |
| ReadyOrder.LockNests | 外置式倒计时器/有多功能/stm32f10x-HAL_led/rt-thread/src/scheduler.c:377-420 | over every run the lock is as deep as its rt_enter_critical calls that are not matched |
| KernelCalls.DeleteExact | 外置式倒计时器/有多功能/stm32f10x-HAL_led/rt-thread/src/thread.c:413-442 | whatever sections of other calls and timers come in between, rt_thread_delete keeps the lists in order if and only if the timer of the thread is not armed when it starts and, where others may change its priority, the thread is not ready |
| KernelCalls.DeleteRace | 外置式倒计时器/有多功能/stm32f10x-HAL_led/rt-thread/src/thread.c:420-439 | if that timer fires after the first section the thread ends up on its ready list and on the defunct list |
| KernelCalls.DeletePriorityRace | 外置式倒计时器/有多功能/stm32f10x-HAL_led/rt-thread/src/thread.c:552-580 | if the priority of a ready thread is changed between the sections, as by rt_mutex_take on a mutex it owns, it ends up on two lists as well |
| KernelCalls.ResumeExact | 外置式倒计时器/有多功能/stm32f10x-HAL_led/rt-thread/src/thread.c:672-705 | whatever others do around its sections, rt_thread_resume of a suspended thread keeps every ready thread on its list if and only if its timer is not armed and it does not wait on a semaphore |
| KernelCalls.ResumeRace | 外置式倒计时器/有多功能/stm32f10x-HAL_led/rt-thread/src/thread.c:681-698 | if the timer fires after the test, a ready thread is taken off its ready list |
| KernelCalls.ResumeTwice | 外置式倒计时器/有多功能/stm32f10x-HAL_led/rt-thread/src/thread.c:681-701 | a second rt_thread_resume between the sections links the thread in twice |
| KernelCalls.ResumedWithoutUnit | 外置式倒计时器/有多功能/stm32f10x-HAL_led/rt-thread/src/ipc.c:396-411 | a waiter resumed by another thread leaves without a unit, unaccounted for, and its rt_sem_take returns RT_EOK |
| KernelCalls.SuspendExact | 外置式倒计时器/有多功能/stm32f10x-HAL_led/rt-thread/src/thread.c:630-662 | whatever others do between its test and its section, rt_thread_suspend of a ready thread is safe if and only if the caller suspends itself or has locked the scheduler |
| KernelCalls.SuspendLosesWait | 外置式倒计时器/有多功能/stm32f10x-HAL_led/rt-thread/src/thread.c:639-658 | if the thread has come to wait on a semaphore in between, it is on no list with no timer and its wait is not accounted for |
| KernelCalls.UninterruptedKeeps | 外置式倒计时器/有多功能/stm32f10x-HAL_led/rt-thread/src/thread.c:413-705 | with interrupts disabled the three calls keep the invariant, an armed timer included |
| KernelCalls.SleeperReached | 外置式倒计时器/有多功能/stm32f10x-HAL_led/rt-thread/src/thread.c:497-518 | a reachable state in which deleting and resuming a sleeping thread is not safe |
| KernelCalls.ReadyReached | 外置式倒计时器/有多功能/stm32f10x-HAL_led/rt-thread/src/thread.c:413-662 | a reachable ready thread without a timer that is not safe to suspend, nor to delete if others may change its priority |
| KernelCalls.LockedTakeReached | 外置式倒计时器/有多功能/stm32f10x-HAL_led/rt-thread/src/ipc.c:348-411 | a reachable state in which rt_sem_take reports success although no unit was ever released |
| KernelCalls.LockedTakeExact | 外置式倒计时器/有多功能/stm32f10x-HAL_led/rt-thread/src/ipc.c:348-411 | whatever timers and interrupt handlers do before its rt_schedule, such a call under the lock returns RT_EOK without a unit if and only if the thread has neither been handed one nor timed out by then |
| TimeSlices.RoundRobin | 外置式倒计时器/有多功能/stm32f10x-HAL_led/rt-thread/src/clock.c:83-105 | n threads of the top priority with full slices run once each, in queue order and for exactly their slices, and then all is as before |
| MailboxSpec.RunInv | 外置式倒计时器/有多功能/stm32f10x-HAL_led/rt-thread/src/ipc.c:1410-1680 | in every run, with time-outs, outside wake-ups and deletions of threads that are not needed: mails come out in the order they went in, each once, and no wake-up is lost |
| MailboxSpec.StepInv | 外置式倒计时器/有多功能/stm32f10x-HAL_led/rt-thread/src/ipc.c:1410-1680 | every section keeps that |
| MailboxSpec.SomeoneComes | 外置式倒计时器/有多功能/stm32f10x-HAL_led/rt-thread/src/ipc.c:1511-1522 | while receivers wait and a mail is there, some woken receiver has yet to run; likewise for senders |
| MailboxSpec.DeleteExact | 外置式倒计时器/有多功能/stm32f10x-HAL_led/rt-thread/src/thread.c:413-442 | deleting a thread loses no wake-up if and only if it is not a woken one that is needed |
| MailboxSpec.WakeUpLost | 外置式倒计时器/有多功能/stm32f10x-HAL_led/rt-thread/src/ipc.c:1500-1525 | a reachable state in which deleting the woken receiver leaves a mail, a waiter and nobody on the way |
| MailboxSpec.LockedExact | 外置式倒计时器/有多功能/stm32f10x-HAL_led/rt-thread/src/ipc.c:1583-1645 | under a locked scheduler the wait lists stay in order if and only if the call does not have to wait |
| MailboxRuns.MailsInOrder | 外置式倒计时器/有多功能/stm32f10x-HAL_led/rt-thread/src/ipc.c:1410-1680 | in every run the mails that rt_mb_recv answers with are, in order, the arguments of the sends answered RT_EOK, without the last few, which are in the box |
| MailboxRuns.SendAnswers | 外置式倒计时器/有多功能/stm32f10x-HAL_led/rt-thread/src/ipc.c:1432-1527 | a send is accepted exactly if there is a place, puts its mail last and wakes the first receiver only; it is -RT_EFULL exactly if there is none and no time is left, and waits exactly if time is left; both move no mail |
| MailboxRuns.RecvAnswers | 外置式倒计时器/有多功能/stm32f10x-HAL_led/rt-thread/src/ipc.c:1583-1680 | a receive gets the oldest mail exactly if there is one and wakes the first sender only; it is -RT_ETIMEOUT exactly if there is none and no time is left, and waits exactly if time is left; both move no mail |
| MailboxRuns.TimeLeftIs | 外置式倒计时器/有多功能/stm32f10x-HAL_led/rt-thread/src/ipc.c:1462-1499 | however often a call waits again, it may wait its time-out less the ticks since it was made, up to 2^31 ticks beyond; its timer can fire exactly if it waits and has a time-out |
| MailboxRuns.TimedOutReturns | 外置式倒计时器/有多功能/stm32f10x-HAL_led/rt-thread/src/ipc.c:1482-1487 | a call whose timer has fired returns -RT_ETIMEOUT whatever happens in between |
| WaitTime.RemainingExact | 外置式倒计时器/有多功能/stm32f10x-HAL_led/rt-thread/src/ipc.c:1492-1499 | the recomputed waiting time is what is left of the old one if and only if at most 2^31 ticks have passed beyond it |
| WaitTime.RemainingWraps | 外置式倒计时器/有多功能/stm32f10x-HAL_led/rt-thread/src/ipc.c:1492-1499 | one tick later a time-out of 10 ticks becomes one of 2^31 - 1 |
| Mailbox.MailboxObject.constructor | 外置式倒计时器/有多功能/stm32f10x-HAL_led/rt-thread/src/ipc.c:1259-1287 | an empty ring |
| Mailbox.MailboxObject.SendWait | 外置式倒计时器/有多功能/stm32f10x-HAL_led/rt-thread/src/ipc.c:1410-1528 | the step of the protocol on the ring buffer |
| Mailbox.MailboxObject.SendResumed | 外置式倒计时器/有多功能/stm32f10x-HAL_led/rt-thread/src/ipc.c:1482-1527 | the same for a sender that was woken, with its remaining time |
| Mailbox.MailboxObject.Receive | 外置式倒计时器/有多功能/stm32f10x-HAL_led/rt-thread/src/ipc.c:1557-1680 | the step of the protocol on the ring buffer, with the answer of MailboxRuns.RecvAnswers |
| Mailbox.MailboxObject.ReceiveResumed | 外置式倒计时器/有多功能/stm32f10x-HAL_led/rt-thread/src/ipc.c:1629-1679 | the same for a receiver that was woken, with its remaining time |
| Mailbox.MailboxObject.Enter | 外置式倒计时器/有多功能/stm32f10x-HAL_led/rt-thread/src/ipc.c:1502-1509 | writing at in_offset appends to the queue |
| Mailbox.MailboxObject.Leave | 外置式倒计时器/有多功能/stm32f10x-HAL_led/rt-thread/src/ipc.c:1649-1657 | reading at out_offset takes the oldest mail |
| Mailbox.InOffset | 外置式倒计时器/有多功能/stm32f10x-HAL_led/rt-thread/src/ipc.c:1502-1509 | in_offset is out_offset + entry modulo size |
| MessageQueueSpec.RunInv | 外置式倒计时器/有多功能/stm32f10x-HAL_led/rt-thread/src/ipc.c:1930-2227 | with any interleaving of the sections, outside wake-ups and deletions of threads that are not needed, every node is on the free list, in the queue or with one thread, these total max_msgs, the queue is a deque of messages, and no wake-up is lost |
| MessageQueueSpec.StepInv | 外置式倒计时器/有多功能/stm32f10x-HAL_led/rt-thread/src/ipc.c:1930-2227 | every section keeps that |
| MessageQueueSpec.LinkExtends | 外置式倒计时器/有多功能/stm32f10x-HAL_led/rt-thread/src/ipc.c:1971-1985 | the link step appends the message, an urgent one prepends it |
| MessageQueueSpec.TakePops | 外置式倒计时器/有多功能/stm32f10x-HAL_led/rt-thread/src/ipc.c:2198-2208 | taking a message takes the front of the deque |
| MessageQueueSpec.FinishReturns | 外置式倒计时器/有多功能/stm32f10x-HAL_led/rt-thread/src/ipc.c:2213-2220 | rt_mq_recv returns that message, cut to the size asked for |
| MessageQueueSpec.CopyUndisturbed | 外置式倒计时器/有多功能/stm32f10x-HAL_led/rt-thread/src/ipc.c:2198-2220 | while a receiver copies, whatever another thread does, the node stays with it and keeps its bytes |
| MessageQueueSpec.RecvDelivers | 外置式倒计时器/有多功能/stm32f10x-HAL_led/rt-thread/src/ipc.c:2118-2220 | rt_mq_recv, at once or after waiting, returns the message that was at the front when it took it, whatever others do in between |
| MessageQueueSpec.FullExact | 外置式倒计时器/有多功能/stm32f10x-HAL_led/rt-thread/src/ipc.c:1948-1959 | -RT_EFULL exactly when all nodes are in the queue or on their way |
| MessageQueueSpec.DeleteExact | 外置式倒计时器/有多功能/stm32f10x-HAL_led/rt-thread/src/thread.c:413-442 | deleting a thread keeps every node in its place and loses no wake-up if and only if the thread holds no node and is not a woken one that is needed |
| MessageQueueSpec.NodeLost | 外置式倒计时器/有多功能/stm32f10x-HAL_led/rt-thread/src/ipc.c:1953-1985 | the node a deleted thread held is on no list and with nobody |
| MessageQueueSpec.NodeLostReached | 外置式倒计时器/有多功能/stm32f10x-HAL_led/rt-thread/src/ipc.c:1953-1985 | a reachable state in which this leaves a queue that takes no message any more |
| MessageQueueSpec.LockedExact | 外置式倒计时器/有多功能/stm32f10x-HAL_led/rt-thread/src/ipc.c:2140-2196 | under a locked scheduler the wait list stays in order if and only if the call does not have to wait |
| MessageQueueRuns.SendDelivers | 外置式倒计时器/有多功能/stm32f10x-HAL_led/rt-thread/src/ipc.c:1930-2003 | a send that goes on puts exactly one message into the queue, which begins with the bytes it was given, in front if urgent and last otherwise, whatever others do before it fills its node and before it links it in |
| MessageQueueRuns.CallDelivers | 外置式倒计时器/有多功能/stm32f10x-HAL_led/rt-thread/src/ipc.c:2101-2222 | an rt_mq_recv that had to wait returns the message at the front when it found one, cut to the size it was called with |
| MessageQueueRuns.AsksTheSame | 外置式倒计时器/有多功能/stm32f10x-HAL_led/rt-thread/src/ipc.c:2154-2196 | however often it waits again, it asks for the same size and has its time-out less the ticks since the call left |
| MessageQueueRuns.DequeSteps | 外置式倒计时器/有多功能/stm32f10x-HAL_led/rt-thread/src/ipc.c:1971-2208 | the messages in the queue change only where one is linked in and where the first is taken |
| MessageQueueRuns.SendAnswers | 外置式倒计时器/有多功能/stm32f10x-HAL_led/rt-thread/src/ipc.c:1940-1962 | -RT_ERROR exactly if the message is too long, -RT_EFULL exactly if it fits and no node is free, nothing changed in either case |
| MessageQueueRuns.RecvAnswers | 外置式倒计时器/有多功能/stm32f10x-HAL_led/rt-thread/src/ipc.c:2125-2208 | a message is taken exactly if there is one; -RT_ETIMEOUT exactly if there is none and no time is left; waiting exactly if time is left |
| MessageQueueRuns.LinkWakes | 外置式倒计时器/有多功能/stm32f10x-HAL_led/rt-thread/src/ipc.c:1988-2001 | linking a message in wakes the first waiting receiver and no other |
| MessageQueueRuns.TimedOutReturns | 外置式倒计时器/有多功能/stm32f10x-HAL_led/rt-thread/src/ipc.c:2178-2183 | a call whose timer has fired returns -RT_ETIMEOUT whatever happens in between |
| MessageQueue.MessageQueueObject.constructor | 外置式倒计时器/有多功能/stm32f10x-HAL_led/rt-thread/src/ipc.c:1744-1791 | the free list of all nodes |
| MessageQueue.MessageQueueObject.EmptyAgrees | 外置式倒计时器/有多功能/stm32f10x-HAL_led/rt-thread/src/ipc.c:1744-1791 | head is NULL exactly if tail is, exactly if entry is 0 |
| MessageQueue.MessageQueueObject.SendTake | 外置式倒计时器/有多功能/stm32f10x-HAL_led/rt-thread/src/ipc.c:1930-1962 | the first section of sending on linked nodes; MessageQueueRuns.SendDelivers is about the whole call |
| MessageQueue.MessageQueueObject.SendFill | 外置式倒计时器/有多功能/stm32f10x-HAL_led/rt-thread/src/ipc.c:1964-1967 | the part between the sections |
| MessageQueue.MessageQueueObject.SendLink | 外置式倒计时器/有多功能/stm32f10x-HAL_led/rt-thread/src/ipc.c:1969-2003 | the link step, at the tail or at the head, and the wake-up |
| MessageQueue.MessageQueueObject.Recv | 外置式倒计时器/有多功能/stm32f10x-HAL_led/rt-thread/src/ipc.c:2101-2210 | waiting or taking the head |
| MessageQueue.MessageQueueObject.RecvResumed | 外置式倒计时器/有多功能/stm32f10x-HAL_led/rt-thread/src/ipc.c:2178-2210 | the same for a receiver that was woken |
| MessageQueue.MessageQueueObject.RecvFinish | 外置式倒计时器/有多功能/stm32f10x-HAL_led/rt-thread/src/ipc.c:2213-2222 | copying out and giving the node back |
| MutexSpec.RunInv | 外置式倒计时器/有多功能/stm32f10x-HAL_led/rt-thread/src/ipc.c:642-863 | in every run of one mutex in which nobody waits with the scheduler locked, with any number of nested takes: one owner or nobody waits; hold counts its takes modulo 256; all but the owner run at their own priority, the owner at the most urgent of its own and those that blocked on it |
| MutexSpec.StepInv | 外置式倒计时器/有多功能/stm32f10x-HAL_led/rt-thread/src/ipc.c:642-863 | every call keeps that |
| MutexSpec.RunExclusive | 外置式倒计时器/有多功能/stm32f10x-HAL_led/rt-thread/src/ipc.c:642-863 | in every run without a 257th nested take, and in which nobody waits with the scheduler locked, only the owner is inside |
| MutexSpec.TakeUnderLock | 外置式倒计时器/有多功能/stm32f10x-HAL_led/rt-thread/src/ipc.c:735-764 | rt_mutex_take returns RT_EOK to a thread that does not own the mutex if and only if it has to wait while the scheduler is locked |
| MutexSpec.LockedTakeReached | 外置式倒计时器/有多功能/stm32f10x-HAL_led/rt-thread/src/ipc.c:735-764 | a reachable state in which it does so while another thread owns the mutex |
| MutexSpec.MutualExclusion | 外置式倒计时器/有多功能/stm32f10x-HAL_led/rt-thread/src/ipc.c:642-863 | then never are two threads between a take and its release |
| MutexSpec.OwnerIsUrgent | 外置式倒计时器/有多功能/stm32f10x-HAL_led/rt-thread/src/ipc.c:707-714 | in priority order no waiter is more urgent than the owner |
| MutexSpec.ReleaseRestores | 外置式倒计时器/有多功能/stm32f10x-HAL_led/rt-thread/src/ipc.c:799-853 | only the owner gives the mutex up, exactly when hold falls to 0, and gets its own priority back |
| MutexSpec.HandOverUrgent | 外置式倒计时器/有多功能/stm32f10x-HAL_led/rt-thread/src/ipc.c:823-840 | after a hand-over no waiter is more urgent than the owner if and only if the first waiter was the most urgent |
| MutexSpec.InversionExact | 外置式倒计时器/有多功能/stm32f10x-HAL_led/rt-thread/src/ipc.c:642-863 | over a whole run, in FIFO or priority order, no waiter is ever more urgent than the owner if and only if every hand-over finds the most urgent waiter first |
| MutexSpec.NeverInvertsExact | 外置式倒计时器/有多功能/stm32f10x-HAL_led/rt-thread/src/ipc.c:642-863 | in no run at all is a waiter more urgent than the owner if and only if the mutex is in priority order or it has no three threads of which two differ in priority |
| MutexSpec.AfterHandOver | 外置式倒计时器/有多功能/stm32f10x-HAL_led/rt-thread/src/ipc.c:707-720 | through any blocks and time-outs after a hand-over that is so if and only if it holds for those that were waiting then and still are |
| MutexSpec.FifoInversion | 外置式倒计时器/有多功能/stm32f10x-HAL_led/rt-thread/src/ipc.c:823-840 | a reachable state in FIFO order in which a waiter is more urgent than the owner |
| MutexSpec.HoldCounts | 外置式倒计时器/有多功能/stm32f10x-HAL_led/rt-thread/src/ipc.c:810-813 | in those runs the owner keeps the mutex until it has matched all its takes if and only if these are at most 256 |
| MutexSpec.ExclusionExact | 外置式倒计时器/有多功能/stm32f10x-HAL_led/rt-thread/src/ipc.c:642-863 | in the runs in which nobody waits with the scheduler locked, the owner excludes all others until then if and only if its takes are at most 256 |
| MutexSpec.TakenTooOftenReached | 外置式倒计时器/有多功能/stm32f10x-HAL_led/rt-thread/src/ipc.c:667-671 | 257 takes in a row can be reached |
| MutexSpec.HoldOverflows | 外置式倒计时器/有多功能/stm32f10x-HAL_led/rt-thread/src/ipc.c:810-852 | one release then gives the mutex away with 256 takes unmatched, and another thread gets in |
| MutexRuns.TakesBalance | 外置式倒计时器/有多功能/stm32f10x-HAL_led/rt-thread/src/ipc.c:642-863 | in every run the takes a thread has to match are its takes answered RT_EOK less its releases answered RT_EOK; with 1 to 255 of them it is the owner |
| MutexRuns.TakeAnswers | 外置式倒计时器/有多功能/stm32f10x-HAL_led/rt-thread/src/ipc.c:660-735 | rt_mutex_take succeeds at once exactly if nobody else owns the mutex, which the caller then owns; it is -RT_ETIMEOUT, with nothing changed, exactly if another thread does and it may not wait; else the thread waits at its place, with its timer running exactly if it has a time |
| MutexRuns.ReleaseAnswers | 外置式倒计时器/有多功能/stm32f10x-HAL_led/rt-thread/src/ipc.c:795-853 | -RT_ERROR, with nothing changed, exactly if the caller is not the owner; else one take less is to match, and the mutex goes to the first waiter, or to nobody, exactly if hold was 1 |
| MutexRuns.ReturnAnswers | 外置式倒计时器/有多功能/stm32f10x-HAL_led/rt-thread/src/ipc.c:741-764 | a take that waited returns RT_EOK exactly if the thread owns the mutex, else -RT_ETIMEOUT |
| MutexRuns.WaitsAsAsked | 外置式倒计时器/有多功能/stm32f10x-HAL_led/rt-thread/src/ipc.c:720-735 | while it waits its timer can fire exactly if it was given a time |
| Mutex.MutexObject.Take | 外置式倒计时器/有多功能/stm32f10x-HAL_led/rt-thread/src/ipc.c:642-765 | the step of MutexSpec on value, owner, hold and original_priority, and what is returned under a locked scheduler |
| Mutex.MutexObject.Release | 外置式倒计时器/有多功能/stm32f10x-HAL_led/rt-thread/src/ipc.c:776-863 | the step of MutexSpec with an eight-bit hold |
| Mutex.MutexObject.TakeReturn | 外置式倒计时器/有多功能/stm32f10x-HAL_led/rt-thread/src/ipc.c:741-764 | the end of a take that stopped running: RT_EOK exactly if the thread now owns the mutex |
| EventSpec.RunInv | 外置式倒计时器/有多功能/stm32f10x-HAL_led/rt-thread/src/ipc.c:1002-1205 | between the steps of every run, with deletions at any moment, no thread waits for bits that are set |
| EventSpec.StepInv | 外置式倒计时器/有多功能/stm32f10x-HAL_led/rt-thread/src/ipc.c:1002-1205 | every call keeps that |
| EventSpec.WalkServes | 外置式倒计时器/有多功能/stm32f10x-HAL_led/rt-thread/src/ipc.c:1024-1071 | whoever stays on the list could not be served, although bits are cleared during the walk |
| EventSpec.WalkLists | 外置式倒计时器/有多功能/stm32f10x-HAL_led/rt-thread/src/ipc.c:1024-1071 | the threads that stay keep their order and their requests, the others have been woken |
| EventSpec.SendConserves | 外置式倒计时器/有多功能/stm32f10x-HAL_led/rt-thread/src/ipc.c:1021-1071 | the bits left and those given to receivers with CLEAR are the bits set before and those sent |
| EventSpec.EachIsServed | 外置式倒计时器/有多功能/stm32f10x-HAL_led/rt-thread/src/ipc.c:1030-1069 | every waiter is woken exactly if its condition holds for the bits those in front of it have left, and gets what rt_event_recv would have given it |
| EventSpec.LockedExact | 外置式倒计时器/有多功能/stm32f10x-HAL_led/rt-thread/src/ipc.c:1150-1205 | rt_event_recv returns RT_EOK although the condition does not hold if and only if it has to wait while the scheduler is locked, and reports the bits asked for |
| EventSpec.ResumedWithoutBits | 外置式倒计时器/有多功能/stm32f10x-HAL_led/rt-thread/src/ipc.c:1185-1204 | so does a waiter that another thread resumes |
| EventRuns.BitAfter | 外置式倒计时器/有多功能/stm32f10x-HAL_led/rt-thread/src/ipc.c:1002-1205 | after every step a bit is set exactly if it was set or is sent and no receiver with CLEAR is given it; at most one is, and only a bit set or sent |
| EventRuns.BitsFlow | 外置式倒计时器/有多功能/stm32f10x-HAL_led/rt-thread/src/ipc.c:1002-1205 | over every run a bit is given to receivers with CLEAR no more often than it was set or sent, and is gone only if it has been given to one |
| EventRuns.SentInBetween | 外置式倒计时器/有多功能/stm32f10x-HAL_led/rt-thread/src/ipc.c:1002-1205 | a bit given to two receivers with CLEAR has been sent in between |
| EventRuns.RecvAnswers | 外置式倒计时器/有多功能/stm32f10x-HAL_led/rt-thread/src/ipc.c:1111-1160 | rt_event_recv returns at once exactly if its condition holds, with the bits asked for that are set, and leaves the bits without those asked for if it clears and as they are if not; every other answer, exactly when it comes, leaves the bits |
| EventRuns.RecvReports | 外置式倒计时器/有多功能/stm32f10x-HAL_led/rt-thread/src/ipc.c:1024-1204 | a call that waited and is woken by a send returns bits it asked for that were set or sent and meet its condition, whatever happens until it runs |
| EventRuns.WaitsForIt | 外置式倒计时器/有多功能/stm32f10x-HAL_led/rt-thread/src/ipc.c:1162-1182 | while it waits it waits for what it asked for, and its timer can fire exactly if it has a time |
| EventRuns.SendAnswers | 外置式倒计时器/有多功能/stm32f10x-HAL_led/rt-thread/src/ipc.c:1012-1081 | rt_event_send fails, with nothing changed, exactly if no bit is sent; threads leave the list only by being woken |
| EventRuns.TimedOutReturns | 外置式倒计时器/有多功能/stm32f10x-HAL_led/rt-thread/src/ipc.c:1185-1189 | a call whose timer has fired returns -RT_ETIMEOUT whatever happens in between |
| Event.EventObject.Send | 外置式倒计时器/有多功能/stm32f10x-HAL_led/rt-thread/src/ipc.c:1002-1081 | the loop over the list on 32-bit sets makes that walk |
| Event.EventObject.Check | 外置式倒计时器/有多功能/stm32f10x-HAL_led/rt-thread/src/ipc.c:1033-1052 | the deferred test agrees with the immediate one and reports the same bits |
| Event.EventObject.Recv | 外置式倒计时器/有多功能/stm32f10x-HAL_led/rt-thread/src/ipc.c:1097-1205 | the immediate path, the time-out, or joining the waiters, with the scheduler locked or not; EventRuns.RecvAnswers says what it answers and leaves |
| Event.EventObject.RecvReturn | 外置式倒计时器/有多功能/stm32f10x-HAL_led/rt-thread/src/ipc.c:1185-1204 | the end of a call that had to wait |

## Left out

- AlignedHeap.RtMallocAlign: requires that size plus alignment do not wrap; AlignServes says exactly what happens otherwise.
- HeapSpec.RunInv: pools whose payload is 0, 4 or 8 bytes are excluded, since `mem_size - 12` wraps there and the search of rt_malloc walks beyond the heap.
- MemHeapSpec.RunInv: pools of less than 52 bytes are excluded (no room for one block and the tail), and so are sizes that make the test for growing in place wrap where that test decides.
- MemHeap.MemHeapObject.Realloc: item headers are kept apart from the payload words of the pool; that no header lies inside a live payload is MemHeapSpec.LivePayloads.
- TimerSpec.RunInv: periodic timers with 0 ticks and timeout functions that touch the timer list themselves are excluded, as is a second start of a timer while one is under way.
- Timer.TimerList.Start: one step; TimerSpec.StartExact has its two sections on the ideal clock.
- Timer.TimerList.Stop: one step, although the code clears the ACTIVATED flag after it has enabled interrupts again (`timer.c`, lines 436-439).
- KernelRuns.RunInv: a thread that waits on a semaphore is not suspended or resumed by another thread; with interrupts enabled a thread with an armed timer is not deleted, and a ready thread's priority is not changed while it is being deleted; the idle thread stays ready; nobody blocks with the scheduler locked or locks it between blocking and rt_schedule. KernelCalls and KernelRuns.TakeUnderLock say what happens otherwise.
- MailboxSpec.RunInv: a waiting thread is not suspended by another one, nobody waits with the scheduler locked (MailboxSpec.LockedExact), and a thread is not deleted while it is needed (MailboxSpec.DeleteExact).
- MessageQueueSpec.RunInv: the same rules (MessageQueueSpec.LockedExact, MessageQueueSpec.DeleteExact).
- EventSpec.RunInv: a waiting thread is not suspended or resumed by another one (EventSpec.ResumedWithoutBits), and nobody waits with the scheduler locked (EventSpec.LockedExact).
- KernelCalls.DeleteExact: one call on a thread at a time, as in KernelCalls.ResumeExact and KernelCalls.SuspendExact; KernelCalls.ResumeTwice shows what a second one does.
- TimeSlices.RoundRobin: slices of at least one tick, and no timer fires among those ticks.
- MutexSpec.RunInv: one mutex, no change of priorities from outside, no deletion of its threads, no waiter suspended or resumed by another thread, and nobody waits with the scheduler locked (MutexSpec.TakeUnderLock); several mutexes held at once are not modelled.
- The order of steps inside one section with interrupts disabled: in Kernel.Scheduler.PrepareWait the thread's timer is started before the thread joins the list, not after.
- Context switches, stacks, hooks, debug output and assertion handlers: a schedule only chooses the next thread.
- The semaphore that protects the allocators: an allocator call is one step.
- Signals, and with them the retry on -RT_EINTR in rt_mutex_take; modules; soft timers; skip lists of more than one level; the memheap-as-heap wrappers; memtrace: not enabled.
- Detach, delete and reset of semaphores, mutexes, events, mailboxes and message queues with waiting threads; rt_thread_detach of static threads; rt_ipc_list_resume_all.
- rt_calloc, rt_memory_info, memory pools (`mempool.c`), rt_vsnprintf, object names and lookup, devices.
- The applications, drivers, libraries and tools of the repository: pin and UART handling and build scripts.
