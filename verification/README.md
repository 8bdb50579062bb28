# A verified model of the kernel services and the JSON code

This project models five parts of the repository in Dafny and proves what they promise.

- **The small-memory heap** (`mem.c`). `HeapChain` describes the block list as a sequence, `HeapRegion` the
  header bytes that encode it, and `SmallHeap.Heap` runs malloc, free, realloc and calloc on the byte region,
  write by write. `HeapLaws` states the laws over calls and runs, `HeapRooms` when blocks keep the minimal size, and
  `HeapMemory` what the bytes of live blocks hold over runs of calls and client writes. The configuration is the
  file's own: 32-bit, `RT_ALIGN_SIZE` 4, `RT_MEM_STATS` on, no memory trace.
- **Kernel IPC** (`ipc.c`). Each interrupts-disabled region is one atomic step, so a blocking call is a series of
  steps with suspended, resumed and running states between them. For each object a `...Model` module gives
  the steps on values and the invariant, a `...Runs` module the theorems over all runs, and a class
  (`Semaphore`, `Mutex`, `Event`, `Mailbox`, `MessageQueue`) does the field and pointer updates and is proved
  equal to the steps. `WaitQueue`, `WaitTime` and `Waiters` hold what the objects share. The waiting threads of
  every class are on the circular lists of `rtservice.h`: `IntrusiveList` has the pointer writes, `ThreadList` their
  effect on the threads, and `WaitList` and `WaitSides` the one or two lists of an object. `QueueOrder` has the
  order in which the message queue delivers, the `...Answers` modules what each call answers in every state, as an
  if-and-only-if on that state and with the state it leaves, and `Clients` short programs that put calls of the
  classes in sequence.
- **The block pool** (`mempool.c`), in the same style: `PoolModel`, `PoolRuns` and `MemPool`.
- **The JSON code** (`cJSON.c`). `JsonTree` describes printing and parsing of trees, `JsonString` and
  `JsonNumber` of strings and numbers, and `JsonUtf8` has the bit operations on escapes. `JsonPlain` and `JsonBuffer`
  are the two printers writing memory, `JsonNodes` and `JsonParser` the parser building linked nodes, `JsonMinify` the
  in-place minifier, `PowerOfTwo` the buffer sizes, `JsonRoundTrip` the main theorem, and `JsonCycle` the same for
  printers, minifier and parser run on memory. `JsonGrammar` has the grammar that the parser is proved to accept
  exactly, and `JsonLexed` says which texts the parser on memory is for. Formats follow RFC 8259 and RFC 3629.
- **Formatting, memory and aligned allocation** (`kservice.c`). `Format` is the unbounded output,
  `FormatDirectives` what each directive of a format prints, and `Printf` the bounded code; `MemoryOps` has memset,
  memcpy and memmove; `AlignedAlloc` and `WordMask` build aligned allocation on the heap model.

Threads are numbers. `rt_thread_resume` takes a thread off its list and stops its timer; `rt_thread_timeout` sets the
error code and takes it off its list; priorities change only where the mutex changes them. "Woken" threads
in the models are those that were resumed and have not run yet; they are bookkeeping, not a field of the source.

Where the code and its comments or common expectation differ, the model follows the code:

- The scan of `rt_malloc` refuses an exact fit in the last block (`HeapLaws.RefusedExactly`), and never ends when
  the heap is smaller than the minimal block (`HeapLaws.ScanRunsForeverExactly`).
- The comment in `rt_malloc` wants every data block to be at least `MIN_SIZE_ALIGNED` long. That holds after a call if
  and only if the call is not an `rt_realloc` in place to a rounded size below it (`HeapRooms.RoomyExactly` and, over
  runs, `HeapRooms.RunRoomy`, with an input in `HeapRooms.CutToFour`).
- Rounding a size up wraps for the three greatest 32-bit sizes: `rt_malloc` then hands out a minimal block, and
  `rt_realloc` frees. The block holds the size asked for if and only if rounding does not wrap
  (`HeapLaws.MallocHoldsExactly`, with an input in `HeapLaws.MallocTooSmall`).
- The header comment of `rt_calloc` promises zeroed space for count objects of size bytes. The code multiplies with
  32-bit wrap-around and allocates and clears the wrapped size, so the promise holds if and only if the product and its
  rounding fit 32 bits (`HeapLaws.CallocHoldsExactly`, with an input in `HeapLaws.CallocTooSmall`).
- `rt_mp_alloc` inserts waiters at the front of the list, so they are served last in, first out, in every run
  (`PoolRuns.LastSleeperFirst`).
- `rt_mp_init` writes its end mark inside the region if and only if a whole block fits (`PoolModel.EndMarkInside`, with
  an input in `PoolModel.EndMarkInFront`), and computes too small a block size if and only if the size asked for is
  above 2^32 - 8 (`PoolModel.StrideHolds`).
- `rt_malloc_align` aligns every block if and only if the alignment, rounded to four, is a power of two
  (`AlignedAlloc.AlignedExactly`), and gives address 0 for an alignment of 0 (`AlignedAlloc.ZeroAlignment`).
- In `print_number` a precision of 0 suppresses all digits, not only those of 0, so a number can be read back if and
  only if the precision is not 0 or the number is (`Format.ReadsBackExactly`); the digits left out still count for the
  width (`Format.NumberLength`).
- `%o` prints hexadecimal digits, which are the octal ones if and only if the number is below eight
  (`FormatDirectives.OctalExactly`). A precision of 0 does not cut a string (`FormatDirectives.StringPrinted`).
- An empty object is printed with one tab less than its depth, unless the depth is 0 (`JsonRoundTrip.EmptyObjectIndent`).
- `cJSON_Minify` stays in its text if and only if every literal and multi-line comment is closed
  (`JsonMinify.ClosedExactly`, with inputs in `JsonMinify.OpenTexts`).

## Model

| member | source | states |
|---|---|---|
| HeapChain.AllocateSound | ATK-ALL-Proj-ONENET/rt-thread/src/mem.c:318-360 | Serving a request from a free block with room, with or without a split, leaves blocks that tile the region up to `heap_end` and no two free neighbours |
| HeapChain.ReleaseSound | ATK-ALL-Proj-ONENET/rt-thread/src/mem.c:590-610 | Freeing any used block and plugging the holes around it keeps the tiling and leaves no two free neighbours |
| HeapChain.ShrinkSound | ATK-ALL-Proj-ONENET/rt-thread/src/mem.c:471-503 | A shrinking realloc keeps the tiling and leaves no two free neighbours |
| HeapChain.PlugSound | ATK-ALL-Proj-ONENET/rt-thread/src/mem.c:156-194 | From a chain whose only free neighbours touch the given block, `plug_holes` restores "no two free neighbours" |
| HeapChain.AllocateTotal | ATK-ALL-Proj-ONENET/rt-thread/src/mem.c:329-369 | The extent of the used blocks grows by exactly the extent of the block handed out |
| HeapChain.ReleaseTotal | ATK-ALL-Proj-ONENET/rt-thread/src/mem.c:605-613 | The extent of the used blocks shrinks by exactly the extent of the block given back |
| HeapChain.ShrinkTotal | ATK-ALL-Proj-ONENET/rt-thread/src/mem.c:471-503 | The extent of the used blocks shrinks by exactly what a shrinking realloc cuts off |
| HeapRegion.JoinEncodes | ATK-ALL-Proj-ONENET/rt-thread/src/mem.c:163-192 | The two pointer writes that unlink a block turn the header bytes of the old chain into those of the joined chain and change no live payload byte |
| HeapRegion.SplitEncodes | ATK-ALL-Proj-ONENET/rt-thread/src/mem.c:332-346 | The header writes of a split encode the split chain and change no live payload byte |
| HeapRegion.RelocateKeeps | ATK-ALL-Proj-ONENET/rt-thread/src/mem.c:505-516 | Allocate, copy, free: every other live payload is unchanged and the new payload starts with the copied bytes of the old one |
| HeapRegion.StoreEncodes | ATK-ALL-Proj-ONENET/rt-thread/src/mem.c:96-114 | A client that writes inside a live payload cannot damage a block header |
| HeapRegion.WriteEncodes | ATK-ALL-Proj-ONENET/rt-thread/src/mem.c:96-114 | Nor can `rt_memcpy` or `rt_memset` into a live payload |
| SmallHeap.Heap.constructor | ATK-ALL-Proj-ONENET/rt-thread/src/mem.c:204-254 | An aligned region becomes one free block and the end stub, `lfree` is the block, nothing is used |
| SmallHeap.Heap.PlugHoles | ATK-ALL-Proj-ONENET/rt-thread/src/mem.c:156-194 | The byte-level joins equal the chain-level plugging, keep `lfree` right and change no live payload |
| SmallHeap.Heap.Scan | ATK-ALL-Proj-ONENET/rt-thread/src/mem.c:305-311 | The scan from `lfree` ends, and finds exactly the block that a first-fit scan from offset 0 would find, or nothing when no block fits |
| SmallHeap.Heap.Take | ATK-ALL-Proj-ONENET/rt-thread/src/mem.c:312-387 | Splitting or taking the block found updates chain, `lfree`, `used_mem` and `max_mem` as the chain law says, and changes no live payload |
| SmallHeap.Heap.Malloc | ATK-ALL-Proj-ONENET/rt-thread/src/mem.c:272-410 | NULL exactly when the size is 0, too large, or no block fits, and then nothing changes; otherwise the first fit is taken, the result points behind its header, `max_mem` is the new maximum, and no live payload byte changes; the block has room for the size exactly when rounding the size up does not wrap; every case is a step of the runs of `HeapMemory` |
| SmallHeap.Heap.Free | ATK-ALL-Proj-ONENET/rt-thread/src/mem.c:552-615 | The block of the pointer is released and holes are plugged, all other payloads are unchanged; NULL and foreign pointers change nothing; a step of the runs of `HeapMemory` |
| SmallHeap.Heap.Realloc | ATK-ALL-Proj-ONENET/rt-thread/src/mem.c:421-516 | Every branch: as malloc for NULL, as free for a size that rounds to 0; for a live pointer the pointer is kept, however full the heap is, if the rounded size is the room of the block or leaves more than a header and MIN_SIZE over, and otherwise the result is NULL with nothing changed or another address; a moved block is moved with the first min(old, new) bytes; when a move fails the old block stays live and unchanged; `max_mem` counts the moment when both blocks are live; at most three steps of the runs of `HeapMemory` |
| SmallHeap.Heap.Relocate | ATK-ALL-Proj-ONENET/rt-thread/src/mem.c:504-516 | A moving realloc: the copy arrives, other payloads stay, and chain, `used_mem` and `max_mem` are those of a malloc, a write into the new block, and a free |
| SmallHeap.Heap.ShrinkInPlace | ATK-ALL-Proj-ONENET/rt-thread/src/mem.c:471-503 | The tail of the block becomes a free block merged with a free successor, `lfree` and `used_mem` follow |
| SmallHeap.Heap.Calloc | ATK-ALL-Proj-ONENET/rt-thread/src/mem.c:531-545 | As malloc for the wrapped product, and the payload handed out is zero; the block has room for count objects exactly when the product and its rounding fit 32 bits |
| HeapLaws.LiveBlocksDisjoint | ATK-ALL-Proj-ONENET/rt-thread/src/mem.c:272-410 | Payloads of different live blocks share no byte, start on a word boundary and lie inside the region |
| HeapLaws.NothingLiveIsOneBlock | ATK-ALL-Proj-ONENET/rt-thread/src/mem.c:156-194 | When nothing is live the chain is one free block again |
| HeapLaws.FreeUndoesMalloc | ATK-ALL-Proj-ONENET/rt-thread/src/mem.c:329-369 | Freeing a block straight after allocating it restores the chain, hence `lfree` and `used_mem` |
| HeapLaws.RefusedExactly | ATK-ALL-Proj-ONENET/rt-thread/src/mem.c:305-311 | The scan finds nothing if and only if every free block with room is an exact fit in last place (the strict bound of line 306) |
| HeapLaws.WholeHeapRefused | ATK-ALL-Proj-ONENET/rt-thread/src/mem.c:305-311 | A fresh heap refuses a request for all of its `mem_size_aligned` bytes although its block has room |
| HeapLaws.ScanRunsForeverExactly | ATK-ALL-Proj-ONENET/rt-thread/src/mem.c:302-311 | With the loop bound in 32-bit arithmetic, the scan never ends if and only if `mem_size_aligned` is below `MIN_SIZE_ALIGNED` |
| HeapLaws.TinyHeapScansForever | ATK-ALL-Proj-ONENET/rt-thread/src/mem.c:302-311 | A fresh heap of four bytes never answers a request for one |
| HeapLaws.CallocHoldsExactly | ATK-ALL-Proj-ONENET/rt-thread/src/mem.c:518-545 | The block that `rt_calloc` takes has room for count objects of size bytes if and only if their product and its rounding fit 32 bits; what is cleared lies inside the block if and only if rounding does not wrap |
| HeapLaws.CallocTooSmall | ATK-ALL-Proj-ONENET/rt-thread/src/mem.c:531-545 | An input where it has not: 64 KiB are handed out for 0x10001 objects of 64 KiB |
| HeapLaws.MallocHoldsExactly | ATK-ALL-Proj-ONENET/rt-thread/src/mem.c:288-300 | The block that `rt_malloc` takes has room for the size asked for if and only if rounding it up to four does not wrap 32 bits |
| HeapLaws.MallocTooSmall | ATK-ALL-Proj-ONENET/rt-thread/src/mem.c:288-300 | An input where it has not: 12 bytes are handed out for 0xFFFFFFFD |
| HeapLaws.MallocIsNext | ATK-ALL-Proj-ONENET/rt-thread/src/mem.c:318-378 | What malloc does to chain, `used_mem` and `max_mem` is a step of the runs |
| HeapLaws.FreeIsNext | ATK-ALL-Proj-ONENET/rt-thread/src/mem.c:590-613 | The same for free |
| HeapLaws.ShrinkIsNext | ATK-ALL-Proj-ONENET/rt-thread/src/mem.c:471-503 | The same for a realloc in place |
| HeapLaws.RunGood | ATK-ALL-Proj-ONENET/rt-thread/src/mem.c:272-615 | Over every run of calls the chain is sound and aligned, `used_mem` is the extent of the live blocks, and `max_mem` is the maximum of `used_mem` over the run |
| HeapRooms.ShrinkRoomy | ATK-ALL-Proj-ONENET/rt-thread/src/mem.c:471-499 | From a chain whose payloads are all minimal, cutting a block leaves all of them minimal if and only if the rounded new size is |
| HeapRooms.RoomyExactly | ATK-ALL-Proj-ONENET/rt-thread/src/mem.c:298-300 | One call keeps every payload at MIN_SIZE_ALIGNED or more if and only if it is not a realloc in place to a rounded size below it |
| HeapRooms.RunRoomy | ATK-ALL-Proj-ONENET/rt-thread/src/mem.c:298-300 | Over every run, all payloads have stayed minimal if and only if the heap itself is no smaller and no call so far has cut a block below the minimum |
| HeapRooms.CutToFour | ATK-ALL-Proj-ONENET/rt-thread/src/mem.c:471-503 | An input: a realloc of 100 bytes to one byte leaves a payload of four |
| HeapMemory.RunGood | ATK-ALL-Proj-ONENET/rt-thread/src/mem.c:272-615 | Over every run of calls and of client writes into live blocks, the header bytes encode a sound block list and the books are right |
| HeapMemory.LastWriteHolds | ATK-ALL-Proj-ONENET/rt-thread/src/mem.c:272-615 | Over every such run, a byte that has been live since a client wrote it, and that nobody has written again, holds what the client wrote |
| SmallHeap.Heap.Store | ATK-ALL-Proj-ONENET/rt-thread/src/mem.c:96-114 | A client write into a live payload is a step of those runs |
| SmallHeap.Heap.CopyPayload | ATK-ALL-Proj-ONENET/rt-thread/src/mem.c:511 | So is the copy of a moving realloc |
| HeapAnswers.SameLive | ATK-ALL-Proj-ONENET/rt-thread/src/mem.c:96-194 | The live blocks determine the block list: two sound lists with the same live blocks are equal |
| HeapAnswers.AllocateExactly | ATK-ALL-Proj-ONENET/rt-thread/src/mem.c:318-360 | Serving a request adds exactly one live block, at the front of the free one: of the size asked for if 24 bytes more are there, the whole block otherwise |
| HeapAnswers.ReleaseExactly | ATK-ALL-Proj-ONENET/rt-thread/src/mem.c:590-610 | Freeing takes away exactly the block freed |
| HeapAnswers.ShrinkExactly | ATK-ALL-Proj-ONENET/rt-thread/src/mem.c:471-503 | A realloc in place changes nothing but where the block ends |
| HeapAnswers.RequestExactly | ATK-ALL-Proj-ONENET/rt-thread/src/mem.c:288-300 | A request comes to 12 bytes or, above 12, to the next multiple of four |
| HeapAnswers.FindsExactly | ATK-ALL-Proj-ONENET/rt-thread/src/mem.c:302-316 | The block taken is the lowest free one that is large enough and no exact fit in last place, and none is taken if and only if there is none |
| HeapAnswers.InPlaceExactly | ATK-ALL-Proj-ONENET/rt-thread/src/mem.c:461-471 | A realloc leaves the block where it is if and only if the rounded size is its size or leaves more than 24 bytes over |
| WaitQueue.EnqueueOrder | ATK-ALL-Proj-ONENET/rt-thread/src/ipc.c:85-128 | Suspending inserts exactly the thread, once, and a priority list stays sorted |
| WaitQueue.EnqueueExactly | ATK-ALL-Proj-ONENET/rt-thread/src/ipc.c:85-128 | A FIFO list takes the thread at its end; a priority list behind all threads at least as urgent and before all less urgent ones |
| WaitQueue.WithoutSorted | ATK-ALL-Proj-ONENET/rt-thread/src/thread.c:859-881 | Taking a thread out of a sorted list leaves it sorted |
| IntrusiveList.InsertAfter | ATK-ALL-Proj-ONENET/rt-thread/include/rtservice.h:56-63 | The four pointer writes keep every next/prev link of the circular list and put the node behind l |
| IntrusiveList.InsertBefore | ATK-ALL-Proj-ONENET/rt-thread/include/rtservice.h:71-78 | The same in front of l; in front of the list object means at the end |
| IntrusiveList.Remove | ATK-ALL-Proj-ONENET/rt-thread/include/rtservice.h:84-90 | The ring closes around the node, which becomes a ring of its own |
| IntrusiveList.IsEmpty | ATK-ALL-Proj-ONENET/rt-thread/include/rtservice.h:96-99 | True exactly when the ring is the list object alone |
| IntrusiveList.Len | ATK-ALL-Proj-ONENET/rt-thread/include/rtservice.h:105-116 | The walk ends and counts the nodes behind the list object |
| ThreadList.Suspend | ATK-ALL-Proj-ONENET/rt-thread/src/ipc.c:85-128 | On the real circular list, `rt_ipc_list_suspend` does to the threads what the queue operation `WaitQueue.Enqueue` says |
| ThreadList.Resume | ATK-ALL-Proj-ONENET/rt-thread/src/ipc.c:142-153 | The first node leaves the list and the rest keeps its order |
| ThreadList.Leave | ATK-ALL-Proj-ONENET/rt-thread/src/thread.c:816-850 | Removing a node from anywhere equals removing its thread from the queue |
| ThreadList.GetHighestPriority | ATK-ALL-Proj-ONENET/rt-thread/src/ipc.c:203-218 | The walk over the real list equals the maximum over the queue |
| WaitList.WaitList.Suspend | ATK-ALL-Proj-ONENET/rt-thread/src/ipc.c:85-128 | The list of an IPC object with the list nodes of its threads: suspending keeps it a ring and enqueues the thread |
| WaitList.WaitList.SuspendFirst | ATK-ALL-Proj-ONENET/rt-thread/src/mempool.c:338 | Inserting behind the list object puts the thread first |
| WaitList.WaitList.Resume | ATK-ALL-Proj-ONENET/rt-thread/src/ipc.c:142-153 | The first thread leaves, the rest keeps its order |
| WaitList.WaitList.Pass | ATK-ALL-Proj-ONENET/rt-thread/src/ipc.c:1184-1202 | A walk moves its cursor on before it takes the thread it stood at off the list; threads passed and threads ahead are as before |
| WaitList.WaitList.Unlink | ATK-ALL-Proj-ONENET/rt-thread/src/thread.c:816-881 | Removing a node takes its thread off whatever list it is on |
| WaitList.WaitList.ResumeAll | ATK-ALL-Proj-ONENET/rt-thread/src/ipc.c:165-192 | Every thread of the list gets the error code and leaves, one after the other |
| WaitSides.WaitSides.Timeout | ATK-ALL-Proj-ONENET/rt-thread/src/thread.c:859-881 | A mailbox or queue with two lists: the removal finds the one list the thread is on and leaves the other alone |
| WaitSides.WaitSides.ResumeReceiver | ATK-ALL-Proj-ONENET/rt-thread/src/ipc.c:1665-1675 | One receiver is resumed if there is one; the sender list stays |
| SemaphoreModel.RunBalanced | ATK-ALL-Proj-ONENET/rt-thread/src/ipc.c:357-514 | Over every run, units in the semaphore, granted to woken waiters, and taken add up to the supply plus the releases; a waiter exists only at value 0 |
| SemaphoreModel.NoOvertaking | ATK-ALL-Proj-ONENET/rt-thread/src/ipc.c:376-396 | While somebody waits no new take succeeds, and a release goes to the first waiter, who then returns RT_EOK |
| SemaphoreModel.StepBalances | ATK-ALL-Proj-ONENET/rt-thread/src/ipc.c:357-558 | Every step, with either flag, timeouts and reset, keeps the balance |
| SemaphoreModel.TakeExactly | ATK-ALL-Proj-ONENET/rt-thread/src/ipc.c:376-442 | A take returns RT_EOK at once if and only if the value is above 0, and then only the value drops, by one; -RT_ETIMEOUT if and only if value and time are 0; it blocks otherwise |
| SemaphoreModel.ReleaseExactly | ATK-ALL-Proj-ONENET/rt-thread/src/ipc.c:483-514 | A release wakes the first waiter, or with none counts up, unless the value is 65535: then, and only then, it fails |
| SemaphoreModel.WokenReturns | ATK-ALL-Proj-ONENET/rt-thread/src/ipc.c:425-442 | A woken take returns RT_EOK after a release, -RT_ETIMEOUT after its timer, -RT_ERROR after a reset |
| SemaphoreModel.UnitsServe | ATK-ALL-Proj-ONENET/rt-thread/src/ipc.c:376-382 | In a run that starts with n takes and at least n units, all of them return RT_EOK and the value drops by n |
| Semaphore.Semaphore.Take | ATK-ALL-Proj-ONENET/rt-thread/src/ipc.c:357-442 | The field updates equal the take step of the model |
| Semaphore.Semaphore.Release | ATK-ALL-Proj-ONENET/rt-thread/src/ipc.c:466-514 | The field updates equal the release step, including the overflow exit |
| Semaphore.Semaphore.Reset | ATK-ALL-Proj-ONENET/rt-thread/src/ipc.c:526-558 | Every waiter is woken with an error and the 16-bit value is set |
| MutexAnswers.TakeExactly | ATK-ALL-Proj-ONENET/rt-thread/src/ipc.c:717-780 | A take succeeds at once if and only if the mutex is free or the own one with less than 255 holds, fails if and only if at 255, and from another owner times out or blocks by its time; with the whole new state |
| MutexAnswers.BlocksExactly | ATK-ALL-Proj-ONENET/rt-thread/src/ipc.c:782-821 | A blocked take raises the owner to the priority of the caller if that is more urgent, and no further, and changes nothing else but the list and the caller |
| MutexAnswers.ReleaseExactly | ATK-ALL-Proj-ONENET/rt-thread/src/ipc.c:875-977 | A release fails if and only if the caller is not the owner; otherwise it takes one hold off, and the last one without waiters frees the mutex and gives the caller its own priority |
| MutexAnswers.HandsOverExactly | ATK-ALL-Proj-ONENET/rt-thread/src/ipc.c:881-946 | The last release with waiters makes the first one the owner with one hold, at the priority of the most urgent waiter, and all others run at their own |
| MutexModel.TakeKeeps | ATK-ALL-Proj-ONENET/rt-thread/src/ipc.c:697-842 | A take keeps owner, value and hold consistent, boosts the owner to at least the waiter, and keeps the queue in order |
| MutexModel.ReleaseKeeps | ATK-ALL-Proj-ONENET/rt-thread/src/ipc.c:853-977 | A release, with hand-off under FIFO or PRIO, keeps mutual exclusion, inheritance and the restorable base priority |
| MutexModel.ExpireKeeps | ATK-ALL-Proj-ONENET/rt-thread/src/thread.c:859-881 | A waiter timeout keeps all of it |
| MutexModel.HandOffShape | ATK-ALL-Proj-ONENET/rt-thread/src/ipc.c:908-946 | The first waiter becomes the owner with hold 1, saves its own priority, and is at least as urgent as every thread left waiting |
| MutexRuns.RunSafe | ATK-ALL-Proj-ONENET/rt-thread/src/ipc.c:697-977 | In every state of every run (one mutex, either flag) the whole invariant holds and the recursion count is the takes minus releases of the one holder |
| MutexRuns.OneHolder | ATK-ALL-Proj-ONENET/rt-thread/src/ipc.c:724-762 | At most one thread holds the mutex, nobody else was granted it meanwhile, and value is 0 |
| MutexRuns.OwnerIsUrgent | ATK-ALL-Proj-ONENET/rt-thread/src/ipc.c:782-794 | No waiting thread is more urgent than the owner |
| MutexRuns.ReleaseRestores | ATK-ALL-Proj-ONENET/rt-thread/src/ipc.c:881-906 | A full release leaves the caller its own priority; a release by a thread that is not the owner changes no mutex field |
| MutexRuns.OverflowExits | ATK-ALL-Proj-ONENET/rt-thread/src/ipc.c:724-762 | The overflow exits of release and of a first take are unreachable; a recursive take overflows exactly at 255 holds |
| Mutex.Mutex.Take | ATK-ALL-Proj-ONENET/rt-thread/src/ipc.c:697-842 | The field updates equal the take step of the model |
| Mutex.Mutex.Release | ATK-ALL-Proj-ONENET/rt-thread/src/ipc.c:853-977 | The field updates equal the release step of the model |
| EventAnswers.RecvExactly | ATK-ALL-Proj-ONENET/rt-thread/src/ipc.c:1261-1330 | A receive of a non-empty set answers at once if and only if in AND mode all, in OR mode any of the bits are set, with the bits set, which CLEAR takes; otherwise it times out or blocks by its timeout |
| EventAnswers.TurnExactly | ATK-ALL-Proj-ONENET/rt-thread/src/ipc.c:1156-1196 | In the walk of a send each waiter is resumed if and only if, at its turn, in AND mode all, in OR mode any of its bits are set, and gets those |
| EventAnswers.SendExactly | ATK-ALL-Proj-ONENET/rt-thread/src/ipc.c:1125-1214 | After a send who still waits lacks all (OR) or one (AND) of its bits, and who was resumed has some of its bits that were set, in AND mode all |
| EventAnswers.RunAsleep | ATK-ALL-Proj-ONENET/rt-thread/src/ipc.c:1125-1389 | In every state of every run a suspended thread in AND mode has `flags & want != want`, and one in OR mode `flags & want == 0` |
| EventModel.PathsAgree | ATK-ALL-Proj-ONENET/rt-thread/src/ipc.c:1160-1196 | The path through the suspend list delivers and clears the same bits as the immediate path of `rt_event_recv` |
| EventModel.WakeComplete | ATK-ALL-Proj-ONENET/rt-thread/src/ipc.c:1149-1204 | Although the flags shrink during the wake-up walk, no thread that stays suspended has its condition met afterwards |
| EventModel.WakeDelivers | ATK-ALL-Proj-ONENET/rt-thread/src/ipc.c:1160-1178 | A resumed thread gets bits that were set and that it asked for, all of them in AND mode |
| EventModel.WakeDisjoint | ATK-ALL-Proj-ONENET/rt-thread/src/ipc.c:1192-1195 | The bits given to two CLEAR waiters in one send are disjoint |
| EventModel.WakeConsumes | ATK-ALL-Proj-ONENET/rt-thread/src/ipc.c:1192-1195 | The send removes exactly the bits it delivered to CLEAR waiters |
| EventRuns.SendKeeps | ATK-ALL-Proj-ONENET/rt-thread/src/ipc.c:1125-1214 | A send keeps the invariant, returns RT_EOK for a non-empty set and never takes the assertion exit |
| EventRuns.RecvAnswers | ATK-ALL-Proj-ONENET/rt-thread/src/ipc.c:1261-1291 | A receive that succeeds at once returns an answer to its request |
| EventRuns.LeaveKeeps | ATK-ALL-Proj-ONENET/rt-thread/src/ipc.c:1325-1349 | A woken receive returns an answer to what it asked for, or its error code |
| EventRuns.RunQuiet | ATK-ALL-Proj-ONENET/rt-thread/src/ipc.c:1125-1389 | After every step of every run no suspended thread has its AND/OR condition met by the flags |
| Event.Event.WalkList | ATK-ALL-Proj-ONENET/rt-thread/src/ipc.c:1149-1204 | The loop over the suspend list equals the recursive walk |
| Event.Event.Test | ATK-ALL-Proj-ONENET/rt-thread/src/ipc.c:1156-1195 | The test of one waiter in that loop delivers and clears as one round of the walk does |
| Event.Event.Send | ATK-ALL-Proj-ONENET/rt-thread/src/ipc.c:1125-1214 | The field updates equal the send step |
| Event.Event.Recv | ATK-ALL-Proj-ONENET/rt-thread/src/ipc.c:1230-1330 | The field updates equal the receive step |
| Event.Event.Reset | ATK-ALL-Proj-ONENET/rt-thread/src/ipc.c:1361-1389 | All waiters are failed and the set is 0 |
| WaitTime.RemainingExactly | ATK-ALL-Proj-ONENET/rt-thread/src/ipc.c:1637-1643 | The unsigned subtraction gives max(0, timeout - elapsed) if and only if it does not overshoot by more than 2^31, across tick wrap |
| WaitTime.RemainingAfter | ATK-ALL-Proj-ONENET/rt-thread/src/ipc.c:1637-1643 | After any number of wake-ups the rest is max(0, T - total time slept); waiting forever stays so |
| WaitTime.LeftExactly | ATK-ALL-Proj-ONENET/rt-thread/src/ipc.c:1637-1643 | The rest of a running call is what it was given minus what it has slept if and only if it runs at most 2^31 ticks after its timer was due; a call that waits forever needs no such condition |
| Waiters.PostKeeps | ATK-ALL-Proj-ONENET/rt-thread/src/ipc.c:1653-1675 | Adding a unit and resuming one waiter strands nobody |
| Waiters.TakeKeeps | ATK-ALL-Proj-ONENET/rt-thread/src/ipc.c:1868-1880 | Taking a unit, resumed for it or not, strands nobody |
| MailRing.SlotIsModulo | ATK-ALL-Proj-ONENET/rt-thread/src/ipc.c:1646-1657 | `in_offset` is (`out_offset` + `entry`) mod `size` |
| MailRing.PutAppends | ATK-ALL-Proj-ONENET/rt-thread/src/ipc.c:1646-1657 | A send appends to the contents |
| MailRing.PutFrontPrepends | ATK-ALL-Proj-ONENET/rt-thread/src/ipc.c:1729-1743 | An urgent mail is prepended |
| MailRing.DropPops | ATK-ALL-Proj-ONENET/rt-thread/src/ipc.c:1868-1880 | A receive pops the head |
| MailboxAnswers.SendExactly | ATK-ALL-Proj-ONENET/rt-thread/src/ipc.c:1584-1680 | A mail is accepted if and only if there is room, behind the others, and the first receiver is resumed; on a full mailbox the caller gives up or blocks by its timeout |
| MailboxAnswers.UrgentExactly | ATK-ALL-Proj-ONENET/rt-thread/src/ipc.c:1710-1762 | An urgent mail is accepted if and only if there is room, in front of the others |
| MailboxAnswers.RecvExactly | ATK-ALL-Proj-ONENET/rt-thread/src/ipc.c:1804-1903 | A receive returns the first mail if and only if there is one, and the first sender is resumed; on an empty mailbox the caller gives up or blocks by its timeout |
| MailboxModel.SendLoopKeeps | ATK-ALL-Proj-ONENET/rt-thread/src/ipc.c:1584-1680 | Every pass of the sending loop keeps ring, lists and "nobody stranded" on both sides |
| MailboxModel.RecvLoopKeeps | ATK-ALL-Proj-ONENET/rt-thread/src/ipc.c:1804-1902 | Every pass of the receiving loop keeps them |
| MailboxModel.NoOverflow | ATK-ALL-Proj-ONENET/rt-thread/src/ipc.c:1653-1662 | The overflow exit of `rt_mb_send_wait` is unreachable |
| MailboxModel.UrgentKeeps | ATK-ALL-Proj-ONENET/rt-thread/src/ipc.c:1710-1762 | An urgent send keeps them |
| MailboxModel.ResetKeeps | ATK-ALL-Proj-ONENET/rt-thread/src/ipc.c:1919-1942 | Reset keeps them |
| MailboxModel.TimeoutKeeps | ATK-ALL-Proj-ONENET/rt-thread/src/thread.c:859-881 | A timeout of a waiting sender or receiver keeps them |
| MailboxRuns.RunSafe | ATK-ALL-Proj-ONENET/rt-thread/src/ipc.c:1554-1947 | In every state of every run, however long anybody sleeps, the mailbox holds exactly what the bounded deque does and nobody is stranded |
| MailboxRuns.RunFifo | ATK-ALL-Proj-ONENET/rt-thread/src/ipc.c:1554-1903 | Without urgent mails and resets, received mails followed by the contents are the accepted mails in order |
| MailboxRuns.RunOnTime | ATK-ALL-Proj-ONENET/rt-thread/src/ipc.c:1554-1903 | In every run whose timed calls run again at most 2^31 ticks late, each blocked call has its remaining time, after any number of wake-ups |
| MailboxRuns.Settled | ATK-ALL-Proj-ONENET/rt-thread/src/ipc.c:1554-1903 | Once all resumed threads have run, receivers wait only on an empty mailbox and senders only on a full one |
| MailboxRuns.SenderGivesUpInTime | ATK-ALL-Proj-ONENET/rt-thread/src/ipc.c:1584-1644 | A resumed sender gives up exactly when the mailbox is still full and it has slept for its whole timeout |
| MailboxRuns.ReceiverGivesUpInTime | ATK-ALL-Proj-ONENET/rt-thread/src/ipc.c:1804-1866 | The same for a receiver and an empty mailbox |
| Mailbox.Mailbox.SendLoop | ATK-ALL-Proj-ONENET/rt-thread/src/ipc.c:1584-1680 | The field and buffer updates equal the model step |
| Mailbox.Mailbox.Urgent | ATK-ALL-Proj-ONENET/rt-thread/src/ipc.c:1710-1762 | The field and buffer updates equal the model step |
| Mailbox.Mailbox.RecvLoop | ATK-ALL-Proj-ONENET/rt-thread/src/ipc.c:1804-1903 | The field updates equal the model step |
| Mailbox.Mailbox.Reset | ATK-ALL-Proj-ONENET/rt-thread/src/ipc.c:1915-1947 | The field updates equal the model step |
| QueueAnswers.SendStarts | ATK-ALL-Proj-ONENET/rt-thread/src/ipc.c:2164-2204 | A send fails at once if and only if the message is longer than a node, or no node is free and it may not wait |
| QueueAnswers.SendExactly | ATK-ALL-Proj-ONENET/rt-thread/src/ipc.c:2206-2272 | The loop of a send ends with the first free node if and only if there is one; otherwise the caller gives up or blocks by its timeout |
| QueueAnswers.UrgentExactly | ATK-ALL-Proj-ONENET/rt-thread/src/ipc.c:2345-2389 | The same for an urgent send, which never waits |
| QueueAnswers.CopyInExactly | ATK-ALL-Proj-ONENET/rt-thread/src/ipc.c:2274-2277 | The node gets the message in front, keeps its other bytes, and no other node changes |
| QueueAnswers.LinkExactly | ATK-ALL-Proj-ONENET/rt-thread/src/ipc.c:2279-2321 | The node goes behind the queued ones, or in front for an urgent message, and the first receiver is resumed |
| QueueAnswers.RecvExactly | ATK-ALL-Proj-ONENET/rt-thread/src/ipc.c:2479-2560 | The loop of a receive ends with the first queued node if and only if there is one; otherwise the caller gives up or blocks by its timeout |
| QueueAnswers.CopyOutExactly | ATK-ALL-Proj-ONENET/rt-thread/src/ipc.c:2562-2563 | The copy is the first min(size, msg_size) bytes of the node |
| QueueAnswers.UnlinkExactly | ATK-ALL-Proj-ONENET/rt-thread/src/ipc.c:2565-2592 | The node goes to the front of the free list, the first sender is resumed, and the copy is returned |
| QueueSteps.SendLoopKeeps | ATK-ALL-Proj-ONENET/rt-thread/src/ipc.c:2206-2272 | Claiming a free node, blocking or giving up keeps the node partition and strands nobody |
| QueueSteps.LinkKeeps | ATK-ALL-Proj-ONENET/rt-thread/src/ipc.c:2279-2321 | Linking a filled node keeps them and never overflows `entry` |
| QueueSteps.RecvLoopKeeps | ATK-ALL-Proj-ONENET/rt-thread/src/ipc.c:2479-2560 | Taking the head of the queue, blocking or giving up keeps them |
| QueueSteps.UnlinkKeeps | ATK-ALL-Proj-ONENET/rt-thread/src/ipc.c:2565-2592 | Giving the node back to the free list keeps them |
| QueueSteps.ResetKeeps | ATK-ALL-Proj-ONENET/rt-thread/src/ipc.c:2612-2650 | Reset, in the middle of other calls, keeps them |
| QueueSteps.Pigeonhole | ATK-ALL-Proj-ONENET/rt-thread/src/ipc.c:2294-2303 | Distinct nodes of a pool are no more than the pool, which is why `entry` cannot overflow |
| QueueRuns.RunSafe | ATK-ALL-Proj-ONENET/rt-thread/src/ipc.c:2164-2653 | For any interleaving of senders, urgent senders, receivers, timeouts and resets: every node is in exactly one of free list, queue and one thread in flight, `entry` is the queue length, nobody is stranded, and the queue holds the messages of the completed sends |
| QueueOrder.RunFifo | ATK-ALL-Proj-ONENET/rt-thread/src/ipc.c:2164-2592 | Without urgent messages and resets, in every state of every run the queued nodes hold, one by one, the messages sent but not taken in the order in which their sends completed, and what a receiver has in hand is the message of its number |
| QueueOrder.ReceivedInOrder | ATK-ALL-Proj-ONENET/rt-thread/src/ipc.c:2479-2592 | The receive that takes a node as number m returns the message whose send completed as number m, whatever other threads do before it returns |
| QueueRuns.RunOnTime | ATK-ALL-Proj-ONENET/rt-thread/src/ipc.c:2164-2592 | In every run whose timed calls run again at most 2^31 ticks late, each blocked call has its remaining time |
| QueueRuns.SenderGivesUpInTime | ATK-ALL-Proj-ONENET/rt-thread/src/ipc.c:2206-2268 | A resumed sender gives up exactly when there is still no free node and it has slept for its whole timeout |
| QueueRuns.ReceiverGivesUpInTime | ATK-ALL-Proj-ONENET/rt-thread/src/ipc.c:2479-2540 | The same for a receiver and an empty queue |
| QueueRuns.Delivered | ATK-ALL-Proj-ONENET/rt-thread/src/ipc.c:2562-2563 | A receiver returns with the message it took, cut to min(size, msg_size) bytes, whatever ran meanwhile |
| QueueRuns.LinkSucceeds | ATK-ALL-Proj-ONENET/rt-thread/src/ipc.c:2294-2303 | Once a sender has its node, the send returns RT_EOK |
| QueueRuns.Settled | ATK-ALL-Proj-ONENET/rt-thread/src/ipc.c:2164-2592 | With nothing in flight and no resumed thread pending, receivers wait only on an empty queue and senders only when every node is queued |
| MessageQueue.MessageQueue.constructor | ATK-ALL-Proj-ONENET/rt-thread/src/ipc.c:1970-2020 | The loop links all nodes into the free list, last node first |
| MessageQueue.MessageQueue.Append | ATK-ALL-Proj-ONENET/rt-thread/src/ipc.c:2280-2292 | The pointer writes append the node; `head` is the first and `tail` the last node, NULL when empty |
| MessageQueue.MessageQueue.Prepend | ATK-ALL-Proj-ONENET/rt-thread/src/ipc.c:2394-2400 | The pointer writes prepend the node and keep `tail` right |
| MessageQueue.MessageQueue.PopQueue | ATK-ALL-Proj-ONENET/rt-thread/src/ipc.c:2544-2551 | The head leaves the linked queue, `tail` becomes NULL with the last node |
| MessageQueue.MessageQueue.SendLoop | ATK-ALL-Proj-ONENET/rt-thread/src/ipc.c:2206-2272 | Fields and links equal the model step |
| MessageQueue.MessageQueue.CopyIn | ATK-ALL-Proj-ONENET/rt-thread/src/ipc.c:2274-2277 | With interrupts on, only the private node changes |
| MessageQueue.MessageQueue.Link | ATK-ALL-Proj-ONENET/rt-thread/src/ipc.c:2279-2321 | Fields and links equal the model step |
| MessageQueue.MessageQueue.Unlink | ATK-ALL-Proj-ONENET/rt-thread/src/ipc.c:2565-2592 | Fields and links equal the model step |
| MessageQueue.MessageQueue.Reset | ATK-ALL-Proj-ONENET/rt-thread/src/ipc.c:2605-2653 | Both lists of threads are failed and the loop moves every queued node to the free list |
| PoolModel.BlocksFit | ATK-ALL-Proj-ONENET/rt-thread/src/mempool.c:97-121 | Each block starts aligned and ends inside the region and before the next one, and it has room for header and payload if and only if the block size plus 8 does not exceed 2^32 |
| PoolModel.BlocksApart | ATK-ALL-Proj-ONENET/rt-thread/src/mempool.c:97-121 | Different blocks do not overlap |
| PoolModel.StrideHolds | ATK-ALL-Proj-ONENET/rt-thread/src/mempool.c:99-104 | In 32-bit arithmetic the bytes per block are enough for header and payload if and only if the block size is at most 2^32 - 8; above that they are 0, by which the code divides, or 4 |
| PoolModel.EndMarkInside | ATK-ALL-Proj-ONENET/rt-thread/src/mempool.c:118-119 | The end mark of the free list is written inside the region if and only if the region has room for a whole block |
| PoolModel.EndMarkInFront | ATK-ALL-Proj-ONENET/rt-thread/src/mempool.c:118-119 | An input where it is not: with size 4 and block size 4 it goes to offset -8 |
| PoolAnswers.AllocExactly | ATK-ALL-Proj-ONENET/rt-thread/src/mempool.c:319-390 | An allocation gets the first free block if and only if there is one, marked with the pool; otherwise it gives up, or goes to the front of the list, by its time |
| PoolAnswers.WakesExactly | ATK-ALL-Proj-ONENET/rt-thread/src/mempool.c:358-366 | A resumed call fails if and only if its thread has an error code |
| PoolAnswers.FreesExactly | ATK-ALL-Proj-ONENET/rt-thread/src/mempool.c:416-449 | The block becomes the first free one, and the first waiter, if any, is resumed with RT_EOK |
| PoolModel.AllocKeeps | ATK-ALL-Proj-ONENET/rt-thread/src/mempool.c:319-385 | Each pass of the allocation loop keeps the partition and strands nobody |
| PoolModel.WakeKeeps | ATK-ALL-Proj-ONENET/rt-thread/src/mempool.c:358-366 | So does the part between rt_schedule and the next critical section |
| PoolModel.FreeKeeps | ATK-ALL-Proj-ONENET/rt-thread/src/mempool.c:409-449 | Freeing keeps them |
| PoolRuns.RunSafe | ATK-ALL-Proj-ONENET/rt-thread/src/mempool.c:303-449 | Over every run free list and allocated blocks partition the pool, `block_free_count` is the length of the free list, allocated headers point to the pool and are exactly the blocks in callers' hands, nobody is stranded, and the waiters are listed in the reverse of the order in which they fell asleep |
| PoolRuns.NeverTwice | ATK-ALL-Proj-ONENET/rt-thread/src/mempool.c:371-382 | An allocation returns a block that is in nobody's hands and the count drops by one |
| PoolRuns.LastSleeperFirst | ATK-ALL-Proj-ONENET/rt-thread/src/mempool.c:335-338 | In every run, a free wakes the waiter that fell asleep after all the others on the list, and no other |
| PoolRuns.RunOnTime | ATK-ALL-Proj-ONENET/rt-thread/src/mempool.c:319-369 | In every run whose timed calls run again at most 2^31 ticks late, each blocked call has its remaining time; other threads may run between reading the tick and going back to the critical section |
| PoolRuns.GivesUpInTime | ATK-ALL-Proj-ONENET/rt-thread/src/mempool.c:319-369 | A resumed allocation, back in its critical section, gives up exactly when the pool is still used up and it has slept for its whole timeout |
| MemPool.MemPool.constructor | ATK-ALL-Proj-ONENET/rt-thread/src/mempool.c:97-121 | For every size and block size, a region without a whole block included: as many blocks as fit, all free, and header words that link them in address order and end with NULL |
| MemPool.MemPool.AllocLoop | ATK-ALL-Proj-ONENET/rt-thread/src/mempool.c:319-385 | Fields and header words equal the model step |
| MemPool.MemPool.AllocWake | ATK-ALL-Proj-ONENET/rt-thread/src/mempool.c:358-366 | The local variables equal the model step |
| MemPool.MemPool.Free | ATK-ALL-Proj-ONENET/rt-thread/src/mempool.c:399-449 | Fields and header words equal the model step |
| Clients.SignalArrives | ATK-ALL-Proj-ONENET/rt-thread/src/ipc.c:357-514 | A take that waits returns RT_EOK once another thread has released, and no unit is left over |
| Clients.UnitsServe | ATK-ALL-Proj-ONENET/rt-thread/src/ipc.c:357-382 | A semaphore of n units serves n takes that may not wait, and refuses the next one |
| Clients.HandsOver | ATK-ALL-Proj-ONENET/rt-thread/src/ipc.c:697-977 | A low-priority owner runs at the priority of the waiter, and both run at their own after the hand-over |
| Clients.BothArrive | ATK-ALL-Proj-ONENET/rt-thread/src/ipc.c:1125-1349 | A thread that waits for two events and takes them runs after the second of two sends, gets both, and leaves none |
| Clients.OneArrives | ATK-ALL-Proj-ONENET/rt-thread/src/ipc.c:1125-1349 | A thread that waits for one of two events, and takes it, runs after one was sent, gets that one, and leaves none |
| Clients.MailArrives | ATK-ALL-Proj-ONENET/rt-thread/src/ipc.c:1554-1903 | A mail sent while a receiver waits reaches it and leaves the mailbox empty |
| Clients.SendOne | ATK-ALL-Proj-ONENET/rt-thread/src/ipc.c:2164-2321 | An uninterrupted send on any queue with a free node puts the message behind the others |
| Clients.MessageArrives | ATK-ALL-Proj-ONENET/rt-thread/src/ipc.c:2164-2592 | A message of the size of a node comes back as it was sent |
| Clients.DataStays | ATK-ALL-Proj-ONENET/rt-thread/src/mem.c:272-615 | On a fresh heap, a byte that a client has stored is still there after another block of any size was allocated and freed |
| Clients.CutStays | ATK-ALL-Proj-ONENET/rt-thread/src/mem.c:461-503 | A block of 200 bytes on a fresh heap keeps its address when it is cut to 128 |
| Clients.BlockPasses | ATK-ALL-Proj-ONENET/rt-thread/src/mempool.c:303-449 | The only block of a pool goes to the waiting thread when its holder frees it |
| JsonString.WidthsExact | ATK-ALL-Proj-ONENET/packages/cJSON-v1.0.2/cJSON.c:283 | The length computed on the escaping path is exactly what gets written |
| JsonString.ReadBack | ATK-ALL-Proj-ONENET/packages/cJSON-v1.0.2/cJSON.c:198-313 | `parse_string` inverts `print_string_ptr` on every zero-free byte string |
| JsonString.HexReads | ATK-ALL-Proj-ONENET/packages/cJSON-v1.0.2/cJSON.c:183-194 | Four hexadecimal digits that spell a number below 2^16, in lower, upper or mixed case, are read as that number |
| JsonString.HexReadsOnly | ATK-ALL-Proj-ONENET/packages/cJSON-v1.0.2/cJSON.c:183-194 | And what is read as a number other than 0 is spelled so |
| JsonString.ShortEscapes | ATK-ALL-Proj-ONENET/packages/cJSON-v1.0.2/cJSON.c:298-307 | The seven two-character escapes, character by character |
| JsonString.OtherEscapes | ATK-ALL-Proj-ONENET/packages/cJSON-v1.0.2/cJSON.c:294-307 | Other control characters become `\u00` and two lower-case digits, and all other bytes stand for themselves |
| JsonString.UnescapesExactly | ATK-ALL-Proj-ONENET/packages/cJSON-v1.0.2/cJSON.c:215-246 | Behind a backslash b, f, n, r and t stand for their control characters and every other character but u for itself |
| JsonString.EscapeGivesUtf8 | ATK-ALL-Proj-ONENET/packages/cJSON-v1.0.2/cJSON.c:226-245 | The escape of any Unicode scalar value, as one unit or a surrogate pair and in either letter case, becomes its UTF-8 by the table of section 3 of RFC 3629; the digits of the escape are defined by their characters |
| JsonString.LengthPassBounds | ATK-ALL-Proj-ONENET/packages/cJSON-v1.0.2/cJSON.c:203-205 | On literals whose escapes are complete (a byte behind each backslash, four bytes inside the literal behind each `\u`), the length pass is at least the output |
| JsonStringCode.PrintStringPtr | ATK-ALL-Proj-ONENET/packages/cJSON-v1.0.2/cJSON.c:258-313 | The memory holds the escaped literal and its zero and is exactly that long |
| JsonStringCode.Render | ATK-ALL-Proj-ONENET/packages/cJSON-v1.0.2/cJSON.c:263-311 | Both paths write the literal and its zero and nothing outside len + 3 bytes |
| JsonStringCode.ParseStringPtr | ATK-ALL-Proj-ONENET/packages/cJSON-v1.0.2/cJSON.c:198-255 | Two passes over a literal with complete escapes yield the specified bytes; no write passes the memory the first pass counted |
| JsonUtf8.ParseHex | ATK-ALL-Proj-ONENET/packages/cJSON-v1.0.2/cJSON.c:183-194 | The shifts and additions of `parse_hex4` give the value of four digits in either case, or 0 |
| JsonUtf8.TailMeans | ATK-ALL-Proj-ONENET/packages/cJSON-v1.0.2/cJSON.c:238-240 | `(uc | 0x80) & 0xBF` is a continuation byte with the lowest six bits |
| JsonUtf8.PairMeans | ATK-ALL-Proj-ONENET/packages/cJSON-v1.0.2/cJSON.c:232 | The shift, masks and sum on two surrogates give the character of the pair |
| JsonUtf8.StoreUtf8 | ATK-ALL-Proj-ONENET/packages/cJSON-v1.0.2/cJSON.c:235-243 | The fall-through switch writes the UTF-8 of the character from the last byte to the first, and nothing else |
| JsonUtf8.CopyUnicode | ATK-ALL-Proj-ONENET/packages/cJSON-v1.0.2/cJSON.c:222-244 | The case of `\u` writes the specified bytes and leaves the cursor where specified, for invalid surrogates too |
| JsonLexed.ValueLexed | ATK-ALL-Proj-ONENET/packages/cJSON-v1.0.2/cJSON.c:363-375 | In a text whose literals have complete escapes the parser stays outside of literals and meets complete literals only |
| JsonLexed.WholePrintLexed | ATK-ALL-Proj-ONENET/packages/cJSON-v1.0.2/cJSON.c:348-349 | Every print of a printable tree is such a text |
| JsonNumber.ReadBack | ATK-ALL-Proj-ONENET/packages/cJSON-v1.0.2/cJSON.c:102-121 | `parse_number` inverts "%d" |
| JsonNumber.ReadsSpelling | ATK-ALL-Proj-ONENET/packages/cJSON-v1.0.2/cJSON.c:102-121 | Every number of section 6 of RFC 8259, with fraction and exponent, is read as its exact decimal value |
| JsonGrammar.ParsesExactly | ATK-ALL-Proj-ONENET/packages/cJSON-v1.0.2/cJSON.c:363-556 | The parser finds a tree between two indices if and only if the text there spells it by the grammar of section 2 of RFC 8259, with any byte up to 32 as white space |
| JsonGrammar.TextExactly | ATK-ALL-Proj-ONENET/packages/cJSON-v1.0.2/cJSON.c:329-345 | A whole text is accepted if and only if it is white space, a value and, when asked for, nothing but white space up to the end |
| JsonRoundTrip.SamplePlain | ATK-ALL-Proj-ONENET/packages/cJSON-v1.0.2/cJSON.c:378-664 | The unformatted print of a sample with an array and two objects, character by character |
| JsonRoundTrip.SampleFormatted | ATK-ALL-Proj-ONENET/packages/cJSON-v1.0.2/cJSON.c:378-664 | Its formatted print, line by line |
| JsonRoundTrip.RoundTrip | ATK-ALL-Proj-ONENET/packages/cJSON-v1.0.2/cJSON.c:329-349 | For every printable tree, parsing its formatted or unformatted print consumes all the text and gives an equal tree, with and without `require_null_terminated` |
| JsonRoundTrip.Trip | ATK-ALL-Proj-ONENET/packages/cJSON-v1.0.2/cJSON.c:363-375 | The same for a value anywhere in a text, at any depth |
| JsonRoundTrip.ItemsTrip | ATK-ALL-Proj-ONENET/packages/cJSON-v1.0.2/cJSON.c:412-437 | The same for the items of an array |
| JsonRoundTrip.MembersTrip | ATK-ALL-Proj-ONENET/packages/cJSON-v1.0.2/cJSON.c:520-553 | The same for the members of an object |
| JsonRoundTrip.EmptyObjectIndent | ATK-ALL-Proj-ONENET/packages/cJSON-v1.0.2/cJSON.c:566-575 | In a formatted print the closing brace of an empty object is indented as that of any other object at its depth if and only if the depth is 0; otherwise it has one tab less |
| JsonCycle.PrintThenParse | ATK-ALL-Proj-ONENET/packages/cJSON-v1.0.2/cJSON.c:329-349 | Run one after the other on memory, printer and parser consume all the text and build nodes that spell out the tree printed, with consistent links |
| JsonCycle.PrintBufferedThenParse | ATK-ALL-Proj-ONENET/packages/cJSON-v1.0.2/cJSON.c:329-358 | The same through the growing buffer, for every positive initial size |
| JsonCycle.PrintMinifyParse | ATK-ALL-Proj-ONENET/packages/cJSON-v1.0.2/cJSON.c:329-348 | The same with `cJSON_Minify` in the same memory in between |
| JsonMinify.MinifyCommutes | ATK-ALL-Proj-ONENET/packages/cJSON-v1.0.2/cJSON.c:741-756 | Minifying the formatted print of a tree gives exactly its unformatted print |
| JsonMinify.LineCommentGoes | ATK-ALL-Proj-ONENET/packages/cJSON-v1.0.2/cJSON.c:750 | A comment from two slashes to the end of the line is removed, wherever it stands |
| JsonMinify.BlockCommentGoes | ATK-ALL-Proj-ONENET/packages/cJSON-v1.0.2/cJSON.c:751 | A comment from slash and star to the next star and slash is removed; the first star may be that star |
| JsonMinify.AnyLiteralStays | ATK-ALL-Proj-ONENET/packages/cJSON-v1.0.2/cJSON.c:752 | A literal with any escapes stays as it is, with all white space and slashes in it |
| JsonMinify.ClosedExactly | ATK-ALL-Proj-ONENET/packages/cJSON-v1.0.2/cJSON.c:741-756 | Every literal and multi-line comment of a text is closed if and only if the read cursor stays in the text, and then it stops at the terminating zero |
| JsonMinify.OpenTexts | ATK-ALL-Proj-ONENET/packages/cJSON-v1.0.2/cJSON.c:751-752 | Inputs that carry the cursor out: an opening quote, and a slash with a star |
| JsonMinify.Minify | ATK-ALL-Proj-ONENET/packages/cJSON-v1.0.2/cJSON.c:741-756 | On closed texts, in one buffer, with the write cursor never passing the read cursor, the text loses whitespace and comments outside literals |
| PowerOfTwo.Pow2gt | ATK-ALL-Proj-ONENET/packages/cJSON-v1.0.2/cJSON.c:123 | The shift-and-or trick gives the least power of two not below its argument, for 1 up to 2^30 |
| PowerOfTwo.SmearLeast | ATK-ALL-Proj-ONENET/packages/cJSON-v1.0.2/cJSON.c:123 | No one-bit word above x is below the smeared word plus one |
| JsonBuffer.PrintBuffer.Ensure | ATK-ALL-Proj-ONENET/packages/cJSON-v1.0.2/cJSON.c:127-142 | The text so far is kept, the requested bytes are available, and a grown buffer has the least power of two as its size |
| JsonBuffer.PrintBuffer.Update | ATK-ALL-Proj-ONENET/packages/cJSON-v1.0.2/cJSON.c:144-150 | The offset moves behind the text just printed |
| JsonBuffer.PrintValue | ATK-ALL-Proj-ONENET/packages/cJSON-v1.0.2/cJSON.c:378-396 | Into a growing buffer of any size, exactly the text of `JsonTree.Print` and a zero; every store is inside the secured capacity |
| JsonBuffer.PrintList | ATK-ALL-Proj-ONENET/packages/cJSON-v1.0.2/cJSON.c:459-474 | The same for arrays |
| JsonBuffer.PrintFullObject | ATK-ALL-Proj-ONENET/packages/cJSON-v1.0.2/cJSON.c:576-613 | The same for objects |
| JsonBuffer.PrintBuffered | ATK-ALL-Proj-ONENET/packages/cJSON-v1.0.2/cJSON.c:351-358 | For every tree, format flag and initial size the result is the text of the exact-size printer |
| JsonPlain.PrintValue | ATK-ALL-Proj-ONENET/packages/cJSON-v1.0.2/cJSON.c:378-409 | Into memory of the computed size, exactly the text of `JsonTree.Print` and a zero |
| JsonPlain.PrintList | ATK-ALL-Proj-ONENET/packages/cJSON-v1.0.2/cJSON.c:476-515 | The same for arrays |
| JsonPlain.PrintObject | ATK-ALL-Proj-ONENET/packages/cJSON-v1.0.2/cJSON.c:615-664 | The same for objects |
| JsonPlain.ListFits | ATK-ALL-Proj-ONENET/packages/cJSON-v1.0.2/cJSON.c:476-488 | The size computed for an array is enough |
| JsonPlain.ObjectFits | ATK-ALL-Proj-ONENET/packages/cJSON-v1.0.2/cJSON.c:615-633 | The size computed for an object is enough |
| JsonNodes.Frame | ATK-ALL-Proj-ONENET/packages/cJSON-v1.0.2/cJSON.c:412-437 | What a node stands for depends on its value fields and on the nodes below it only |
| JsonNodes.Complete | ATK-ALL-Proj-ONENET/packages/cJSON-v1.0.2/cJSON.c:412-437 | Children that are linked in order make an array or object node stand for the whole |
| JsonParser.Parser.ParseValue | ATK-ALL-Proj-ONENET/packages/cJSON-v1.0.2/cJSON.c:363-375 | On texts whose literals have complete escapes: succeeds exactly when the recursive description does, ends at the same index, and the nodes built spell out that tree with consistent next, prev and child links |
| JsonParser.Parser.ParseArray | ATK-ALL-Proj-ONENET/packages/cJSON-v1.0.2/cJSON.c:412-437 | The same for arrays, whose loop links each new node behind the last |
| JsonParser.Parser.ParseObject | ATK-ALL-Proj-ONENET/packages/cJSON-v1.0.2/cJSON.c:520-553 | The same for objects |
| JsonParser.Parser.Parse | ATK-ALL-Proj-ONENET/packages/cJSON-v1.0.2/cJSON.c:329-343 | The same for a whole text, with the optional check of what follows |
| JsonParser.ScanNumber | ATK-ALL-Proj-ONENET/packages/cJSON-v1.0.2/cJSON.c:102-121 | The digit loops read the number and end as described |
| Numerals.DigitsDecode | ATK-ALL-Proj-ONENET/rt-thread/src/kservice.c:684-691 | The printed digits are those of the number, in base 10 and 16, upper and lower case |
| Numerals.ReadAll | ATK-ALL-Proj-ONENET/packages/cJSON-v1.0.2/cJSON.c:102-121 | Reading a run of decimal digits gives its value |
| Format.PlainNumber | ATK-ALL-Proj-ONENET/rt-thread/src/kservice.c:613-783 | Without flags, width and precision a number is its sign and the digits of its magnitude |
| Format.ReadsBack | ATK-ALL-Proj-ONENET/rt-thread/src/kservice.c:613-783 | For all flags, widths and precisions, a reader that skips blanks and takes a sign and digits reads the number from its text, except that with precision 0 it reads 0 |
| Format.ReadsBackExactly | ATK-ALL-Proj-ONENET/rt-thread/src/kservice.c:767-773 | It reads the number itself if and only if the precision is not 0 or the number is |
| Format.NumberLength | ATK-ALL-Proj-ONENET/rt-thread/src/kservice.c:693-782 | A number takes the field width or what it needs, whichever is more; with precision 0 it is shorter by the digits left out |
| FormatDirectives.SpecRead | ATK-ALL-Proj-ONENET/rt-thread/src/kservice.c:828-891 | A directive with any flags, with width and precision written, absent or taken from the arguments, and with any qualifier is read as it is written |
| FormatDirectives.NumberPrinted | ATK-ALL-Proj-ONENET/rt-thread/src/kservice.c:893-1031 | %d, %i, %u, %x and %X print the 32- or 16-bit argument, signed for d and i, in base 10 or 16, with the sign, the digits that the precision asks for, and the padding on the stated side; it is read back as that number, or as 0 with precision 0 |
| FormatDirectives.PointerPrinted | ATK-ALL-Proj-ONENET/rt-thread/src/kservice.c:953-968 | %p prints the address in lower-case hexadecimal digits, eight with zeros in front unless a width is given |
| FormatDirectives.CharPrinted | ATK-ALL-Proj-ONENET/rt-thread/src/kservice.c:898-919 | %c prints the low byte of the argument in a field of the width, on the stated side |
| FormatDirectives.StringPrinted | ATK-ALL-Proj-ONENET/rt-thread/src/kservice.c:921-951 | %s prints the bytes of the argument, cut if and only if the precision is positive and below their number, in a field of the width |
| FormatDirectives.PercentPrinted | ATK-ALL-Proj-ONENET/rt-thread/src/kservice.c:970-973 | %% prints a percent sign and takes no argument |
| FormatDirectives.UnknownPrinted | ATK-ALL-Proj-ONENET/rt-thread/src/kservice.c:992-1005 | Any other conversion is printed behind a percent sign and takes no argument |
| FormatDirectives.OctalPrinted | ATK-ALL-Proj-ONENET/rt-thread/src/kservice.c:976-978 | %o prints the hexadecimal digits of the argument |
| FormatDirectives.OctalExactly | ATK-ALL-Proj-ONENET/rt-thread/src/kservice.c:684-691 | Those are its octal digits if and only if it is below eight |
| FormatDirectives.TextCopied | ATK-ALL-Proj-ONENET/rt-thread/src/kservice.c:820-826 | Text without percent signs is copied |
| Printf.PrintNumber | ATK-ALL-Proj-ONENET/rt-thread/src/kservice.c:613-783 | However much of the buffer is left, the cursor advances by the whole number text and the buffer gets the part that fits |
| Printf.MakeDigits | ATK-ALL-Proj-ONENET/rt-thread/src/kservice.c:684-691 | The digit loop fits its temporary buffer and leaves the digits in reverse |
| Printf.ScanSpec | ATK-ALL-Proj-ONENET/rt-thread/src/kservice.c:828-891 | Flags, width, precision and qualifier are read as specified |
| Printf.Vsnprintf | ATK-ALL-Proj-ONENET/rt-thread/src/kservice.c:785-1048 | For every format, arguments and size: the result is the length of the whole output (see `FormatDirectives`), nothing behind `size` bytes changes, and the buffer holds the longest prefix that fits and a zero |
| MemoryOps.WordIsBytes | ATK-ALL-Proj-ONENET/rt-thread/src/kservice.c:251-265 | Copying one aligned word equals copying its bytes one by one, for any overlap |
| MemoryOps.Memcpy | ATK-ALL-Proj-ONENET/rt-thread/src/kservice.c:211-275 | The word-wise copy equals the byte-wise copy for all contents, alignments and overlaps |
| MemoryOps.CopyRightExactly | ATK-ALL-Proj-ONENET/rt-thread/src/kservice.c:211-275 | `rt_memcpy` is a correct copy for all contents if and only if the destination does not start inside the source behind its first byte |
| MemoryOps.CopyRepeats | ATK-ALL-Proj-ONENET/rt-thread/src/kservice.c:211-275 | When it does, the copy is the periodic repetition of the bytes between the two addresses |
| MemoryOps.Memmove | ATK-ALL-Proj-ONENET/rt-thread/src/kservice.c:296-315 | A correct copy for every overlap |
| MemoryOps.Memset | ATK-ALL-Proj-ONENET/rt-thread/src/kservice.c:127-198 | Exactly the given bytes get the low byte of c, whether stored as words or bytes |
| MemoryOps.SplatBytes | ATK-ALL-Proj-ONENET/rt-thread/src/kservice.c:157-161 | The word built by shifting has the byte in all four places |
| WordMask.MaskMeans | ATK-ALL-Proj-ONENET/rt-thread/src/kservice.c:1253-1268 | For a power of two, `x & (a - 1)` is the remainder and `x & ~(a - 1)` the multiple below x |
| WordMask.ClearRaises | ATK-ALL-Proj-ONENET/rt-thread/src/kservice.c:1266-1269 | For any multiple of four, adding a - 1 and clearing the bits of a - 1 goes up, by less than a, from an address that has one of them |
| AlignedAlloc.AlignedExactly | ATK-ALL-Proj-ONENET/rt-thread/src/kservice.c:1262-1269 | The address is aligned for every heap block if and only if the (rounded) alignment is a power of two |
| AlignedAlloc.ZeroAlignment | ATK-ALL-Proj-ONENET/rt-thread/src/kservice.c:1253-1269 | An alignment of 0 gives address 0 for every block |
| AlignedAlloc.Place | ATK-ALL-Proj-ONENET/rt-thread/src/kservice.c:1253-1269 | For any alignment above 0 the aligned address leaves four bytes for the pointer; the block behind it fits the request if and only if the sizes do not wrap; a power of two is met |
| AlignedAlloc.MallocAlign | ATK-ALL-Proj-ONENET/rt-thread/src/kservice.c:1241-1278 | On the real heap, for any alignment above 0: NULL exactly when malloc is, otherwise a block inside its heap block with the pointer to it in front, aligned for every power of two, and no live payload changes |
| AlignedAlloc.FreeAlign | ATK-ALL-Proj-ONENET/rt-thread/src/kservice.c:1287-1293 | As long as that pointer is intact, exactly the heap block is freed |
| AlignedAlloc.ClientKeepsPointer | ATK-ALL-Proj-ONENET/rt-thread/src/kservice.c:1271-1272 | Writes inside the aligned block leave the pointer intact |
| AlignedAlloc.FreeAlignUndoes | ATK-ALL-Proj-ONENET/rt-thread/src/kservice.c:1287-1293 | Freeing an aligned block straight after allocating it restores the heap chain |

## Left out

- Concurrency inside the heap: `rt_malloc`, `rt_free` and the in-place part of `rt_realloc` run under the heap semaphore and are modelled as one call. A moving `rt_realloc` releases the semaphore before its `rt_malloc`, copy and `rt_free` (`mem.c:504-513`); `SmallHeap.Heap.Relocate` runs the three in a row, and calls of other threads in between are covered by the runs of `HeapMemory`, where it is a Malloc, a Write and a Free.
- `heap_end->prev`: not stated; it goes stale at a split of the last block, which does not write to the stub (`mem.c:345`, `mem.c:488`), and no code reads it.
- Pointers not obtained from the allocator, other than out-of-range ones: excluded by preconditions.
- The configuration that is shipped uses another allocator (memheap); its source is not part of this model.
- Hooks, debug logging, assertions, `rt_object_*` registration, `list_mem`, `memcheck` and `memtrace`: no effect on the state modelled.
- Detaching and deleting IPC objects: they resume all waiters like the resets that are modelled and end the object's life.
- More than one mutex: the code saves one priority per mutex and promises no transitive inheritance.
- Changing a thread's priority from outside while it waits or owns a mutex: the models keep base priorities fixed during a run.
- Signals that interrupt a wait, and SMP.
- The error branch of `rt_system_heap_init` for a region too small for two headers: nothing is set up.
- Message bytes are copied in one step per message; steps of other threads may come before and after it, not inside.
- Node and block memory is one sequence per node; overlap of nodes is ruled out for the pool by `PoolModel.BlocksApart` and not restated for the message queue.
- JSON floating point: a parsed number is its exact decimal mantissa and exponent, without rounding to a double and without the limits of an int on its exponent; printing is for int-range integers.
- Failing allocation and null string pointers in JSON.
- JsonStringCode.ParseStringPtr: asks for a byte after each backslash of the literal and, after each `\u`, for four bytes (digits or not) other than quote and backslash; on other escapes the two passes of the source disagree about where the literal ends.
- JsonParser.Parser.Parse: asks for a text in which every literal is like that (`JsonLexed.Lexed`), for the same reason.
- The C library calls of the printers: `sprintf(ptr2, "u%04x", token)` is the function `JsonString.Hex4`, and `sprintf(str, "%d", n)` is `JsonNumber.Decimal`.
- JSON texts above 2^30 bytes: buffer sizes are ints.
- JSON tree editing (`cJSON_Add...`, `Detach`, `Replace`, `Duplicate`, `Delete`).
- JsonMinify.Minify: asks for a closed text (`JsonMinify.Closed`), because on others the source reads behind the end (`JsonMinify.ClosedExactly`).
- SmallHeap.Heap.Calloc: asks for a wrapped product whose rounding does not wrap, because the source would clear 4 GiB otherwise.
- MemPool.MemPool.constructor: asks for a block size whose stride is not 0 in 32 bits, because the source divides by it; the store in front of a region without a whole block is not modelled, since that memory is not the pool's.
- The ticks that pass between the tick reading of a resumed `rt_mp_alloc` and its critical section: the code does not count them, so they are not part of the time slept in `PoolRuns`.
- Argument lists that do not match the format, buffers that wrap the address space, and outputs longer than an int.
- `RT_PRINTF_LONGLONG` and `RT_PRINTF_SPECIAL`: not defined in this configuration.
- AlignedAlloc.MallocAlign: asks for an alignment above 0 and sizes that do not wrap (`AlignedAlloc.NoWrap`), because the pointer would be stored outside the block otherwise.
- Memory above 2^31 bytes in `rt_memcpy`, whose length is an int.
