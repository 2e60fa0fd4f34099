# TurboStream core: a verified model

Writers push messages into an active ring buffer.  A switch retires that ring under a sequence
number, a min-heap puts retired rings back in the order of their numbers, and one reader drains the
rings and recycles them through a pool.  This project models that pipeline in layers and proves what
each layer guarantees, for every input, run and interleaving.

| layer | modules |
|---|---|
| ring buffer: 32-bit positions, values, object, atomic steps | `RingIndex`, `Rings`, `SmartBuffers`, `RingSteps`, `RingSeal`, `RingFifo`, `RingWrap`, `RingRaces` |
| one call of Push or Pop among any other threads | `RingViews`, `PushCalls`, `PopCalls` |
| reordering heap, as an object | `MinHeaps` |
| the double buffer as a transition system with any number of writers, switchers, closers and hand-off goroutines, and one reader | `Pipeline`, `PipelineMode`, `PipelineInv`, `PipelineOwners`, `PipelineContents`, `PipelineNumbers`, `PipelineStreams`, `PipelineRuns`, `PipelineTheorems`, `PipelineOrder`, `PipelineReordering`, `PipelineRetries`, `PipelineReach` |
| the double buffer as an object whose every call is a schedule of that system | `DoubleBuffers`, `RoundTrip` |
| the entry counter, step by step | `EntryCounter` |
| waiting readers | `Waiters` |
| bytes of small messages: as arrays on the heap, and over whole runs | `Payloads`, `PayloadRuns`, `ByteType` |
| accounting pools | `LifeCycle` |
| allocators | `SmallPool`, `SizePoolSteps`, `Slab` |

How the layers meet: `SmartBuffers` implements the functions of `Rings`, and the atomic operations of
`RingSteps` add up to them when nobody disturbs (`PushAlone`, `PopAlone`); `Pipeline` and
`DoubleBuffers` use those same functions for a whole Push or Pop; `DoubleBuffer.Valid` says that the
object is in a state that the transition system reaches, so the theorems about runs hold between any
two calls; `PayloadRuns` runs the operations of `Payloads` on a memory of named arrays, against an
ideal store without sharing.

Assumptions.  The package that declares the status constants is not part of this model; its constants
are taken to be different.  A `sync.Pool` hands out one of its members or a new object, and may
forget members.  In the pipeline one Push or Pop is one step, the capacity is at least one, and
messages are not empty (an empty one panics at `&buf[0]`).  A read mode is registered before the first
read (without one line 493 of double_buffer.go dereferences nil).  Memory addresses are numbers, and the
clock is read once per call.

The pipeline theorems speak about the states reached before Close, because Close puts rings in the
pool that are still in use; the mode theorems, and the contracts of Write, Close and the reads, speak
about all states.

Where the code and its comments differ, the code is modelled:

- the hand-off goroutine takes its number when it runs, so numbers need not follow the order of the
  switches, and the heap cannot restore that order (`DeliveryCanBeReordered`); delivery is in order
  exactly when the nonempty rings are numbered in turn, empty ones at any time (`InOrderIff`);
- a chunk is a struct, so that its released flag is copied with it, and two releases through two
  copies make messages share bytes (`SharedBytes`, `IsolatedIff`);
- the entry counter is changed in steps of its own, and can stay off the ring's length when nobody
  is between push and count (`CounterCanStayOff`);
- the count stays between zero and the capacity only for one producer and at most one consumer
  (`WithinCapacityIff`), and the ring is a queue for good only when its capacity divides 2^32
  (`FifoForeverIff`);
- `notify` wakes at most 64 waiters, not 32 per batch up to 1024, and `_min` computes the minimum;
- a medium entry is valid for two minutes but may be removed after one (`StaysValidIff`);
- a large message is returned uncopied by `safeRead`, although its comment says copy;
- `allocBlock` lets the free counter fall from zero, so its list migration is never reached.

## Model

| member | source | states |
|---|---|---|
| RingIndex.SlotIsRemainder | component/smart_buffer.go:76-103 | calcPos of the wrapped index is the Euclidean remainder of the unbounded index, at any capacity before the first wrap and for ever if the capacity divides 2^32 |
| RingIndex.SlotsAgreeForeverIff | component/smart_buffer.go:76-86 | all claims of all runs select the slot their unbounded index asks for if and only if the capacity divides 2^32 |
| RingIndex.LiveEntriesDistinctForeverIff | component/smart_buffer.go:76-117 | a full ring keeps its entries in different slots for ever if and only if the capacity divides 2^32 |
| RingIndex.LiveEntriesDistinctBeforeWrap | component/smart_buffer.go:76-117 | up to the first wrap live entries are in different slots at every capacity |
| Rings.PushEnqueues | component/smart_buffer.go:89-122 | one undisturbed Push appends its item exactly when the ring is neither sealed nor full, and seals a full writable ring |
| Rings.WriteEnqueues | component/smart_buffer.go:68-74 | Write appends exactly when the ring is neither closed nor sealed nor full, and leaves a closed or sealed one as it was |
| Rings.PopDequeues | component/smart_buffer.go:139-172 | one undisturbed Pop removes and returns the oldest item, and nil exactly when there is none |
| Rings.ResetIsPristineIff | component/smart_buffer.go:124-132 | Reset clears no slot: it rebuilds a new ring if and only if every slot was nil |
| Rings.ResetOfDrained | component/smart_buffer.go:124-132 | which holds once the ring has been drained |
| SmartBuffers.SmartBuffer.constructor | component/smart_buffer.go:42-54 | a new object is the empty writable ring with indices -1 |
| SmartBuffers.SmartBuffer.Write | component/smart_buffer.go:68-74 | the object's Write refines the ring's, refusing when closed |
| SmartBuffers.SmartBuffer.Push | component/smart_buffer.go:89-122 | the retry loop over array, head and count refines the ring's Push |
| SmartBuffers.SmartBuffer.Pop | component/smart_buffer.go:139-172 | the retry loop refines the ring's Pop |
| SmartBuffers.SmartBuffer.Reset | component/smart_buffer.go:124-132 | the object's Reset refines the ring's |
| RingSteps.Accounting | component/smart_buffer.go:89-172 | in every interleaving of any number of threads, in which Reset finds no producer between claim and count update and no consumer inside Pop, head and tail are the claim counts wrapped, claims are completed calls plus the threads between claim and count update, and so count is the claimed span less such producers and plus such consumers, in 32-bit arithmetic |
| RingSteps.ResetKeepsAccountsIff | component/smart_buffer.go:124-132 | a Reset at any moment keeps these accounts if and only if no thread is between claim and count update |
| RingSteps.CountBound | component/smart_buffer.go:95-165 | with P producers and one consumer, 0 <= count <= capacity + P - 1 and nothing wraps |
| PushCalls.PushIsItsLoop | component/smart_buffer.go:89-122 | whatever the other threads do, a call of Push is rounds that lost their claim, each starting with a check of the state and one of the count, and a last round: refused by a sealed ring, refused by a full one that it seals if writable, or a claim made after both checks, one to three reads of the claimed slot until one finds it nil, the given item stored there, and the count raised |
| PushCalls.PushEndsAlone | component/smart_buffer.go:89-122 | wherever it is, a Push ends within ten operations of its own if the others pause |
| PushCalls.PushAlone | component/smart_buffer.go:89-122 | undisturbed, its operations add up to the ring's Push |
| PopCalls.PopIsItsLoop | component/smart_buffer.go:139-172 | whatever the other threads do, a call of Pop is rounds that lost their claim, each starting with a check of the count, and a last round: empty, or a claim, one to three reads of the claimed slot, all but the last nil and the last only if it is the third, that slot cleared, the count lowered, and what the last read found returned |
| PopCalls.PopTakesWhatArrives | component/smart_buffer.go:151-169 | with one consumer and any number of producers, an item that is in the claimed slot at any time before the third read keeps that Pop from returning nil |
| PopCalls.PopReturnsThatItem | component/smart_buffer.go:151-169 | and it is that item unless another is stored there |
| PopCalls.PopEndsAlone | component/smart_buffer.go:139-172 | wherever it is, a Pop ends within nine operations of its own if the others pause |
| PopCalls.PopAlone | component/smart_buffer.go:139-172 | undisturbed, its operations add up to the ring's Pop |
| RingSeal.FreezeBound | component/smart_buffer.go:89-122 | once sealed and until Reset, a ring stays sealed, each producer past the state check publishes at most once, and in all no more than those that have claimed, those that have not read head, and one for each value of head that the others wait for: whoever loses a claim is turned away |
| RingSeal.OneClaimWins | component/smart_buffer.go:99-103 | of all producers about to claim, one publishes, and none if none has seen the present head, unless one waits for a value of head still to come |
| RingSeal.SealStops | component/smart_buffer.go:89-103 | sealing lets in nothing but what producers past the check still publish, and nothing if there are none |
| RingSeal.ResetReopens | component/smart_buffer.go:124-132 | a sealed ring that is reset takes items again |
| RingFifo.RefinesFifo | component/smart_buffer.go:89-172 | one producer and one consumer, operation by operation: a bounded FIFO queue of length count; stores hit empty slots, a Pop that saw a nonzero count gets the oldest item, retry loops end at once |
| RingWrap.FifoForeverIff | component/smart_buffer.go:76-172 | this holds along every schedule if and only if the capacity divides 2^32; if and only if it does not, a schedule ends with the producer about to store over the oldest item of the queue |
| RingWrap.FifoBeforeTheWrap | component/smart_buffer.go:76-172 | at any capacity it holds for the first 2^31 + 1 steps |
| RingRaces.WithinCapacityIff | component/smart_buffer.go:89-172 | for any producers and consumers: 0 <= count <= capacity in every interleaving if and only if there are one producer and at most one consumer |
| RingRaces.CountBoundReached | component/smart_buffer.go:94-103 | the largest count of CountBound is reached, at every capacity and number of producers |
| RingRaces.NeverNegativeIff | component/smart_buffer.go:89-172 | for any producers and consumers: the count never gets negative if and only if there is at most one consumer and capacity + P <= 2^31 |
| MinHeaps.RootIsLeast | min_heap.go:39-41 | in heap order nothing comes before the root |
| MinHeaps.SiftUpStep | min_heap.go:43-47 | swapping a too small item with its parent leaves one possible defect, at the parent |
| MinHeaps.SiftDownStep | min_heap.go:43-63 | swapping a too large item with its smaller child leaves one possible defect, below the child |
| MinHeaps.WrapHeap.Swap | min_heap.go:43-47 | exchanges two items and keeps every item's stored index right |
| MinHeaps.WrapHeap.Push | min_heap.go:49-88 | adds exactly its item, keeping heap order and indices |
| MinHeaps.WrapHeap.Pick | min_heap.go:56-99 | removes exactly one item, of least sequence, whose index becomes -1, keeping heap order and indices; nil exactly when empty |
| PipelineMode.ModeDiscipline | double_buffer.go:252-263 | the mode is Switching exactly while one thread is between its compare-and-swap and the restoring store, and the stop channel is closed at most once |
| PipelineMode.ClosedIsForever | double_buffer.go:529-534 | Closed is absorbing, and no ring is swapped after it |
| PipelineRuns.Reached | double_buffer.go:176-510 | before Close every run keeps the whole invariant: owners, ring contents, numbers and streams |
| PipelineTheorems.RingsHaveOneOwner | double_buffer.go:252-284 | every ring has exactly one owner among active, passive, switching thread, goroutine, heap, reader, current, pool and collector; the passive ring and every pooled ring are as new |
| PipelineTheorems.SequenceNumbersPartitioned | double_buffer.go:271-326 | the numbers issued and not taken are exactly those numbered and not pushed, in the heap, or in the reader's hand, each once |
| PipelineTheorems.TakenOneByOne | double_buffer.go:304-326 | rings are taken in the order 1, 2, 3, ... with no gap or repeat |
| PipelineTheorems.PickFindsTheNext | double_buffer.go:309-318 | if the ring whose turn it is is in the heap, the next pick installs that very ring |
| PipelineRetries.ThreeAttempts | double_buffer.go:304-326 | while rings are pushed meanwhile and the heap is not found empty, the reader gives up exactly at its third failure |
| PipelineRetries.LateRingIsTaken | double_buffer.go:304-326 | the ring whose turn it is, if it reaches the heap before the third attempt, is taken by that same read |
| PipelineTheorems.MessagesConserved | double_buffer.go:176-510 | every written message is, as often as written, in exactly one of active ring, pending batches, current ring and delivered stream, and every pending batch sits whole in one ring |
| PipelineOrder.DeliveredInOrder | double_buffer.go:271-326 | the delivered stream is a prefix of the batches in number order, each in write order; if numbers follow the switches it is a prefix of what was written |
| PipelineOrder.InOrderIff | double_buffer.go:271-277 | for distinct messages, and whatever rings were retired empty, delivery follows writing if and only if every opened nonempty ring was numbered after all nonempty rings retired before it |
| PipelineReordering.DeliveryCanBeReordered | double_buffer.go:271-277 | a run with one writer in which the second message is delivered first |
| PipelineReach.OpenRings | double_buffer.go:252-284 | between calls the active ring holds the messages of its batch, the passive ring is another one and new, and the current ring is neither |
| DoubleBuffers.DoubleBuffer.constructor | double_buffer.go:129-174 | starts in the initial state of the transition system, with the read mode given |
| DoubleBuffers.DoubleBuffer.RegisterReadMode | double_buffer.go:328-336 | a valid mode replaces the read mode, an invalid one is refused |
| DoubleBuffers.DoubleBuffer.Write | double_buffer.go:202-230 | fails exactly when closed (tested at line 177), or when the active ring takes no push while another thread holds the mode; otherwise the message is the last of the active batch, or the first of a new one after one switch, and the counter is the active ring's length |
| DoubleBuffers.DoubleBuffer.SwitchChannel | double_buffer.go:252-271 | takes effect exactly in Writing mode: the batch is retired whole, the passive ring is active and new, no message moves otherwise |
| DoubleBuffers.DoubleBuffer.SealAndSwap | double_buffer.go:265-284 | the sealed ring leaves, passive becomes active, a pooled or new ring becomes passive, and the counter is zero |
| DoubleBuffers.DoubleBuffer.TakeNumber | double_buffer.go:272 | any waiting goroutine takes the next number for its ring |
| DoubleBuffers.DoubleBuffer.PushHand | double_buffer.go:273 | any goroutine with a number pushes its ring under it, in whatever order and however many numbers were taken meanwhile |
| DoubleBuffers.DoubleBuffer.PickBufferFromHeap | double_buffer.go:304-326 | in at most three attempts, succeeds exactly when the ring whose number is next is in the heap, and otherwise puts everything back |
| DoubleBuffers.DoubleBuffer.TryRead | double_buffer.go:479-510 | no buffer exactly when the current ring is drained and the next one is not in the heap; otherwise the oldest message of the ring whose turn it is, a read error if that ring is empty, and a mode error for an unknown mode |
| DoubleBuffers.DoubleBuffer.ReadCurrent | double_buffer.go:380-510 | both read modes take exactly the oldest message off the current ring |
| DoubleBuffers.DoubleBuffer.DrainProcessor | double_buffer.go:520-527 | empties the heap and puts exactly its rings in the pool |
| DoubleBuffers.DoubleBuffer.Close | double_buffer.go:529-545 | only a call in Writing mode has an effect: closed for good, stop channel closed, heap drained, rings pooled |
| EntryCounter.CounterIsOffBy | double_buffer.go:204-268 | outside a switch the counter exceeds the active ring's length by the late counts for earlier rings, less the writers still to count and the counts zeroed away; it is too high by at most the writers caught between push and count at the zeroing |
| EntryCounter.CounterFollowsPushes | double_buffer.go:204-226 | while no ring is switched, counter and writers still to count have risen by exactly the number of pushes, and so has the length |
| EntryCounter.CounterCanStayOff | double_buffer.go:204-268 | from every state with no writer between push and count, four steps lead to another such state in which the ring is empty and the counter is one |
| DoubleBuffers.ReadIsNextInOrder | double_buffer.go:380-510 | before Close, what a read returns is the next message of the batches in number order |
| RoundTrip.WrittenIsRead | double_buffer.go:129-510 | for every size, both read modes and any messages that one ring holds: written to a new buffer, switched, numbered and pushed, they are read back in order, and the next read finds no buffer |
| DoubleBuffers.SwitchMakesRoom | double_buffer.go:213-229 | after a switch of any reachable state the next push succeeds and its item is alone in the ring |
| Waiters.Min | waiters.go:129-138 | the least of the given values |
| Waiters.TakeBatch | waiters.go:92-99 | for every iteration order, as many different waiters as asked for, or all |
| Waiters.SendAll | waiters.go:101-107 | afterwards exactly the batch's channels are full besides those that were, and if they were empty and different each took one token |
| Waiters.WaiterManager.Register | waiters.go:38-48 | a number never used before and an empty channel that nobody else has |
| Waiters.WaiterManager.Unregister | waiters.go:50-61 | the channel returns to the pool unless the waiter was notified, in which case nothing happens |
| Waiters.WaiterManager.NotifyLoop | waiters.go:88-117 | whatever the channels hold the loop ends and sends no more than asked; with empty, different channels it wakes exactly as many waiters as asked, or all |
| Waiters.WaiterManager.Notify | waiters.go:69-117 | wakes and removes exactly max(0, min(64, n, waiting)) waiters, one token each and none that was notified before, and leaves the rest registered |
| Payloads.Store.Write | double_buffer.go:187-195 | the queued bytes are those given, in an array that no other message, unreleased chunk or pool has, whichever pooled array is handed out; the bytes of every unreleased chunk stay |
| Payloads.Store.SafeRead | double_buffer.go:380-401 | returns exactly the bytes given to Write, in an array that is the reader's alone; all other messages and unreleased chunks stay as they were |
| Payloads.Store.ZeroCopyRead | double_buffer.go:435-454 | the same, in the queued array itself |
| Payloads.Store.Put | double_buffer.go:397-400 | returning an array keeps messages and chunks apart if and only if it is not queued, not pooled and not an unreleased chunk's |
| Payloads.DataChunk.Release | chunk.go:26-31 | an uncopied handle can be released at any time, keeping messages and unreleased chunks apart; a second release through it does nothing |
| Payloads.CallerMayReuse | double_buffer.go:187-195 | the caller may overwrite its slice after Write, and a read in either mode still returns what it held |
| Payloads.SharedBytes | chunk.go:26-31 | with two copies of one handle both released, two messages share an array and a read returns the wrong byte |
| PayloadRuns.IsolatedIff | double_buffer.go:187-454 | for every script of writes, reads in both modes, releases and stores into chunks: whatever the pool hands out and forgets, queued arrays, pooled arrays and arrays of unreleased chunks are pairwise different and hold what they would without sharing, if and only if no safely read chunk is released through two copies of its handle |
| PayloadRuns.MessagesSafeIff | double_buffer.go:187-454 | after any script, all messages stay what was written, however callers go on without releasing more and whatever the pool does, if and only if that condition holds |
| PayloadRuns.ReadsWhatWasWritten | double_buffer.go:187-454 | under that condition the read that takes a message, in either mode, gets exactly the bytes given to its Write, whatever was written, read, released and stored elsewhere before, between and after; and until its release the chunk holds them, or what its reader stored |
| LifeCycle.BigDataPool.Put | life_cycle.go:168-178 | the size counter minus the live sizes grows by exactly the replaced entry's size |
| LifeCycle.BigDataPool.Release | life_cycle.go:181-191 | one reference less, and the books stay balanced |
| LifeCycle.BigDataPool.Free | life_cycle.go:193-203 | the books stay balanced if and only if the recorded size is given, and then the counter is not negative |
| LifeCycle.BigDataPool.Cleanup | life_cycle.go:144-166 | for every iteration order, removes only entries without references and exactly min(201, how many there are), leaves the rest, and the books stay balanced |
| LifeCycle.StaysValidIff | life_cycle.go:89-128 | a valid entry survives a cleanup at the same time, for every iteration order, if and only if it is at most a minute old |
| LifeCycle.MediumPool.Cleanup | life_cycle.go:109-128 | the same bounded sweep over entries older than a minute |
| SmallPool.SizePool.Alloc | poolx/small_pool.go:37-45 | a buffer of exactly the class capacity, the oldest kept one if there is any |
| SmallPool.SizePool.Free | poolx/small_pool.go:47-65 | an error exactly for another capacity; kept exactly if there is room |
| SmallPool.SmallPool.constructor | poolx/small_pool.go:86-105 | five different empty classes, of 64 to 1024 bytes, for 1024 buffers each |
| SmallPool.SmallPool.Alloc | poolx/small_pool.go:107-115 | a buffer of the least class that fits, nil exactly above 1024; that class loses exactly this buffer, its first, or the buffer is new, and every other class stays |
| SmallPool.SmallPool.Free | poolx/small_pool.go:117-123 | the buffer goes to the class of its capacity, if there is one with room, and every other class stays; buffers kept and handed out stay apart if and only if it is not kept already |
| SmallPool.Play | poolx/small_pool.go:107-123 | in every run in which each buffer is freed at most once per Alloc, none is out twice or both out and kept |
| SmallPool.FreedTwice | poolx/small_pool.go:107-123 | a buffer freed twice is handed out twice |
| SizePoolSteps.CounterFollowsChannel | poolx/small_pool.go:37-65 | in every interleaving the channel's length is the counter plus frees sent and not counted minus allocs received and not counted, and only buffers of the class capacity are kept or returned |
| SizePoolSteps.CounterBounds | poolx/small_pool.go:37-65 | so the counter is exact when nobody is on the way, and else off by no more than those |
| SizePoolSteps.AllocAlone | poolx/small_pool.go:37-45 | undisturbed, the steps of an Alloc do what the object's Alloc does |
| SizePoolSteps.FreeAlone | poolx/small_pool.go:47-65 | and those of a Free what its Free does |
| Slab.Chunk.constructor | poolx/slab.go:63-91 | chunkSize / blockSize free blocks at consecutive multiples of the block size |
| Slab.Chunk.AllocBlock | poolx/slab.go:115-141 | hands out the blocks in ascending order, and nil exactly when all are out; the free counter is never zero after a hand-out |
| Slab.BlocksDisjoint | poolx/slab.go:78-88 | any two blocks are disjoint, ascending and inside the chunk |

## Left out

- DoubleBuffer: rings are values in a store, referred to by name, instead of SmartBuffer objects; aliasing is by name.  What the calls on them do is what SmartBuffers proves of the object.
- Write: copying the payload and choosing among the three size classes (lines 176-200) are in Payloads and LifeCycle; a fast-path writer still inside Push on a ring that has just been retired is outside the pipeline theorems (RingSeal.FreezeBound bounds how many there are).
- SwitchChannel: the notification that line 276 starts is Notify in Waiters; the clock of line 269 is not modelled.
- TakeNumber: the object runs one call at a time; what other threads do inside one is in Pipeline.
- PushHand: the same.
- Accounting: no Reset while a producer is between claim and count update, or a consumer is inside Pop, although line 481 of double_buffer.go tests the count alone; ResetKeepsAccountsIff says what such a Reset does to the accounts.
- RefinesFifo: the ring of capacity zero, on which every Push fails and every Pop returns nil, occurs in Rings and SmartBuffers but not in the step model.
- MessagesConserved: says nothing after Close, which pools rings that a writer, goroutine or reader may still use.
- Notify: int identifiers are unbounded, and no liveness is claimed, since a notification may arrive between a failed read and the registration.
- AllocBlock: the migration between partial and full lists, which is never reached, and slabAllocator.Alloc, which is a stub.
- IsValid: presence and age below two minutes, used by StaysValidIff; the clock is a parameter, read once per sweep in Cleanup.
- RegisterReadMode: whether a mode is valid is decided in a package that is not part of this model, and is a parameter.
- WrittenIsRead: its calls are made one after the other; other schedules are those of Pipeline.
- IsolatedIff: a reader stores into its chunk only before the first release through any copy, and a slice given to Write is the caller's own.
- CounterIsOffBy: Push, swap and zeroing are one step each, and the lengths are those of undisturbed pushes.
- BlockingRead, swapMonitor, asyncRecycleWorker: timers, contexts and goroutine scheduling appear only as free choices of the next step.
- WaiterManager.Close: it leaves closed channels registered, and the double buffer never calls it.
- Payloads of 1024 bytes or more: the ring keeps the caller's pointer, so their bytes depend on the caller.
- container/heap: its algorithms are written out in MinHeaps as the library documents them; heap.Init on an empty heap does nothing.
- switch_strategy.go: whether to switch is an arbitrary decision of a thread.
- queue.go, metrics, mocks, memory mapping, unsafe casts, finalizers, log output and the ring's `sem` channel, on which nothing is sent.
