# Verified models of the camera board's kernel

Dafny models of the hard parts of an RT-Thread 3.1 kernel with a camera application on top, and proofs of what
they promise. Interrupt-disabled sections are single steps, pointers into a heap are offsets, and every main
result speaks about all inputs, all runs or all reachable states.

| file | what it is about |
|---|---|
| `JpegFraming.dfy` | the board's frame check and the receiver's stream splitter undo each other under any chunking |
| `RttRing.dfy` | the log ring, alone and with a reader that moves at the same time |
| `FinshWords.dfy`, `FinshTree.dfy`, `FinshVm.dfy`, `FinshCompiler.dfy`, `FinshCorrectness.dfy`, `FinshShell.dfy` | the shell's expression compiler and stack machine |
| `WaitList.dfy`, `Links.dfy` | suspend lists, counting of thread phases, lists threaded through a pool |
| `MessageQueue.dfy`, `MessageProtocol.dfy`, `MessageSteps.dfy`, `MessageLinks.dfy` | message queue cells in place, the protocol of any number of threads, its steps one by one, and the protocol with the links in its state |
| `Mailbox.dfy`, `MemoryPool.dfy`, `Semaphore.dfy`, `Event.dfy`, `Mutex.dfy` | the other blocking objects |
| `TimerList.dfy` | the timer skip list against a stable sorted queue |
| `Tiling.dfy`, `SmallMem.dfy` | heaps as tilings, and the small-memory allocator |
| `Ring.dfy`, `MemHeap.dfy`, `MemHeapSizes.dfy`, `MemHeapPool.dfy` | doubly linked rings, and the memory heap object on values and in place |
| `PageAllocator.dfy`, `Slab.dfy`, `SlabHeap.dfy` | the slab allocator: page list, zones and sizes on values, and the allocator in place |
| `SlabSizes.dfy`, `SlabAlignment.dfy`, `SlabPages.dfy` | how long chunks are and when there are none, which are aligned, and where every page is |
| `FinshHeap.dfy` | the shell's garbage-collected heap, with its links in place |
| `Scheduler.dfy`, `SchedulerSteps.dfy`, `RoundRobin.dfy` | ready lists, bitmap and wait lists; time slices |

Most modules have two layers. Functions on values say what each operation does to the whole state, and lemmas
prove invariants, round trips and run properties about them. Beside them stand classes whose methods work as
the C functions do, on fields, arrays and loops, each proved equal to its function. Blocking calls become state
machines: a thread's place in a call is its phase, and a run is any sequence of steps of any threads.

Where the code does not do what its comments or its callers expect, the models follow the code, and the exact
condition is proved:

* The FinSH type check gives a call the type void, so an operator whose first operand begins with a call is not
  emitted, and a variable of type `void *` has no load: `FinshCorrectness.ExactlyWellCompiled`.
* The small-memory search stops strictly below its limit, so a last block that fits exactly is refused:
  `SmallMem.FailsExactly`, `SmallMem.LastExactFitRefused`. The memory heap refuses a request for all its room:
  `MemHeap.FailsExactly`, `MemHeap.WholeRoomRefused`.
* Rounding a size up to the alignment wraps at 32 bits: `SmallMem.RequestCovers`, `SmallMem.RoundsToZero`.
* The shell's heap leaves an old link in a removed block and does not clear it when the block is put last in a
  list. It is never seen, because the last block of the heap is always free: `FinshHeap.StaleLinkShows`,
  `FinshHeap.FreedCanonical`. Its size computation wraps for sizes close to four gigabytes:
  `FinshHeap.SpaceNeeded`, `FinshHeap.SplitsItself`.
* Power-of-two chunks of the slab allocator are aligned to their size only up to the page size, beyond it as
  their zone's page happens to be: `SlabAlignment.AlignedExactly`, `SlabAlignment.ChunkAlignedExactly`,
  `SlabAlignment.FirstChunkUnaligned`.
* A blocking call links its caller into a wait list whether or not suspending it worked, so that under the
  scheduler lock a thread can stand on two: `Scheduler.BlockExactly`, `Scheduler.BlockedTwiceUnderLock`. Without
  the lock it cannot: `Scheduler.PromptRunsAreSafe`.

## Model

| member | source | states |
|---|---|---|
| `JpegFraming.SplitJpeg` | tool/python recv_camera.py:28-60 | the scanning loop yields exactly the frames and remainder of the recursive description Split, for every byte string |
| `JpegFraming.SplitAppend` | tool/python recv_camera.py:28-60 | split(a+b) is split(a) followed by split(rest of a + b), for all byte strings |
| `JpegFraming.ChunkingIsInvisible` | tool/python recv_camera.py:79-93 | receiving a stream in any chunks gives the frames and remainder of the whole stream at once |
| `JpegFraming.ReceiveLoop` | tool/python recv_camera.py:73-93 | the receive loop saves, in order, the frames of remainder plus chunk, chunk by chunk |
| `JpegFraming.RemainderIsSettled` | tool/python recv_camera.py:28-60 | a remainder contains no further complete frame: splitting it again changes nothing |
| `JpegFraming.JpegFrameLength` | applications/eth_camera.c:84-97 | the result ends at the first end marker, and is zero exactly when there is none |
| `JpegFraming.FrameIsUnique` | applications/eth_camera.c:84-97 | a buffer has at most one prefix that is a frame, so the length scan picks the only one |
| `JpegFraming.SendCapture` | applications/eth_camera.c:244-259 | a capture is sent exactly when it starts with the start marker and its scanned length is at least 100; what is sent is that frame |
| `JpegFraming.StreamLoop` | applications/eth_camera.c:230-275 | the bytes on the wire are the accepted frames of the captures one after the other |
| `JpegFraming.SplitFrame` | tool/python recv_camera.py:28-60 | a frame the board accepts, followed by anything, is cut off first and whole |
| `JpegFraming.PrefixDelivery` | tool/python recv_camera.py:28-60 | any prefix of the stream delivers exactly the frames that are complete in it, and keeps the partial one |
| `JpegFraming.RoundTrip` | applications/eth_camera.c:244-259 | for any captures and any chunking of the wire the receiver saves exactly the frames the board sent, with an empty remainder |
| `RttRing.Ring.GetAvailWriteSpace` | board/rtt/SEGGER_RTT.c:484-507 | free space plus published bytes is the size less one |
| `RttRing.Ring.WriteNoCheck` | board/rtt/SEGGER_RTT.c:394-447 | appends the bytes to what is published, in at most two copies |
| `RttRing.Ring.WriteNoLock` | board/rtt/SEGGER_RTT.c:1058-1107 | skip mode stores all or nothing, trim mode the longest prefix that fits, and returns how much |
| `RttRing.Ring.WriteBlocking` | board/rtt/SEGGER_RTT.c:332-374 | while the host drains, everything written comes out in order, nothing is lost or repeated |
| `RttRing.Ring.Read` | board/rtt/SEGGER_RTT.c:530-604 | takes the longest prefix of the published bytes that fits the buffer and leaves the rest |
| `RttRing.Publish` | board/rtt/SEGGER_RTT.c:394-447 | storing a run in the free space and moving the write offset appends that run, around the end of the buffer too |
| `RttRing.Consume` | board/rtt/SEGGER_RTT.c:530-604 | moving the read offset drops exactly the bytes read |
| `RttRing.NextKeepsInv` | board/rtt/SEGGER_RTT.c:332-604 | every single load, byte copy and offset store by either side keeps the ring's invariant |
| `RttRing.RingIsFifo` | board/rtt/SEGGER_RTT.c:332-604 | under every interleaving of writer and reader the bytes read are a prefix of those published, which are a prefix of those accepted; none is missing once both rest |
| `RttRing.NoSlotIsShared` | board/rtt/SEGGER_RTT.c:332-604 | writer and reader never touch the same slot at the same time, and only published slots are read |
| `FinshVm.OperandRoundTrip` | components/finsh/finsh.h:29-47 | a 32-bit operand stored low byte first is fetched back as itself |
| `FinshVm.RunAppend` | components/finsh/finsh_vm.c:42-51 | running two pieces of code in a row is running the second from where the first ends |
| `FinshVm.Vm.Execute` | components/finsh/finsh_vm.c:42-51 | the fetch loop over the stack machine in place ends exactly where the value-level run ends, or stops when that stops |
| `FinshVm.Vm.BinaryOperation` | components/finsh/finsh_ops.c:60-330 | pops two slots and pushes the operator's result, refusing when fewer are there |
| `FinshVm.Vm.CallOperation` | components/finsh/finsh_ops.c:500-603 | calls the function below its arguments with them in order and leaves its result in their place |
| `FinshCompiler.Compiler.Compile` | components/finsh/finsh_compiler.c:24-738 | the recursive emitter writes exactly the code of the node list, children before parents |
| `FinshCompiler.Compiler.CompilerRun` | components/finsh/finsh_compiler.c:884-918 | the text segment holds the code of the line, a pop between statements, and zeros behind it |
| `FinshCorrectness.EmitIsCompiled` | components/finsh/finsh_compiler.c:24-738 | the compiler's output for a well-compiled expression is the expected instruction sequence, whatever its siblings |
| `FinshCorrectness.CompilerCorrect` | components/finsh/finsh_compiler.c:24-918 | running the code of a well-compiled expression raises the stack by exactly its value, leaves the memory its meaning says, and needs at most two slots more than it has nodes |
| `FinshCorrectness.ProgramCorrect` | components/finsh/finsh_compiler.c:884-918 | a program that fits the node table leaves the last statement's value in slot 0 and the variables its statements leave |
| `FinshCorrectness.ExecutedProgram` | components/finsh/finsh_vm.c:42-51 | the same with the cleared rest of the text segment behind the code |
| `FinshShell.RunLine` | components/finsh/shell.c:395-440 | a line compiled into the text segment and executed from it leaves its value in slot 0 and the memory of its meaning |
| `FinshShell.ConstantsOnBoard` | components/finsh/finsh_ops.c:60-330 | on the board the code of an operator on two constants leaves the C result, the same on every machine where C defines it |
| `FinshCorrectness.ExactlyWellCompiled` | components/finsh/finsh_compiler.c:740-882 | an expression of the fragment is compiled correctly throughout if and only if no operator's first operand begins with a call and no variable is a void pointer |
| `FinshCorrectness.VoidOperandFails` | components/finsh/finsh_compiler.c:740-882 | the failing family: with a call as first operand the operator is not emitted, and the result is wrong |
| `FinshCorrectness.VoidPointerAssignFails` | components/finsh/finsh_compiler.c:60-140 | assigning to a void pointer variable emits no address |
| `FinshCorrectness.VoidPointerFails` | components/finsh/finsh_compiler.c:60-140 | no use of a void pointer variable emits its load |
| `WaitList.Waiters.Suspend` | os/ipc.c:80-126 | a suspended thread goes to the end of the list, or in priority mode before the first less urgent thread |
| `WaitList.PrioInsert` | os/ipc.c:93-118 | a priority list stays sorted, and first come first served among equals |
| `WaitList.InsertMembers` | os/ipc.c:80-126 | exactly the newcomer is added, and nobody twice |
| `MessageQueue.Queue.constructor` | os/ipc.c:1885-1906 | all cells are on the free list, last cell first, and the queue is empty |
| `MessageQueue.Queue.TakeFree` | os/ipc.c:2084-2158 | the first free cell leaves the free list, if there is one |
| `MessageQueue.Queue.Fill` | os/ipc.c:2163-2166 | the message is written to the sender's own cell and to no other |
| `MessageQueue.Queue.LinkLast` | os/ipc.c:2170-2192 | the cell becomes the last of the queue; tail, head and counter agree; the counter cannot be at its limit |
| `MessageQueue.Queue.LinkFirst` | os/ipc.c:2283-2300 | an urgent cell becomes the first of the queue |
| `MessageQueue.Queue.Unlink` | os/ipc.c:2433-2446 | the first cell leaves the queue; an emptied queue has no tail |
| `MessageQueue.Queue.Drain` | os/ipc.c:2452 | at most a cell's worth of bytes is copied out, as they stand in the cell |
| `MessageQueue.Queue.GiveBack` | os/ipc.c:2457-2458 | the cell becomes the first free one |
| `MessageQueue.Queue.Reset` | os/ipc.c:2514-2531 | all queued cells become free, the last of the queue first, and the counter is zero |
| `MessageQueue.HeaderTells` | os/ipc.c:2053-2542 | head, tail, free head and counter decide every branch of the code as the lists of cells do |
| `MessageLinks.NextKeepsInv` | os/ipc.c:2053-2542 | with head, tail, counter and the link word of every cell in the state, every section and the store of a null link keep the chains equal to the queue and the free list, the tail at the last cell and the counter at the length, and the link of a cell a sender has cleared null |
| `MessageLinks.LinksAlwaysRight` | os/ipc.c:2053-2542 | so it is in every reachable state of any number of threads |
| `MessageLinks.DecidesAlike` | os/ipc.c:2084-2433 | what a thread reads in the queue's header is what the cells say |
| `MessageLinks.RunProjects` | os/ipc.c:2053-2542 | every run with links is a run of the protocol, so what is proved of those runs holds with the links in place |
| `MessageProtocol.NextKeepsInv` | os/ipc.c:2053-2542 | every critical section, byte copy, timeout and reset by any thread keeps cell ownership, wait lists, bytes and wakeup counts right |
| `MessageProtocol.NoLostWakeup` | os/ipc.c:2053-2542 | in every reachable state a waiting receiver and a message (a waiting sender and a free cell) mean a woken one on its way; in general at least as many woken as there is to be had |
| `MessageProtocol.CellsConserved` | os/ipc.c:2053-2542 | in every reachable state each cell is queued, free, or held by exactly one thread; the queue never outgrows the pool; with all threads idle and an empty queue every cell is free |
| `MessageProtocol.DeliveredAsSent` | os/ipc.c:2452 | the bytes a receiver has copied are those its message was sent with, whatever runs between |
| `MessageProtocol.StepOrder` | os/ipc.c:2170-2300 | a step puts a message last, an urgent one first, or takes the first |
| `MessageProtocol.QueueIsFifo` | os/ipc.c:2053-2480 | over whole runs without urgent sends and resets, messages come out in the order they were linked |
| `MessageProtocol.NextOwned` | os/ipc.c:2053-2542 | no step lets a cell be in two places or in none |
| `MessageProtocol.FillByteBytes` | os/ipc.c:2166 | a byte stored into a sender's cell disturbs nobody else's message |
| `Mailbox.Box.Store` | os/ipc.c:1600-1616 | appends the mail, or reports a full box and changes nothing; the ring wraps at its size |
| `Mailbox.Box.Fetch` | os/ipc.c:1757-1769 | takes the oldest mail, or reports that there is none |
| `Mailbox.Box.Reset` | os/ipc.c:1823-1825 | the box is empty |
| `Mailbox.StoreAppends` | os/ipc.c:1600-1605 | storing at the input offset appends to what the offsets delimit, around the end too |
| `Mailbox.NextKeepsInv` | os/ipc.c:1507-1836 | every send, receive, timeout and reset keeps the ring, the wait lists and the wakeup counts right |
| `Mailbox.NoLostWakeup` | os/ipc.c:1507-1836 | in every reachable state waiting receivers imply at least as many woken ones as there are mails, waiting senders as many as there are free places |
| `Mailbox.MailboxIsFifo` | os/ipc.c:1507-1792 | over every run without a reset mails come out in the order they went in |
| `MemoryPool.Pool.constructor` | os/mempool.c:104-121 | all blocks are free, in address order |
| `MemoryPool.Pool.Take` | os/mempool.c:319-382 | the first free block leaves the in-band list and is marked as handed out; with none left nothing changes |
| `MemoryPool.Pool.GiveBack` | os/mempool.c:419-423 | the block becomes the first free one |
| `MemoryPool.NoLostWakeup` | os/mempool.c:303-449 | in every reachable state waiting threads imply at least as many woken ones as there are free blocks |
| `MemoryPool.NextKeepsInv` | os/mempool.c:303-449 | each block is free or handed out, never both, through every step |
| `MemoryPool.LastBackFirstOut` | os/mempool.c:371-423 | a block given back with nobody waiting is the next to be handed out, and the pool is as before |
| `Semaphore.Object.Take` | os/ipc.c:327-412 | a unit is taken, or the thread waits in line, or times out at once |
| `Semaphore.Object.Release` | os/ipc.c:436-484 | the first waiter gets the unit, or the value grows, or it is at its limit and nothing changes |
| `Semaphore.UnitsAreConserved` | os/ipc.c:327-484 | over any run initial value plus releases equals value plus takes, and a positive value means no waiter |
| `Semaphore.UnitsBalance` | os/ipc.c:327-484 | over any run without a reset the calls of release that succeed give as many units as the calls of take that succeed receive, plus those on their way to a woken thread, plus the change of the value |
| `Semaphore.ReleaseGivesOne` | os/ipc.c:457-473 | every release but one at the limit gives exactly one unit, to the first waiter or to the value |
| `Event.Object.Send` | os/ipc.c:1098-1157 | one pass wakes each waiter whose condition the flags left by the earlier ones satisfy |
| `Event.ScanIsComplete` | os/ipc.c:1103-1157 | after a send nobody left waiting is satisfied by the flags that remain, although flags are cleared during the scan |
| `Event.ScanConserves` | os/ipc.c:1113-1148 | the flags before the scan are those that remain and those taken away, and no flag is taken twice |
| `Event.ScanKeepsAll` | os/ipc.c:1107-1156 | every waiter is woken with flags it asked for or left in line |
| `Event.NobodyForgotten` | os/ipc.c:1078-1342 | in every reachable state no waiter is satisfied by the current flags |
| `Mutex.Object.Take` | os/ipc.c:667-812 | the owner's hold count grows to its limit, a free mutex is taken, or the taker waits and lends its priority; each outcome exactly when |
| `Mutex.Object.Wait` | os/ipc.c:752-764 | the owner becomes as urgent as the taker, who joins the waiters in priority order |
| `Mutex.Object.Release` | os/ipc.c:823-930 | only the owner releases; the last release restores its priority and hands the mutex over |
| `Mutex.NextKeepsInv` | os/ipc.c:667-930 | every take, release, timeout and return keeps the inheritance invariant |
| `Mutex.OwnerIsUrgent` | os/ipc.c:752-764 | in every reachable state the owner is at least as urgent as every waiter, all others have their own priority, and the owner's is its own or that of a thread that has waited for it |
| `Mutex.WaitersInOrder` | os/ipc.c:667-930 | in every reachable state waiters are sorted, imply an owner, and value, hold count and owner agree |
| `Mutex.FullRelease` | os/ipc.c:866-919 | full release gives the priority at acquisition back and the mutex to the most urgent, longest waiting thread |
| `Mutex.HandedOver` | os/ipc.c:875-902 | a waiter that leaves the list by another thread's doing leaves as the owner |
| `Mutex.SettledOnce` | os/ipc.c:784-802 | a thread handed the mutex, or timed out, stays so until it returns from the call: never both |
| `Mutex.ExpiredIsNotOwner` | os/thread.c:832-854 | a timeout takes the thread off the list and does not make it the owner; the lent priority stays |
| `TimerList.WrappedOrder` | os/timer.c:374-381 | within half the range the wrapped 32-bit difference tells equal, later and earlier apart |
| `TimerList.Timers.Start` | os/timer.c:315-428 | wherever it was, the timer is queued behind the last deadline not later than its own; the rows stay subsequences of the queue |
| `TimerList.Timers.Seek` | os/timer.c:360-382 | the walk along a row ends at the timer's place in that row |
| `TimerList.Timers.Heads` | os/timer.c:357-385 | going down a row at the timer where the walk left the row above finds the place in every row |
| `TimerList.Timers.Link` | os/timer.c:391-406 | the timer enters the last row and, while pairs of low counter bits are zero, the rows above |
| `TimerList.Timers.Remove` | os/timer.c:136-144 | the timer leaves every row and nothing else changes |
| `TimerList.Timers.Stop` | os/timer.c:438-462 | an active timer is dequeued, an inactive one refused |
| `TimerList.Timers.NextTimeout` | os/timer.c:114-134 | the tick of the earliest deadline, or the largest tick when nothing is queued |
| `TimerList.Timers.Check` | os/timer.c:529-596 | exactly the timers due fire, in order of deadline and then of start; periodic ones are queued again; the loop ends with nothing due |
| `TimerList.DueAreFirst` | os/timer.c:545-590 | the timers that fire are all the due ones, sorted |
| `TimerList.RowsNest` | os/timer.c:387-406 | each row is a sorted subsequence of the row below |
| `TimerList.TallInsert` | os/timer.c:394-406 | inserting at the place found in each row is the same as inserting in the queue and taking the tall timers |
| `Tiling.ReleaseKeeps` | os/mem.c:156-194 | releasing a block and merging it with its neighbours keeps a coalesced tiling and lowers the use by the block's extent |
| `Tiling.ReleaseKeepsUsed` | os/mem.c:552-615 | every other used block stays |
| `SmallMem.Heap.constructor` | os/mem.c:204-257 | the aligned range less two headers is one free block |
| `SmallMem.Heap.Malloc` | os/mem.c:272-410 | the lowest fitting free block is handed out, split when a useful rest remains; use, peak and lowest free block follow; no payload changes; otherwise nothing changes |
| `SmallMem.Heap.Free` | os/mem.c:552-615 | the block is released and merged, no other payload changes; pointers outside the heap are ignored |
| `SmallMem.Heap.PlugHoles` | os/mem.c:156-194 | the freed block is merged with free neighbours on both sides, links and lowest free block kept right |
| `SmallMem.Heap.Realloc` | os/mem.c:421-516 | keeps, cuts or moves the block with its contents as far as both sizes go; all other live blocks stay; a null result for a size that does not round to zero changes nothing |
| `SmallMem.FailsExactly` | os/mem.c:277-311 | malloc fails exactly for size zero, more than the heap, or when no fitting free block lies strictly below the limit |
| `SmallMem.FindsLowest` | os/mem.c:305-311 | the block taken is the lowest that fits |
| `SmallMem.LastExactFitRefused` | os/mem.c:306 | a free block of exactly the requested size at the end of the heap is refused |
| `SmallMem.RequestCovers` | os/mem.c:289-300 | the payload covers the request if and only if rounding up does not wrap at 32 bits |
| `SmallMem.WrappedRequest` | os/mem.c:289 | a request of nearly four gigabytes is given twelve bytes |
| `SmallMem.RoundsToZero` | os/mem.c:431-441 | realloc treats a size as zero, and releases the block, exactly when it is zero or rounding it up wraps |
| `SmallMem.AllocLive` | os/mem.c:311-370 | one used block is new and all others stay where they were |
| `SmallMem.LinkedCarve` | os/mem.c:329-348 | after a split all forward and backward links are right again |
| `SmallMem.LinkedFuse` | os/mem.c:178-192 | after a merge all forward and backward links are right again |
| `MemHeapPool.Pool.Alloc` | os/memheap.c:138-281 | the first block in the free list with room is handed out, split when a useful rest remains: one used block more, with room for the request; null exactly without such a block or below the total room, and nothing changes |
| `MemHeapPool.Pool.Free` | os/memheap.c:495-595 | the block is released, merged left and right, and enters the free list unless its left neighbour is there |
| `MemHeapPool.Pool.Realloc` | os/memheap.c:284-492 | shrinks, stays or grows in place where it can, otherwise moves with the bytes both sizes have in common, or changes nothing when there is no room; no used block loses a byte |
| `MemHeapPool.Pool.Scan` | os/memheap.c:170-180 | the walk along the free ring stops at the first block in the free list with room |
| `MemHeapPool.Pool.constructor` | os/memheap.c:47-108 | one free block, on a ring with the tailer and on the free ring, over the aligned region less two headers |
| `MemHeapPool.Pool.TakeBlock` | os/memheap.c:187-256 | the stores on both rings leave them visiting the blocks and the free list of MemHeap.Grant |
| `MemHeapPool.Pool.ReleaseBlock` | os/memheap.c:535-591 | the flag, the merges to the left and to the right and the place in the free ring leave them visiting those of MemHeap.Reclaim |
| `MemHeapPool.Pool.GrowBlock` | os/memheap.c:350-396 | the free block behind is unlinked from both rings and linked in anew behind the larger block, as in MemHeap.Grow |
| `MemHeapPool.Pool.ShrinkBlock` | os/memheap.c:432-485 | a header for the rest enters both rings and takes in a free block behind it, as in MemHeap.Shrink |
| `MemHeapPool.Pool.Move` | os/memheap.c:403-412 | the new home holds the old bytes before the old home is released; without one nothing changes |
| `MemHeapPool.FlagsTell` | os/memheap.c:544-569 | the flags behind a block's two links tell exactly whether its neighbours are free, the tailer counting as used |
| `MemHeapPool.CutStrung` | os/memheap.c:210-213 | the four stores that link in a header leave the block ring visiting exactly the split tiling |
| `MemHeapPool.JoinedStrung` | os/memheap.c:552-573 | the two stores that unlink a header leave it visiting exactly the merged tiling |
| `MemHeapPool.NewHome` | os/memheap.c:403-408 | a block just handed out shares no byte with any used block, so copying into it disturbs none |
| `MemHeap.GrantKeepsInv` | os/memheap.c:183-258 | allocation keeps tiling, free list, available size and peak right |
| `MemHeap.ReleaseKeepsInv` | os/memheap.c:535-591 | release and both merges keep them right |
| `MemHeap.GrowKeepsInv` | os/memheap.c:350-396 | growing into the next free block keeps them right |
| `MemHeap.ShrinkKeepsInv` | os/memheap.c:432-485 | cutting down in place keeps them right |
| `MemHeap.FailsExactly` | os/memheap.c:155-183 | allocation fails exactly when no free block has room or the request is not below the total room |
| `MemHeap.WholeRoomRefused` | os/memheap.c:155 | a heap with one free block refuses a request for all of it |
| `PageAllocator.Pages.AllocPages` | os/slab.c:236-270 | the walk along the page list takes the lowest run that is large enough, or reports none |
| `PageAllocator.Pages.FreePages` | os/slab.c:272-322 | the walk along the page list puts the pages back where they belong and merges |
| `PageAllocator.AllocFacts` | os/slab.c:246-269 | allocation keeps the list canonical, takes exactly the pages it returns, fails exactly when there are no such consecutive free pages, and otherwise returns the lowest place |
| `PageAllocator.FreeFacts` | os/slab.c:286-317 | release keeps the list canonical and frees exactly those pages |
| `PageAllocator.CanonicalIsUnique` | os/slab.c:224-234 | the list is determined by the set of free pages: it is the list of their maximal runs |
| `Slab.ZoneIndexFits` | os/slab.c:401-459 | every request is rounded up to the chunk size of a list below 72, by less than an eighth for larger ones |
| `Slab.SameListSameSize` | os/slab.c:401-459 | two requests share a list exactly when they share a chunk size |
| `Slab.ChooseZoneSize` | os/slab.c:375-381 | the zone size is the smallest of 32, 64 and 128 kilobytes that the heap size calls for |
| `Slab.TwoChunksFit` | os/slab.c:628-643 | every size the zones serve leaves room for two chunks at least |
| `Slab.Fresh` | os/slab.c:343-393 | the heap starts with the pages behind the usage table free and the zone size the heap size calls for |
| `SlabAlignment.ChunkAlignedExactly` | os/slab.c:624-650 | in every state a live power-of-two chunk is at a multiple of its size if and only if its zone's page is |
| `SlabAlignment.ChunkAligned` | os/slab.c:631-638 | up to the page size it always is |
| `SlabAlignment.AlignedExactly` | os/slab.c:624-650 | wherever the heap's page lies, power-of-two chunks are aligned in every reachable state if and only if their size is at most a page |
| `SlabAlignment.FirstChunkUnaligned` | os/slab.c:624-650 | on a fresh heap of a hundred pages the first request for 8000 bytes gets an unaligned chunk of 8192 |
| `SlabPages.PagesConserved` | os/slab.c:478-904 | after any run every page is the usage table's, free, or owned by exactly one zone or large block |
| `Slab.ChunksApart` | os/slab.c:635-648 | chunks lie inside their zone, do not overlap, and are aligned within it when their size is a power of two |
| `Slab.TakeChunkFacts` | os/slab.c:541-568 | the chunk handed out was not live, the counters still agree, and no other chunk changes |
| `Slab.GiveChunkFacts` | os/slab.c:830-842 | the chunk given back is no longer live, the counters still agree, and no other chunk changes |
| `Slab.WhollyFree` | os/slab.c:854-855 | the free counter reaches the maximum exactly when no chunk is live |
| `Slab.MallocInv` | os/slab.c:478-667 | allocation keeps zones, lists, page usage and page ownership right |
| `Slab.MallocLive` | os/slab.c:478-667 | a successful allocation makes one pointer live that was not; a failed one changes nothing |
| `Slab.ReleaseInv` | os/slab.c:771-904 | release keeps them right, and at most two free zones are kept |
| `Slab.ReleaseLive` | os/slab.c:771-904 | release makes exactly that pointer not live, although the whole zone may go |
| `Slab.ReallocInv` | os/slab.c:678-735 | resizing keeps them right; on failure the old pointer stays live, on success the new one replaces it |
| `Slab.LiveDisjoint` | os/slab.c:478-667 | live chunks and large blocks never share a byte |
| `Slab.UsageFindsZone` | os/slab.c:795-828 | from any byte of a live chunk the page usage leads back to its zone |
| `Slab.Run` | os/slab.c:478-904 | the invariant holds after any run of allocations, releases and resizes |
| `Scheduler.FirstSetIsLowest` | os/kservice.c:1323-1337 | zero for a word without bits, otherwise the number of the lowest bit, counted from one |
| `Scheduler.ReadyTable.InsertThread` | os/scheduler.c:284-321 | the thread is last on the list of its priority and the bits are set, in one level or two |
| `Scheduler.ReadyTable.RemoveThread` | os/scheduler.c:330-370 | the thread leaves its list; bits are cleared only when the list, and the group bit only when the whole byte, is empty |
| `Scheduler.ReadyTable.SuspendThread` | os/thread.c:746-779 | a ready thread leaves the table; anything else is refused |
| `Scheduler.ReadyTable.ResumeThread` | os/thread.c:789-823 | a suspended thread becomes ready; anything else is refused |
| `Scheduler.ReadyTable.SetPriority` | os/thread.c:669-710 | a ready thread moves to the end of the list of its new priority |
| `Scheduler.ReadyTable.Reschedule` | os/scheduler.c:187-275 | with the lock free the head of the list the bitmap points at runs |
| `Scheduler.HighestIsMostUrgent` | os/scheduler.c:201-208 | the bitmap search finds the most urgent list that is not empty, in one level or two |
| `Scheduler.ScheduleRunsMostUrgent` | os/scheduler.c:197-221 | with an idle thread ready the head of the most urgent list that is not empty becomes the running thread |
| `Scheduler.NextKeepsInv` | os/thread.c:291-854 | start, suspend, resume, block on a list, timeout, priority change, yield, close and lock keep each ready thread on the list of its priority and no other, the bitmap exact, a suspended thread on at most one wait list and every other on none, exactly if no blocking call is made by a thread that stands on a wait list |
| `Scheduler.BlockExactly` | os/ipc.c:80-126 | linking the caller into a wait list keeps this if and only if the caller is ready, or suspended and on no wait list |
| `Scheduler.OneListEach` | os/thread.c:291-854 | over every run without such a call each thread is on one list at most, ready or waiting, and a ready one only on that of its priority |
| `Scheduler.PromptRunsAreSafe` | os/ipc.c:80-126 | no such call is made in a run where the scheduler is never locked and a thread that stops is rescheduled at once |
| `Scheduler.BlockedTwiceUnderLock` | os/ipc.c:84-88 | under the scheduler lock a thread that blocks twice is left on two wait lists |
| `Scheduler.LockedStateReached` | os/scheduler.c:375-391 | two threads started, a schedule and a lock reach that state |
| `Scheduler.ReadyTable.BlockThread` | os/ipc.c:80-126 | the caller leaves the table if it was ready and enters the wait list at its place either way |
| `Scheduler.ReadyTable.DetachThread` | os/thread.c:330-376 | a thread, ready or suspended, leaves the table and its wait list for good |
| `Scheduler.ReadyTable.StartThread` | os/thread.c:291-320 | a new thread becomes ready at its initial priority |
| `Scheduler.YieldKeepsInv` | os/thread.c:484-518 | a yield keeps lists and bitmap right |
| `Scheduler.AlwaysMostUrgent` | os/scheduler.c:187-275 | after any run of kernel calls scheduling runs a thread no ready thread is more urgent than |
| `RoundRobin.Clock.TickIncrease` | os/clock.c:67-89 | the running thread's slice shrinks; used up, it is refilled and the thread goes to the end of its list |
| `RoundRobin.FirstRunsAfter` | os/clock.c:67-89 | the thread at place i first runs after exactly the remaining ticks of those before it |
| `RoundRobin.AfterTurns` | os/thread.c:484-518 | after those ticks the first i threads stand at the end with full slices and nobody else has run |
| `RoundRobin.FullRotation` | os/clock.c:67-89 | after everybody's remaining ticks the line stands as before with all slices full, so nobody has a second turn before everybody has had one |
| `Event.Object.Recv` | os/ipc.c:1182-1260 | flags asked for are received, and cleared on request, if they satisfy the caller; otherwise it waits at the place in line its flag and priority give it, or times out; an empty request is refused |
| `SlabHeap.Heap.ZoneIndex` | os/slab.c:401-459 | the nested size ranges compute the list and the rounded size of every request below 16 kilobytes |
| `SlabHeap.Heap.Malloc` | os/slab.c:478-667 | the call in place has exactly the effect of Slab.Malloc and returns the address of the pointer made live |
| `SlabHeap.Heap.Lookup` | os/slab.c:795-828 | from an address alone the usage table, the zone header and the distance from the first chunk give back the pointer it belongs to |
| `SlabHeap.Heap.Free` | os/slab.c:771-904 | the call in place has exactly the effect of Slab.Release on the pointer with that address; the counter of free zones stays their number |
| `SlabHeap.Heap.Realloc` | os/slab.c:678-735 | the call in place has exactly the effect of Slab.Realloc and returns the address of the new place |
| `SlabHeap.Heap.Retire` | os/slab.c:854-898 | a wholly free zone leaves its list for the free zones, and when there are more than two its pages go back |
| `SlabHeap.DecodesChunk` | os/slab.c:795-828 | page usage and division by the chunk size recover zone and chunk from the address of any live chunk |
| `SlabHeap.MallocKeeps` | os/slab.c:478-667 | no allocation moves or resizes what is live |
| `FinshHeap.Heap.constructor` | components/finsh/finsh_heap.c:36-49 | one free block over the whole buffer and no allocated one |
| `FinshHeap.Heap.InsertBlock` | components/finsh/finsh_heap.c:147-181 | the block is linked in at its address; put last, it keeps its own link, so that link has to be null already |
| `FinshHeap.StaleLinkShows` | components/finsh/finsh_heap.c:179-180 | putting a block behind the whole list is right if and only if its own link is null |
| `FinshHeap.Heap.RemoveBlock` | components/finsh/finsh_heap.c:186-208 | the block is unlinked; unless it was first its own link stays as it was |
| `FinshHeap.Heap.SplitBlock` | components/finsh/finsh_heap.c:213-227 | the rest gets a header and comes next in the list |
| `FinshHeap.Heap.MergeBlock` | components/finsh/finsh_heap.c:229-279 | the block is joined with the members it touches on either side, links and lengths following |
| `FinshHeap.Heap.Free` | components/finsh/finsh_heap.c:96-109 | exactly the block is released and joined with its free neighbours; both lists stay in address order; the stale link is never used |
| `FinshHeap.FreedCanonical` | components/finsh/finsh_heap.c:96-109 | release keeps the tiling coalesced and the last block free |
| `FinshHeap.CarvedCanonical` | components/finsh/finsh_heap.c:54-91 | allocation keeps the tiling coalesced and the last block free, because a split always leaves a block behind |
| `FinshHeap.FreedLengths` | components/finsh/finsh_heap.c:229-279 | what the address comparisons of a merge do to lists and lengths is what joining neighbours does to the tiling |
| `FinshHeap.Heap.Collect` | components/finsh/finsh_heap.c:114-142 | the collector leaves exactly the allocated blocks some variable points to, although the list changes under its walk |
| `FinshHeap.Heap.Search` | components/finsh/finsh_heap.c:61-63 | the lowest free block with enough room, or none |
| `FinshHeap.Heap.Allocate` | components/finsh/finsh_heap.c:54-91 | the lowest free block with more than enough room is split, or after collecting one with just enough; the payload is cleared and no other byte; null exactly when nothing fits then |
| `FinshHeap.FailsExactly` | components/finsh/finsh_heap.c:67-78 | an allocation fails exactly when nothing fits between the blocks that variables point to, whether or not the collector ran |
| `FinshHeap.CollectingOnlyJoins` | components/finsh/finsh_heap.c:114-142 | collecting never loses room |
| `FinshHeap.TilingIsUnique` | components/finsh/finsh_heap.c:36-279 | the allocated blocks determine the whole heap |
| `FinshHeap.LiveDisjoint` | components/finsh/finsh_heap.c:36-279 | allocated blocks share no byte and stay inside the buffer |
| `FinshHeap.SpaceNeeded` | components/finsh/finsh_heap.c:61-75 | the space compared with a block's length is the space needed if and only if the rounded size is below 2^32 - 8; beyond, the sum compared is at most 4 |
| `FinshHeap.SplitsItself` | components/finsh/finsh_heap.c:64-75 | from 2^32 - 8 on the header of the rest would be written over the block's own, at its start or four bytes into it |
| `FinshHeap.RequestCovers` | components/finsh/finsh_heap.c:58 | the payload covers the request if and only if rounding up does not wrap at 32 bits |
| `FinshWords.DivisionTruncates` | components/finsh/finsh_ops.c:94-122 | on the signed numbers quotient and remainder make up the dividend, the remainder is smaller than the divisor and has the dividend's sign |
| `FinshWords.ShiftsAreArithmetic` | components/finsh/finsh_ops.c:248-276 | the shift to the right is the floor of the division by the power of two, the one to the left the product up to multiples of 2^32 |
| `FinshWords.ArithmeticWraps` | components/finsh/finsh_ops.c:50-144 | sums, differences and products are exact where 32 bits hold them and right up to multiples of 2^32 elsewhere |
| `FinshWords.BitsCombine` | components/finsh/finsh_ops.c:160-210 | every bit of a conjunction, disjunction or exclusive disjunction is that of the two bits |
| `FinshWords.ComplementBits` | components/finsh/finsh_ops.c:226-232 | the complement turns every bit over |
| `FinshTree.UpdatesAreAssignments` | components/finsh/finsh_compiler.c:24-738 | an assignment stores its right side, has its value and touches nothing else; increments are such assignments, and their postfix forms have the value from before |
| `FinshCorrectness.WideIsDword` | components/finsh/finsh_compiler.c:785-823 | the type check gives 32 bits to exactly the variables declared as integers, longs or pointers |
| `FinshCorrectness.FragmentRootType` | components/finsh/finsh_compiler.c:740-882 | it makes void exactly the expressions that begin with a call |
| `WaitList.JoinsInLine` | os/ipc.c:80-126 | the newcomer is last where first come is first served, else behind everybody at least as urgent and before the first less so; the others keep their order |
| `WaitList.FifoInsert` | os/ipc.c:91-95 | a first-come list gets the newcomer last |
| `MessageSteps.SendTakesOrWaits` | os/ipc.c:2084-2166 | a send has the first free cell, or waits in its place in line, or, urgent or out of time, returns with nothing done |
| `MessageSteps.RecvTakesOrWaits` | os/ipc.c:2367-2446 | a receive has the first message, or waits in its place in line, or, out of time, returns with nothing done |
| `MessageSteps.LinkWakesFirst` | os/ipc.c:2170-2212 | a linked message wakes the first receiver in line and nobody else |
| `MessageSteps.GiveBackWakesFirst` | os/ipc.c:2455-2480 | a cell given back wakes the first sender in line and nobody else |
| `MessageSteps.CopiesOneByte` | os/ipc.c:2166 | the copy moves a byte at a time in the thread's own cell |
| `MessageSteps.TimerEndsWaiting` | os/thread.c:832-854 | a timeout takes its thread out of line and out of the call and leaves all else alone |
| `MessageSteps.ResetEndsWaiting` | os/ipc.c:2494-2542 | a reset sends everybody who waits out of the call, nobody else, and makes every queued cell free |
| `MessageSteps.ReceiverWaitsUntil` | os/ipc.c:2367-2431 | a waiting receiver waits until a message is linked while it is first in line, its timer runs out, or the queue is reset |
| `MessageSteps.SenderWaitsUntil` | os/ipc.c:2091-2156 | a waiting sender waits until a cell is given back while it is first in line, its timer runs out, or the queue is reset |
| `MessageSteps.WhoMayStep` | os/ipc.c:2053-2542 | which thread may take which step; any other step changes nothing |
| `Mailbox.SendStores` | os/ipc.c:1600-1616 | a send into a box with room appends the mail |
| `Mailbox.SendWakesFirst` | os/ipc.c:1619-1630 | and wakes the first receiver in line, and nobody else |
| `Mailbox.SendWaits` | os/ipc.c:1537-1598 | into a full box it waits in its place in line, or, out of time, returns with nothing done |
| `Mailbox.RecvTakes` | os/ipc.c:1755-1769 | a receive from a box with mail takes the oldest |
| `Mailbox.RecvWakesFirst` | os/ipc.c:1771-1784 | and wakes the first sender in line, and nobody else |
| `Mailbox.RecvWaits` | os/ipc.c:1692-1753 | from an empty box it waits in its place in line, or, out of time, returns with nothing done |
| `Mailbox.WaitingEnds` | os/ipc.c:1804-1836 | a timeout takes its thread out of line, a reset everybody who waits, and nobody else |
| `MemoryPool.AllocTakesOrWaits` | os/mempool.c:303-386 | an allocation has the first free block, or waits, first in line, or, out of time, returns with nothing done |
| `MemoryPool.FreeWakesFirst` | os/mempool.c:399-449 | a block given back is the first free one and wakes the first thread in line, and nobody else |
| `Semaphore.TakeTakesOrWaits` | os/ipc.c:327-412 | a take has a unit if there is one; otherwise it waits in its place in line, or nothing is done when it has no time |
| `Semaphore.WaitingEnds` | os/ipc.c:496-530 | timeouts, returns and resets move exactly the threads concerned |
| `Mutex.OwnerTakesAgain` | os/ipc.c:694-710 | the owner's next take adds one hold, up to the limit, and nothing else |
| `Mutex.FreeIsTaken` | os/ipc.c:713-735 | a free mutex is the taker's, held once, with the priority to be given back |
| `Mutex.OthersIsWaitedFor` | os/ipc.c:737-780 | somebody else's mutex is waited for in line, and the owner is as urgent as the two; without time nothing happens |
| `Mutex.InnerRelease` | os/ipc.c:862-864 | while more than one hold is left a release gives up one and nothing else; nobody but the owner releases |
| `Mutex.OuterReleaseElsewhere` | os/ipc.c:866-919 | the last release moves nobody but the first waiter and no priority but the owner's |
| `Mutex.LeavesQuietly` | os/ipc.c:784-802 | a timeout takes its thread out of line, a return out of the call, and nothing else changes |
| `Mutex.HeldUntil` | os/ipc.c:667-930 | over any run in which the owner's releases have not caught up with its successful takes it stays the owner, and the hold count is the difference |
| `Mutex.GivenUpWhenEven` | os/ipc.c:667-930 | the owner gives the mutex up at the release that makes its releases as many as its successful takes, and not before |
| `Event.SatisfiedMeans` | os/ipc.c:1114-1132 | satisfied means all flags wanted are there, or some flag is both wanted and there |
| `Event.ScanOne` | os/ipc.c:1111-1148 | a lone waiter gets what it wants of the flags if they satisfy it and takes it away if it clears |
| `Event.ScanInOrder` | os/ipc.c:1103-1157 | waiters are served in line, those further back from what those in front have left |
| `Event.WaitingEnds` | os/ipc.c:1314-1342 | a timeout takes the one waiter out of line, a reset clears the flags and sends everybody away |
| `SlabSizes.MallocCovers` | os/slab.c:478-667 | what an allocation hands out is as long as the request: a chunk of the shortest size that is, or whole pages with less than a page to spare |
| `SlabSizes.ReallocCovers` | os/slab.c:678-735 | so is what a resize hands out |
| `SlabSizes.ShortestThatFits` | os/slab.c:401-459 | of the chunk sizes long enough a request gets the shortest |
| `SlabSizes.MallocKeepsLength` | os/slab.c:478-667 | no allocation shortens what is live |
| `SlabSizes.ReleaseKeepsLength` | os/slab.c:771-904 | nor does a release, except of what is released |
| `SlabSizes.FailsExactly` | os/slab.c:478-667 | an allocation fails exactly for size zero, for sizes that wrap when rounded to pages, and when no pages, or neither a free chunk, nor a kept zone, nor pages for a new zone, are to be had |
| `SlabSizes.PagesTakenLast` | os/slab.c:541-596 | chunks come from open zones first, then from zones kept for later, and only then are pages taken |
| `SlabSizes.EmptyZonesGo` | os/slab.c:854-898 | a zone goes with its last live chunk unless it is the only open one of its size: it is kept if fewer than two are, else its pages are free; no other zone goes |
| `SlabHeap.Heap.Move` | os/slab.c:700-731 | the new place holds what both have in common before the old one is released, and no live byte is lost |
| `MemHeapSizes.RequestCovers` | os/memheap.c:148-150 | the size looked for covers the request if and only if rounding does not wrap, by less than the alignment or up to the minimum |
| `MemHeapSizes.GrantUsed` | os/memheap.c:183-258 | an allocation makes one used block more, with room for the request and less than a minimal block beyond |
| `MemHeapSizes.ReclaimUsed` | os/memheap.c:535-591 | a release makes one used block fewer |
| `MemHeapSizes.GrowUsed` | os/memheap.c:350-396 | a block that grows in place has exactly the size looked for, and all others stay |
| `MemHeapSizes.ShrinkUsed` | os/memheap.c:432-485 | so has one that shrinks |
| `MemHeapSizes.ResizedHands` | os/memheap.c:284-492 | a resize hands out a used block with room for the request in place of the old one, and leaves all other used blocks as they were |
| `SchedulerSteps.StartsLast` | os/thread.c:291-320 | a thread that starts is ready, with its first priority, behind those of that priority |
| `SchedulerSteps.SuspendLeaves` | os/thread.c:746-779 | suspending takes a ready thread off its list; any other is refused |
| `SchedulerSteps.ResumeIsLast` | os/thread.c:789-823 | resuming puts a suspended thread behind those of its priority and out of every line; any other is refused |
| `SchedulerSteps.TimeoutResumes` | os/thread.c:832-854 | a timeout is a resume and a reschedule |
| `SchedulerSteps.BlockJoins` | os/ipc.c:80-126 | a ready thread that blocks leaves its ready list for its place in the wait list |
| `SchedulerSteps.PriorityMovesLast` | os/thread.c:669-710 | a new priority holds from then on; a ready thread goes from its list to the end of the new one, which may be the same |
| `SchedulerSteps.YieldMovesLast` | os/thread.c:484-518 | a yield sends the running thread to the end of its list; alone there, or not ready, it stays |
| `SchedulerSteps.CloseLeaves` | os/thread.c:330-376 | a closed thread is on no list, ready or waiting |
| `RttRing.AcceptedFits` | board/rtt/SEGGER_RTT.c:1065-1099 | skip is all or nothing, trim the most that fits |
| `JpegFraming.FrameMeans` | applications/eth_camera.c:84-97 | a frame is at least 100 bytes, begins with 0xFF 0xD8, ends with 0xFF 0xD9, and has those two nowhere else |
| `RttRing.WriteAlone` | board/rtt/SEGGER_RTT.c:1058-1107 | byte by byte, with the reader at rest, a call that does not wait publishes all its bytes if they fit, else none, or the longest prefix that does |
| `RttRing.BlockingTurn` | board/rtt/SEGGER_RTT.c:332-374 | a call that waits publishes in every turn what fits before the reader or the ring's end, nothing only if the ring is full, and is over when all is out |
| `RttRing.ReadAlone` | board/rtt/SEGGER_RTT.c:530-604 | a read call takes the longest prefix of the published bytes that fits and frees their slots |
| `MessageLinks.EveryRunHasLinks` | os/ipc.c:2053-2542 | every run of the protocol is what some run with links goes through |
| `Event.SendScans` | os/ipc.c:1078-1157 | a send of no flags is refused; any other adds its flags and scans the waiters in line |
| `Event.RecvTakesOrWaits` | os/ipc.c:1183-1310 | flags that are there are received, and cleared if asked; otherwise the caller waits in its place in line, or nothing is done when it has no time |
| `TimerList.HeightFollowsBits` | os/timer.c:387-406 | the counter steps by one modulo 2^32, and a timer goes up one row for every two low bits of it that are all zero |
| `SlabSizes.FirstChunkExactly` | os/slab.c:627-638 | chunks begin at the first address behind the header that is a multiple of a power-of-two chunk size, or else of eight |
| `SlabSizes.LastBackFirstOut` | os/slab.c:558-565 | when all chunks of a zone have been handed out once, the one given back last is the next |
| `SlabSizes.ResizeToNothing` | os/slab.c:684-689 | resizing to nothing is a release |
| `FinshHeap.RootedMeans` | components/finsh/finsh_heap.c:114-142 | a block is kept exactly if some variable that counts as a pointer has its payload's address |

## Left out

- Board, HAL, display, camera and network drivers, the user interface, device and object bookkeeping, signals:
  hardware or library plumbing.
- Thread context switching: a thread is the place it has reached in a call. Ticks left after a wakeup become a
  free choice whether any waiting time is left.
- Nested mutexes, FIFO mutexes, priority changes by other calls and waiting threads whose priority changes: the
  code does not keep the inheritance invariant there. Deletion of threads that are woken but have not run yet,
  and resuming a waiter from outside the object it waits on: both break the wakeup counts.
- Detaching and deleting of kernel objects other than threads.
- FinSH byte and word expressions, pointer dereference, increments of system variables, and null
  statements. The node table is a datatype, and the type check returns the annotated tree where
  the C code writes the annotations into the nodes.
- `FinshShell.RunLine`: lines whose nodes fit the table and whose code fits the text segment; the C compiler does not
  check the latter.
- Division by zero, oversized shifts and system calls of FinSH expressions: parameters of the host, the same for
  meaning and machine.
- `RttRing.Ring.WriteBlocking`: the host's reads between the polls are a given finite schedule, so that a write
  that would wait for ever ends undone; the interleaving model has no such limit.
- `JpegFraming.StreamLoop`: write errors and reconnecting are left out; every accepted frame is taken as fully sent.
- `TimerList.Timers.Check`: the callbacks leave the timers alone and the tick stands still while interrupts are
  off; soft timers and their thread are left out. All queued deadlines lie in one half-range window, as callers
  are told to keep it, and periodic timers have a period of at least one tick.
- `SmallMem.Heap.Realloc`: the peak after a move is stated by `SmallMem.Heap.Move` only, which counts both blocks.
- `SmallMem.Linked`: the end mark's link to its predecessor is not kept up by the code on a split and is not
  stated. Headers are kept decoded beside their bytes; writing one overwrites its twelve bytes.
- `MemHeapPool.Pool`: headers are kept decoded beside the bytes; their pool pointer and the locking semaphore are
  left out.
- `SlabHeap.Heap.Malloc`, `Slab.MallocInv`: the used-memory statistics and the points where the heap lock is given up
  are left out. Zone headers are records by zone address.
- `SlabHeap.Heap.Realloc`: the bytes are kept beside the zone headers, the usage table and the links of free chunks.
- `Scheduler.ReadyTable.SuspendThread`, `Scheduler.ReadyTable.ResumeThread`: the thread's timer is left out; its
  expiry is a step of the state machine.
- `Event.Scan`: a 32-bit word of flags is the set of its bits. `Scheduler.Word`: a word is its 32 bits, and the
  256-entry table of lowest bits is the search for the lowest bit of a byte.
- `MemoryPool.Pool.constructor`: the pool has at least one block; the C code writes before the pool otherwise.
- `TimerList.Timers`, `Mutex.Object`, `Scheduler.ReadyTable`: linked lists are the sequences they visit.
- Hooks, statistics output, debug assertions and tracing.
- `FinshHeap.Heap.Allocate`: sizes that round up to 2^32 - 8 or more are left out; the code then splits a block
  at its own header, and its callers ask for string lengths. Headers are kept decoded beside the bytes.

