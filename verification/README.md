# Verified models of the Myriad-X host drivers

Dafny models of five pieces of the Myriad-X host drivers that move data between host and
device through hand-written rings, free lists and buffer pools, and proofs of what they
keep over all inputs, all runs and all interleavings:

1. the variable-length message ring of the VPU driver (`vpu/mxvp/mxvp_queue.c`):
   `Ring` (the functions and their theory), `MessageQueues` (the object over an array),
   `SharedRing` (host and device running at once);
2. the transfer engine of the serial driver (`serial/mxlk/mxlk_core.c`): `BufferLists`
   (linked lists on the heap), `Transmit` and `Receive` (both directions as state machines
   with interleaved writer, reader, event handler and device), `Fragments`, `RingHandler`,
   `Reassembly`, `ReceiveHandler` (what one call or one handler run does, outright), and
   `WriteEngines`, `TransmitEngines`, `ReadEngines`, `ReceiveEngines` (the same on the heap),
   `EndToEnd` (from a write call to the device, and from a packet to a read call);
3. command tracking of the VPU driver (`vpu/mxvp/mxvp_bspec.c`): `CommandList` (the table),
   `CommandTracking` (senders, two message rings, device and reply handler together),
   `CommandChannels` (the objects);
4. the block allocator of the VPU driver (`vpu/mxvp/mxvp_mem.c`): `BlockAllocator`,
   `BlockManagers`, and `FreeChain`, the theory of free lists shared with the command table;
5. the boot image loader (`common/mx_boot.c`): `BootPolling`, `BootImage`, `BootLoader`.

`Bytes`, `Options`, `Sequences`, `Circular` (positions on a ring of slots) and `Buffers` (the
serial driver's buffers as values) hold what several of these share.

## How the pieces fit

Operations that change state in the drivers are methods on classes here. Each is proved
against a function of the old state, and what the driver promises is proved about these
functions. For the rings and lists the connection to whole runs has three parts:

- A *state machine* interleaves all parties, one register access, list operation or byte
  copy per step, with stale register values where the driver has them. Its invariant is
  kept by every step, and the theorems about runs follow.
- A *call function* says what one call or handler run does when nothing interferes, with
  its own theorems (`ServeEffect`, `FillEffect`, `AcceptsWhatFits`, `ReturnsWhatItReaches`).
  Driving the state machine's party alone until it rests gives exactly that
  (`DriveIsRun`, `DriveIsCall`, `DriveIsServe`; for the message ring `ProducerAloneIsPush` and
  `ConsumerAloneIsPull`, for commands `SendAlone` and `ReplyAlone`). `WriteArrives`,
  `PacketIsRead` and `RoundTrip` put the parties one after the other, from end to end.
- The *method* on linked descriptors has the call function as its contract, on the payloads
  of the lists it relinks.

What the environment decides is an input: whether memory is found for a reply (`granted`,
`grants`), how many copies succeed (`copies`), what each poll of the device reads (`modes`,
`statuses`), and which of the boot loader's requests for memory and mapping are granted.

The abstract content of the message ring is not a ghost companion: `Ring.Walk` recovers it
from memory, head and tail by reading what a consumer would read.

## What turned out false

Some properties do not hold of the code on all inputs. They are kept as they are, with the
exact condition:

- Flushing a command list that is not full leaves a free list that goes round for ever:
  `FlushKeepsListExactlyWhenFull`. Later adds never fail and hand out positions that are in
  use: `AddsAfterPartialFlush`. A single removal is harmless exactly when the position is in
  use: `RemoveKeepsListExactlyWhenInUse`.
- Freeing an allocator cookie leaves no proper free list exactly when its block is free already
  or it lies behind the last whole block: `FreeKeepsListExactlyWhenNotFree`. When a region has
  cookies of the second kind: `OverrunExactlyWhenPartLeftOver`. When the region's base is not a multiple of
  the block size every free of a block is ignored: `FreeReturnsBlock`.
- Polling the receive side takes no lock, so it can run in the middle of a read, and then it
  may report nothing while bytes are unread, or data when there is none: `PollOverlooks`,
  `PollOutdated`. Without a read it may do so when an empty packet came in: `PollHollow`. It is
  right otherwise: `PollIsTruthful`, and that cannot be said of more: `PollTrustedExactlyWhen`.
- An empty message queue does not take every record that is smaller than the ring; it does,
  wherever its registers stand, exactly when `2 * (length + 4) < size`: `EmptyPushBound`.
- A write call queues exactly the bytes it reports as accepted unless it takes a buffer and
  then has nothing to put into it, because it was given no data or a copy failed: then a whole
  unfilled buffer goes to the device: `QueuesWhatItAccepts`.
- A boot load goes on when a copy from user memory fails. The image arrives intact, whatever
  the staging buffers held before, exactly when no copy fails: `ArrivesExactlyWhenCopied`.
- The polling loop has no bound of its own while the device reads READY. It never ends exactly
  on the readings that `NeverEndsExactlyWhen` describes, and always ends on a device that does
  not go over to READY for good: `EndsUnlessReadyForever`.
- A device in loader mode is told to boot after the last chunk even if the transfer of that
  chunk failed (`TransferImage`; for one device, `BootsAfterFailure`), and once more after the
  second stage if it was in loader mode already (`FetchesInOrder`; for one device, `BootsTwice`).
- A load returns the size of an image exactly below 2 GiB; a load of one byte less than a
  multiple of 4 GiB returns -1, as if it had failed, even when it succeeds: `AsIntIs`.

## Model

| member | source | states |
|---|---|---|
| Ring.EmptyExactlyWhenRegistersMeet | vpu/mxvp/mxvp_queue.c:31-36 | full and empty are never confused: head equals tail exactly when no record is queued |
| Ring.WalkWellFormed | vpu/mxvp/mxvp_queue.c:38-44 | everything the walk from head to tail finds is a record a producer may hand over: aligned, its first word its length |
| Ring.AppendWalk | vpu/mxvp/mxvp_queue.c:81-84 | a record written at tail, clear of the unread bytes, is read last and changes nothing before it, on either side of the wrap |
| Ring.WrapWalk | vpu/mxvp/mxvp_queue.c:85-88 | a marker at tail and a record at offset 0 make the consumer go round and read that record last |
| Ring.SameWalk | vpu/mxvp/mxvp_queue.c:46-52 | what is queued depends on the bytes between head and tail only |
| Ring.PushAppends | vpu/mxvp/mxvp_queue.c:74-109 | a push keeps the ring's shape; it appends its record or, without room, changes nothing at all |
| Ring.PullTakesOldest | vpu/mxvp/mxvp_queue.c:111-134 | a pull returns the oldest record byte for byte; without memory for it the queue is unchanged even if head moved over a marker |
| Ring.QueueIsFifo | vpu/mxvp/mxvp_queue.c:74-134 | for every sequence of pushes and pulls, what was accepted is what was delivered followed by what is queued |
| Ring.EmptyQueueReaches | vpu/mxvp/mxvp_queue.c:81-98 | an empty queue can stand at every aligned position that leaves a spare word |
| Ring.EmptyPushBound | vpu/mxvp/mxvp_queue.c:81-98 | a record of length L is accepted by the empty queue after all traffic whatsoever exactly when 2*(L+4) < size |
| MessageQueues.MessageQueue.constructor | vpu/mxvp/mxvp_queue.c:54-62 | attaches to whatever registers and memory the device set up |
| MessageQueues.MessageQueue.Reset | vpu/mxvp/mxvp_queue.c:64-72 | whatever registers and memory hold, with the other side quiescent, leaves a valid empty queue |
| MessageQueues.MessageQueue.IsEmpty | vpu/mxvp/mxvp_queue.c:136-145 | true exactly when nothing is queued |
| MessageQueues.MessageQueue.Enqueue | vpu/mxvp/mxvp_queue.c:38-44 | copies a record into the memory and then publishes its end |
| MessageQueues.MessageQueue.Push | vpu/mxvp/mxvp_queue.c:74-109 | the in-place push is the push of the theory: it appends the rounded record to the FIFO or fails for lack of space and changes nothing |
| MessageQueues.MessageQueue.Pull | vpu/mxvp/mxvp_queue.c:111-134 | the in-place pull, going round the retry loop, takes the first of the FIFO if memory for it is found |
| SharedRing.WritesAreDead | vpu/mxvp/mxvp_queue.c:74-98 | with a head value that may be stale, even across a wrap of the consumer, no producer write hits a byte still to be read |
| SharedRing.DeadWrite | vpu/mxvp/mxvp_queue.c:111-134 | a write outside the unread bytes is invisible to a consumer in the middle of a pull |
| SharedRing.StaleDecision | vpu/mxvp/mxvp_queue.c:84-103 | a producer that decides on a head value that is out of date does what it would do on the present one or finds no room |
| SharedRing.StepKeeps | vpu/mxvp/mxvp_queue.c:38-134 | every register access, marker write and byte copy of either side keeps the invariant |
| SharedRing.EveryScheduleIsSafe | vpu/mxvp/mxvp_queue.c:38-134 | in every interleaving the next step of the producer leaves all unread bytes as they are, and the pulled records are a prefix of the published ones, the rest being what is queued |
| SharedRing.OneAtATime | vpu/mxvp/mxvp_queue.c:84-134 | a push in progress is not disturbed by the begin of another one, nor a pull by another pull |
| SharedRing.ProducerWritesThere | vpu/mxvp/mxvp_queue.c:38-109 | a step of the producer changes no byte but those it is said to write, and no unread byte |
| SharedRing.ProducerAloneIsPush | vpu/mxvp/mxvp_queue.c:74-109 | from every reachable state, a push that no other step interrupts ends with the memory, head and tail of the push of the theory, and publishes the record exactly when that succeeds |
| SharedRing.PushDecided | vpu/mxvp/mxvp_queue.c:81-109 | whatever happened since the producer read head, driving the push on ends it: the record is written and published unless the head it saw leaves no room |
| SharedRing.ConsumerAloneIsPull | vpu/mxvp/mxvp_queue.c:111-134 | from every reachable state, a pull that no other step interrupts ends with the head, and the record or none, of the pull of the theory |
| FreeChain.ChainUnique | vpu/mxvp/mxvp_bspec.c:527-553 | a free list in an array of links has one chain |
| FreeChain.ChainDistinct | vpu/mxvp/mxvp_bspec.c:504-516 | a free list that ends visits no entry twice |
| FreeChain.ChainPush | vpu/mxvp/mxvp_mem.c:122-127 | putting back an element that is not free prepends it to the chain |
| FreeChain.ChainPushTwice | vpu/mxvp/mxvp_bspec.c:541-543 | putting back an element that is free leaves a list that never ends |
| FreeChain.FreshChain | vpu/mxvp/mxvp_mem.c:22-46 | links from each element to the next, as both tables are built, make a list that goes through all elements in order and ends |
| BlockAllocator.IndexOfCookie | vpu/mxvp/mxvp_mem.c:86-127 | the cookie of a block gives back its index, lies in the region with its whole block, and is aligned exactly when the base is |
| BlockAllocator.AllocTakesFirst | vpu/mxvp/mxvp_mem.c:86-112 | an allocation fails exactly for an oversized request or an empty list, and otherwise hands out the first free block, not live before |
| BlockAllocator.FreeReturnsBlock | vpu/mxvp/mxvp_mem.c:114-134 | freeing a live block prepends it to the free list if the base is aligned, and does nothing otherwise |
| BlockAllocator.FreeTakesBlocksOnly | vpu/mxvp/mxvp_mem.c:55-134 | a free does nothing for a value that is not a multiple of the block size or lies outside the region, and makes the block any other value names the first of the list; with an aligned base and size those others are exactly the cookies |
| BlockAllocator.FreeKeepsListExactlyWhenNotFree | vpu/mxvp/mxvp_mem.c:114-134 | for any value whatever, a free leaves a proper free list exactly when the value neither names a free block nor passes for a cookie behind the last whole block; then the list is as before, or has the named block in front |
| BlockAllocator.OverrunExactlyWhenPartLeftOver | vpu/mxvp/mxvp_mem.c:114-134 | some value passes for a cookie and makes a free write behind the list exactly when an aligned address lies in the part of the region behind its last whole block; none does when the size is a multiple of the block size |
| BlockAllocator.LiveBlocksDisjoint | vpu/mxvp/mxvp_mem.c:86-149 | after every run of allocations and frees, live cookies name whole, aligned blocks of the region that are pairwise apart, in virtual and in physical addresses |
| BlockAllocator.RequestFailsOnlyWhenAllLive | vpu/mxvp/mxvp_mem.c:86-112 | after every run, free and live blocks make up the region, and a request of at most one block fails exactly when all blocks are live |
| BlockAllocator.PhysicalOffset | vpu/mxvp/mxvp_mem.c:142-149 | for every value, the physical address is the base plus the offset in the region, and 0 outside it, as long as the region does not wrap around |
| BlockManagers.BlockManager.Init | vpu/mxvp/mxvp_mem.c:65-76 | the loop links every block to the next and the last to nothing: all blocks are free |
| BlockManagers.BlockManager.Cleanup | vpu/mxvp/mxvp_mem.c:78-84 | afterwards there is nothing left to hand out |
| BlockManagers.BlockManager.Alloc | vpu/mxvp/mxvp_mem.c:86-112 | in place, takes the first of the free chain, or returns NULL and changes nothing |
| BlockManagers.BlockManager.Free | vpu/mxvp/mxvp_mem.c:114-134 | in place, for any value: one that is not a multiple of the block size or lies outside the region changes nothing; otherwise the named block becomes the first of the list, and the list stays a proper one exactly when that block exists and was not free |
| BlockManagers.BlockManager.Usage | vpu/mxvp/mxvp_mem.c:156-171 | the walk over the free list ends and counts its blocks, as u32 |
| BlockManagers.AvailableIsTotalMinusLive | vpu/mxvp/mxvp_mem.c:156-171 | after every run of allocations and frees, the number of blocks the walk counts is the total less the blocks clients hold |
| CommandList.AddTakesFirst | vpu/mxvp/mxvp_bspec.c:504-525 | an add fails exactly when every entry holds a command; otherwise the first free entry leaves the chain and holds command, callback and argument |
| CommandList.RemoveFrees | vpu/mxvp/mxvp_bspec.c:527-553 | removing an entry in use prepends it to the free chain, blank, and returns what it held |
| CommandList.RemoveKeepsListExactlyWhenInUse | vpu/mxvp/mxvp_bspec.c:527-553 | a removal leaves a proper free list exactly when the position was in use |
| CommandList.RemoveUndoesAdd | vpu/mxvp/mxvp_bspec.c:154-167 | taking back the position of a command that could not be pushed restores the table exactly |
| CommandList.FlushEffect | vpu/mxvp/mxvp_bspec.c:478-496 | for every table: one callback for each entry with a command and a callback, in position order, and links n-1, ..., 1, 0 and then the old free head |
| CommandList.FlushKeepsListExactlyWhenFull | vpu/mxvp/mxvp_bspec.c:478-496 | a flush leaves a proper free list, namely all entries from the last to the first, exactly when every entry held a command; otherwise the list never ends |
| CommandList.AddsAfterPartialFlush | vpu/mxvp/mxvp_bspec.c:478-525 | after a flush of a table that was not full, no add fails and the one after the n-th gets a position already handed out |
| CommandTracking.IdRoundTrip | vpu/mxvp/mxvp_bspec.c:308-328 | the id holds the sequence number, modulo 65536, in its upper half and the position in its lower, from which it is recovered |
| CommandTracking.IdsDiffer | vpu/mxvp/mxvp_bspec.c:308-322 | ids coincide only for the same position and sequence numbers 65536 apart |
| Ring.RoundUp | vpu/mxvp/mxvp_queue.c:81-81 | the least multiple of the word size that holds the record |
| CommandTracking.WithIdIsMessage | vpu/mxvp/mxvp_bspec.c:160-163 | stamping an id keeps a message well formed, changes no other byte, and the id is read back |
| CommandTracking.CarriesPushed | vpu/mxvp/mxvp_bspec.c:162-168 | a ring whose messages carry the positions of their sends still does after a push, through all of the ring's byte layout |
| CommandTracking.AcceptedExactly | vpu/mxvp/mxvp_bspec.c:149-215 | the operations 1 to 7 are exactly those some channel takes; both take the fence, 7, and the command channel alone takes 1 |
| CommandTracking.StepKeeps | vpu/mxvp/mxvp_bspec.c:140-218 | adds, pushes, device pulls and pushes, and the pull, removal and callback of a reply, a step each, keep the system invariant: each send in one place, live sends and occupied entries one to one, the free entries a proper list |
| CommandTracking.FinishSendPushes | vpu/mxvp/mxvp_bspec.c:160-168 | whatever came between add and push, a send is pushed, stamped with the next sequence number, exactly when the ring has room for it; otherwise it is turned away and its position removed |
| CommandTracking.SendAlone | vpu/mxvp/mxvp_bspec.c:140-218 | an undisturbed add and push have the table, ring and outcome of the send call: nothing at all for an operation not taken or a full table, and the add undone exactly when the ring has no room |
| CommandTracking.ReplyAlone | vpu/mxvp/mxvp_bspec.c:555-602 | the handler's steps on one reply, undisturbed, take the oldest reply and have the effect on the table, and the callback, of the call; without a reply they do nothing |
| CommandTracking.RoundTrip | vpu/mxvp/mxvp_bspec.c:140-218 | a send, the device taking it, its reply with that id and the handler, with room for both messages, make exactly the callback asked for and leave the table as before and all queues empty |
| CommandTracking.CallbacksFollowPushOrder | vpu/mxvp/mxvp_bspec.c:140-176 | over every run with a device that answers in order, reply callbacks are those of a prefix of the pushed commands, in push order, each with its own command and argument |
| CommandTracking.EverySendIsCalledBackOnce | vpu/mxvp/mxvp_bspec.c:478-568 | over every run ending in a flush, wherever senders and the reply handler stand then, each command that was not turned away is settled once, by reply or flush, and the callbacks made or about to be made are exactly those asked for |
| CommandTracking.NoCallbackAfterFlush | vpu/mxvp/mxvp_bspec.c:478-568 | after the flush that ends any run, no reply makes a callback, neither the one already pulled nor any other, whatever ids they carry |
| CommandChannels.CommandTable.constructor | vpu/mxvp/mxvp_bspec.c:457-476 | all entries are free, in order |
| CommandChannels.CommandTable.Add | vpu/mxvp/mxvp_bspec.c:504-525 | the in-place add is the add of the theory |
| CommandChannels.CommandTable.Remove | vpu/mxvp/mxvp_bspec.c:527-553 | the in-place removal, of any position in range, is the removal of the theory; out of range it fails |
| CommandChannels.CommandTable.Flush | vpu/mxvp/mxvp_bspec.c:478-496 | the loop over all positions makes the callbacks and leaves the table that the theory says |
| CommandChannels.CommandChannel.Send | vpu/mxvp/mxvp_bspec.c:140-218 | rejects what the channel does not take, fails without a position or without room leaving table and ring unchanged, and otherwise pushes the message at the start of the buffer, as long as its length word, under an id with its position |
| CommandChannels.CommandChannel.UpdateHandler | vpu/mxvp/mxvp_bspec.c:570-602 | when the first `grants` allocations succeed and no further one does: handles as many replies, in order, as are the least of 20, the pending ones and `grants`, makes their callbacks, asks to run again exactly when 20 were handled, and ends at a reply without memory exactly when fewer than 20 are granted and a reply is left |
| CommandChannels.HandleRepliesIsFold | vpu/mxvp/mxvp_bspec.c:570-602 | what the handler does with the replies is what the theory does with the ids they carry |
| CommandChannels.CommandChannel.ReplyToCommand | vpu/mxvp/mxvp_bspec.c:555-568 | frees the position the reply names and makes the callback found there |
| BufferLists.BufferDescriptor.constructor | serial/mxlk/mxlk_core.c:268-288 | a new descriptor is whole: all of its memory is payload |
| BufferLists.BufferDescriptor.Reinitialize | serial/mxlk/mxlk_core.c:303-307 | makes a descriptor whole again, of no interface and linked to nothing |
| BufferLists.BufferList.Put | serial/mxlk/mxlk_core.c:216-238 | appends a whole chain; buffers is the chain's length and bytes the sum of lengths afterwards; NULL is refused |
| BufferLists.BufferList.Append | serial/mxlk/mxlk_core.c:313-318 | appends one descriptor and changes no payload |
| BufferLists.BufferList.Get | serial/mxlk/mxlk_core.c:240-258 | takes the first descriptor, unlinked, keeping the accounting; NULL exactly from an empty list |
| BufferLists.BufferList.Allocate | serial/mxlk/mxlk_core.c:298-311 | takes the first of a pool, whole again; the others are unchanged |
| BufferLists.BufferList.Info | serial/mxlk/mxlk_core.c:260-266 | reports exactly the list's length and total of lengths |
| BufferLists.BytesAreStream | serial/mxlk/mxlk_core.c:216-266 | the byte count of a list is the number of bytes its payloads make up |
| Transmit.OldestHeld | serial/mxlk/mxlk_core.c:825-838 | a slot about to be reclaimed holds a buffer |
| Transmit.HeadHeld | serial/mxlk/mxlk_core.c:846-865 | a slot about to be consumed holds a buffer |
| Transmit.FillSlots | serial/mxlk/mxlk_core.c:846-869 | the slot filled was empty: the loop overwrites no held slot |
| Transmit.StepKeeps | serial/mxlk/mxlk_core.c:801-881 | every step of writer, handler and device keeps register order, slot occupancy and the stream, and the buffers in all places together |
| Transmit.EveryInterleavingKeepsOrder | serial/mxlk/mxlk_core.c:801-881 | in every interleaving the device consumes what was queued, in order; a slot holds a buffer exactly from old to tail; the tail register moves exactly when a slot was filled |
| Transmit.AcceptedBytesArriveInOrder | serial/mxlk/mxlk_core.c:1100-1142 | in every interleaving of non-empty writes whose copies succeed, the bytes accepted are those consumed, then those in slots head to tail, then those on the write list |
| Transmit.BuffersConserved | serial/mxlk/mxlk_core.c:801-881 | in every interleaving each buffer is in exactly one of pool, write list, ring window and the writer's chain |
| Transmit.DrainsRing | serial/mxlk/mxlk_core.c:801-881 | from every reachable state with the handler at rest, a device left alone consumes all of the ring: what was queued is then what it has consumed and what is on the write list |
| Fragments.CallShape | serial/mxlk/mxlk_core.c:1106-1134 | a write takes buffers from the front of the pool, in order, and leaves the others |
| Fragments.AcceptsWhatFits | serial/mxlk/mxlk_core.c:1100-1142 | with k pooled buffers a write of n bytes accepts min(n, k * fragment size), all fragments full but the last |
| Fragments.QueuesWhatItAccepts | serial/mxlk/mxlk_core.c:1106-1137 | the fragments concatenate to the accepted prefix of the data exactly when the pool is empty, or there is data and no copy fails |
| Fragments.FragmentsMarked | serial/mxlk/mxlk_core.c:1113-1123 | a buffer is marked with the interface of the write exactly when there was data to copy and its copy succeeded |
| Fragments.AvailableExactlyWhenAccepting | serial/mxlk/mxlk_core.c:1152-1158 | a pool is reported available exactly when a non-empty write whose first copy succeeds accepts at least a byte |
| Fragments.DriveIsCall | serial/mxlk/mxlk_core.c:1100-1142 | from the begin of a write on, the state machine's writer alone does what the write call does |
| WriteEngines.Writer.BufferAvailable | serial/mxlk/mxlk_core.c:1152-1158 | true exactly when the pool has a buffer |
| WriteEngines.Writer.FillBuffer | serial/mxlk/mxlk_core.c:1113-1123 | copies a fragment into a descriptor and cuts it to the fragment |
| WriteEngines.Writer.NextBuffer | serial/mxlk/mxlk_core.c:1128-1131 | links one more pooled descriptor behind the chain; the chain's payloads are unchanged |
| WriteEngines.Writer.CopyLoop | serial/mxlk/mxlk_core.c:1109-1132 | the loop ends when all is copied, the pool is dry or a copy fails, and the chain built so far agrees with the write call |
| WriteEngines.Writer.Write | serial/mxlk/mxlk_core.c:1100-1142 | on the heap, the descriptors moved from pool to write list, their payloads and the count returned are those of the write call; what was on the write list is unchanged |
| RingHandler.ReclaimEffect | serial/mxlk/mxlk_core.c:825-844 | the first loop empties exactly the slots from old up to the head it read and frees their buffers in order |
| RingHandler.FillEffect | serial/mxlk/mxlk_core.c:846-869 | the second loop moves as many buffers as fit with one slot free, in order, to the slots from tail on, and touches no other slot |
| RingHandler.RunSound | serial/mxlk/mxlk_core.c:801-881 | after a run the slots from old to head hold buffers again as the next run needs |
| RingHandler.DriveIsRun | serial/mxlk/mxlk_core.c:801-881 | the state machine's handler alone does what one run does |
| TransmitEngines.TransmitEngine.constructor | serial/mxlk/mxlk_core.c:510-572 | an empty ring with both registers and old at one position |
| TransmitEngines.TransmitEngine.ReclaimOne | serial/mxlk/mxlk_core.c:825-838 | moves a slot's descriptor to the pool; no descriptor is in two places |
| TransmitEngines.TransmitEngine.FillOne | serial/mxlk/mxlk_core.c:847-869 | moves the first descriptor of the write list to a slot, if there is one |
| TransmitEngines.TransmitEngine.EventHandler | serial/mxlk/mxlk_core.c:801-881 | on the heap, lists, slots and registers become what one run yields; no payload can change |
| Receive.DeliverKeeps | serial/mxlk/mxlk_core.c:722-799 | a delivery by the device appends to what the handler will process |
| Receive.DispatchKeeps | serial/mxlk/mxlk_core.c:746-787 | handing a slot's buffer to reader or pool loses nothing and reorders nothing |
| Receive.DeliverableExactly | serial/mxlk/mxlk_core.c:754-777 | a packet reaches the reader exactly with status 0 on interface 0 |
| Receive.StepKeeps | serial/mxlk/mxlk_core.c:722-799 | every step of device, handler and reader keeps register order and the stream, and the buffers in all places together |
| Receive.EveryInterleavingKeepsOrder | serial/mxlk/mxlk_core.c:722-799 | in every interleaving, however often the pool runs dry, the data of deliverable packets sent is what reads returned, then what waits for the reader, then what is on the ring; head moves exactly when a slot was handled |
| Receive.BuffersConserved | serial/mxlk/mxlk_core.c:746-787 | in every interleaving each buffer is in exactly one of pool, slot, handler's hand, reader's hand, partial buffer and read list, and every slot has one |
| Receive.PollIsTruthful | serial/mxlk/mxlk_core.c:1144-1150 | in every run without empty packets, polling reports data exactly when there are unread bytes, if no read is in progress or packets are listed |
| Receive.PollTrustedExactlyWhen | serial/mxlk/mxlk_core.c:1059-1150 | of the four combinations of a read in progress or not and packets listed or not, those in which every such report is right are exactly the three other than a read that has left nothing listed |
| Receive.NeverHollow | serial/mxlk/mxlk_core.c:746-787 | only empty packets wait only if the device delivered an empty packet |
| Receive.PollOverlooks | serial/mxlk/mxlk_core.c:1065-1083 | from every initial state with room for a packet, a run without empty packets to a wrong report: a read has fetched the only packet, and the poll sees nothing though bytes are unread |
| Receive.PollOutdated | serial/mxlk/mxlk_core.c:1065-1093 | and one to the opposite: a read has just emptied what an earlier one kept, and the poll reports data though none is left |
| Receive.PollHollow | serial/mxlk/mxlk_core.c:754-777 | with an empty packet, a run to a wrong report with no read in progress: empty packets cannot be allowed either |
| ReceiveHandler.ServeEffect | serial/mxlk/mxlk_core.c:746-787 | a run serves a stretch of slots ending at the tail it read or where the pool ran dry; their packets go to the read list in order, they are ready for the device again, and no other slot changes |
| ReceiveHandler.DriveIsServe | serial/mxlk/mxlk_core.c:722-799 | from its start on, the state machine's handler alone does what one run does |
| ReceiveEngines.ReceiveEngine.TakeRing | serial/mxlk/mxlk_core.c:574-592 | fills every slot with a whole buffer from the pool, or fails exactly when the pool has too few |
| ReceiveEngines.ReceiveEngine.constructor | serial/mxlk/mxlk_core.c:574-592 | an empty ring with a buffer, and its length, in every slot |
| ReceiveEngines.ReceiveEngine.Dispatch | serial/mxlk/mxlk_core.c:754-777 | a failed packet's buffer goes back to the pool, a good one marked with interface and length to the read list, one of no known interface to the pool; nothing else changes |
| ReceiveEngines.ReceiveEngine.Replace | serial/mxlk/mxlk_core.c:754-787 | the replacement takes the slot and its length is told to the device; the other slots keep their payloads |
| ReceiveEngines.ReceiveEngine.ServeOne | serial/mxlk/mxlk_core.c:746-787 | one turn of the loop on the heap is one turn of the run; no descriptor is in two places |
| ReceiveEngines.ReceiveEngine.ServeAll | serial/mxlk/mxlk_core.c:745-788 | the loop on the heap yields what one run does, and asks for a restart exactly when it stopped short |
| ReceiveEngines.ReceiveEngine.EventHandler | serial/mxlk/mxlk_core.c:722-799 | on the heap, pool, read list, slots and head become what one run yields |
| Reassembly.LosesNothing | serial/mxlk/mxlk_core.c:1065-1097 | for every read: the bytes returned followed by what still waits are what waited before; each buffer is freed, empty, or waits as before |
| Reassembly.ReturnsWhatItReaches | serial/mxlk/mxlk_core.c:1065-1097 | a read returns as much as asked for of the packets it can copy, all of that if it is less, across packet borders |
| Reassembly.DriveIsCall | serial/mxlk/mxlk_core.c:1059-1098 | from the begin of a call on, with a partial buffer or without, the state machine's reader alone does what the read call does |
| ReadEngines.Reader.constructor | serial/mxlk/mxlk_core.c:394-406 | no partial buffer at the start |
| ReadEngines.Reader.CopyOut | serial/mxlk/mxlk_core.c:1071-1082 | returns the front of a buffer and advances it past that |
| ReadEngines.Reader.Turn | serial/mxlk/mxlk_core.c:1069-1090 | one turn of the loop: an emptied buffer goes to the pool and the next one is fetched |
| ReadEngines.Reader.Read | serial/mxlk/mxlk_core.c:1059-1098 | on the heap, the bytes returned, the buffers freed and those still waiting are those of the read call, and no descriptor is lost |
| ReadEngines.Reader.DataAvailable | serial/mxlk/mxlk_core.c:1144-1150 | true exactly when a buffer waits |
| EndToEnd.WriteArrives | serial/mxlk/mxlk_core.c:801-1142 | a write call on an idle transmit side, a run of the handler and the device make the device consume exactly the bytes the call accepted, for chains the ring can hold |
| EndToEnd.PacketIsRead | serial/mxlk/mxlk_core.c:722-1098 | a packet delivered into an idle receive side and handled is what a read then returns, up to the length asked for |
| BootPolling.BoundedPolling | common/mx_boot.c:84-130 | for all readings, a wait sleeps at most 1600 times and polls at most 1601 times more than it reads READY |
| BootPolling.EndsUnlessReadyForever | common/mx_boot.c:84-130 | every wait ends unless from some poll on the device stays in its mode and reads nothing but READY, however often it reads READY before |
| BootPolling.NeverEndsExactlyWhen | common/mx_boot.c:84-130 | exactly when a wait never ends: the device stays in its mode and reads nothing but READY, at most 100 times PENDING and at most 1500 times STARTING |
| BootPolling.EndsWithinBudgets | common/mx_boot.c:84-130 | a wait has ended by the time the device has read anything but READY 1601 times |
| BootPolling.EndsSoonAfterReady | common/mx_boot.c:84-130 | a wait ends within 1600 polls of the time from which the device does not read READY any more |
| BootPolling.TimesOutExactlyWhenBudgetIsSpent | common/mx_boot.c:106-121 | a wait times out exactly when, in an unchanged mode, the 101st PENDING or the 1501st STARTING is read |
| BootPolling.EndsOnce | common/mx_boot.c:84-130 | the end of a wait and its outcome are determined by the readings |
| BootPolling.EndsExactlyWhen | common/mx_boot.c:84-130 | a wait ends exactly with the first poll that finds another mode, DMA_DONE, the 101st PENDING, the 1501st STARTING or an unknown status, and that decides between success, timeout and protocol error |
| BootImage.ChunksCover | common/mx_boot.c:214-218 | the chunks concatenate to the image, are as few as can be, none empty, none over 4 MiB, all full but the last |
| BootImage.CompleteIsExact | common/mx_boot.c:236-244 | copies that miss nothing stage the chunks as they are |
| BootImage.ArrivesExactlyWhenCopied | common/mx_boot.c:236-240 | the staged chunks make up the image whatever the buffers held before exactly when no copy fails |
| BootImage.LoadLog | common/mx_boot.c:156-170 | replayed as register writes, transfers followed by a boot or none make the device fetch exactly these chunks, byte for byte, one at each PENDING, told at the times given, and boot at most once, last |
| BootLoader.AsIntIs | common/mx_boot.c:269 | the size returned is the image's as a signed 32-bit number: exact for exactly the sizes below 2 GiB, and -1 for exactly those one less than a multiple of 4 GiB |
| BootLoader.Device.WaitForCompletion | common/mx_boot.c:84-130 | whenever the wait ends at all, the loop with its two countdowns ends at the poll and with the outcome that the readings determine, within the bounds |
| BootLoader.Device.TransferImage | common/mx_boot.c:132-173 | refused exactly when the device is neither READY nor DMA_DONE, or the mapping fails; otherwise address, length and PENDING are written, the wait for them begins with the next look and its outcome is returned, and BOOT follows exactly for the last chunk of a device in loader mode, whatever the wait gave |
| BootLoader.Device.LoadChunk | common/mx_boot.c:223-255 | a failed copy is only reported; a transfer is started exactly when both memory requests and the mapping are granted and the device is ready, and the result is good exactly when its wait then ended Done |
| BootLoader.Device.LoadChunks | common/mx_boot.c:212-267 | the chunks started are a prefix of the staged chunks, each begun with the look after the last wait, which ended Done, and the next is begun whenever it can be; success exactly when all were started and every wait ended Done; boot is written only after the last, exactly in loader mode |
| BootLoader.Device.LoadImage | common/mx_boot.c:175-280 | an image over 4 MiB is preceded by one load of the second stage and a look that found loader mode; the log of writes is exactly that of what was started; the size is returned exactly when every transfer was started and completed, -1 otherwise |
| BootLoader.Device.FetchesInOrder | common/mx_boot.c:175-280 | however a load went, the device fetched the second stage if needed and then a prefix of the staged chunks, byte for byte and nothing else, was told of each right after it was found ready, and to boot right after the last wait of either if in loader mode then; only the last transfer can have failed |
| BootLoader.Device.LoadIsDetermined | common/mx_boot.c:175-280 | the readings of the device and the requests granted determine the whole load: which transfers run, when and how they end, the result and the log |
| BootLoader.Device.SuccessCovers | common/mx_boot.c:175-280 | a successful load whose copies miss nothing has the device fetch exactly the image, after the second stage if needed, in ceil(length / 4 MiB) pieces of at most 4 MiB; the wait for each of them ended Done, and a device that stays in loader mode is told to boot last |
| BootLoader.Device.LoadEndsUnlessReadyForever | common/mx_boot.c:175-280 | all waits of all loads end on a device that does not stay in one mode and read READY for good |
| BootLoader.Device.BootsAfterFailure | common/mx_boot.c:156-167 | every load of one chunk on a device in loader mode that is ready once and in error ever after fails, with the one transfer it begins, and yet tells the device to boot |
| BootLoader.Device.FailureHappens | common/mx_boot.c:156-167 | there is such a load, with its log |
| BootLoader.Device.BootsTwice | common/mx_boot.c:190-267 | every load of an image over 4 MiB on a device in loader mode that is done with everything at once succeeds and tells the device to boot twice: after the second stage and at the end |
| BootLoader.Device.DoubleBootHappens | common/mx_boot.c:190-267 | there is such a load for every image over 4 MiB, with its log |

## Left out

- Memory barriers, caches and DMA: register and memory accesses of both sides are sequentially consistent steps; a DMA transfer reads what was staged.
- Locks and mutexes: a locked section of the serial driver's lists or the command table is one step; of the message ring each side's lock admits one producer and one consumer.
- DMA mapping failures in the serial driver's event handlers, which strand a descriptor; the boot loader's are modelled.
- Failing allocations for a reply in `CommandTracking`: they are taken to succeed; `UpdateHandler` and `Pull` model them.
- The early return of both event handlers when a register reads 0xFFFFFFFF, as it does while the device resets.
- The memory of a buffer is a sequence held by its descriptor, not an array of its own, so two descriptors sharing memory cannot be expressed; the driver never does that.
- Receive.PollIsTruthful: a poll's two looks, at the read list and then at `partial_read`, are one moment.
- The descriptor written for the device in a slot of the transmit ring (address, length, interface) is taken to describe the buffer in that slot.
- Statistics, wait queues, doorbells, sleeps for restarts and teardown of pools and rings.
- mxvp_send_async, the preempt and status handlers, and the id written into the reply of a flushed command: callbacks are identified by number, command and argument.
- Replies that name no outstanding id, and callbacks that re-enter during a flush.
- CommandChannels.CommandChannel.Send: the length word is a multiple of four and the buffer at least that long, as the command builders make them.
- CommandChannels.CommandChannel.UpdateHandler: what happens once the NULL of a reply without memory is used.
- MessageQueues.MessageQueue.Reset: the other side is quiescent; a reset racing an active device is not modelled.
- BlockManagers.BlockManager.Free: the memory that a link behind the list is written to.
- mxvp_mem_virt and mxvp_mem_size, which only compute.
- The contents of the second-stage image: only its size, 72272 bytes, is used.
- BootLoader.Device.WaitForCompletion: it is called only when the wait ends, on the other readings the code loops for ever; mode and status of one poll are read at one time, each arbitrary.
- PCI, MSI, power and reset handling, character devices, ioctls, capability search and command builders.
