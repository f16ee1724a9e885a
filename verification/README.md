# Verified model of the AESD character device, its socket worker and its queue macros

The project models three parts of the repository and proves what they promise.

**The character device** (`aesd-char-driver/`). Writes grow a working entry until its last byte is a
newline; then the entry becomes a packet in a ring of ten slots, and a full ring frees its oldest
packet. Reads, seeks and llseek show the live packets as one flat byte string.
`PacketLog` says this without a ring: a log of packets, a pending tail, the last ten packets as the
content. `RingModel`, `Allocator`, `DeviceModel`, `ReadModel` and `SeekModel` give the driver's state as a
value and its calls as step functions; `DeviceRefinement` proves that the state follows the log over
every run of writes. `CircularBuffer` and `CharDevice` are the objects the C code updates in place; each
method is proved equal to its step function, so the theorems are about what the methods do.

**The socket worker** (`server/aesdsocket.c`). `Service` says what serving one connection means over the
log. `Worker` is the thread function with its two loops, proved against `Service` on the device object.
`Threads` is the same thread as a machine of single steps, whose driver calls the device answers as the log
does; `Interleaving` lets any number of them run one step at a time, between the arrivals of what their clients
send, and proves that every run is a serial one.

**The queue macros** (`server/queue.h`). `Links` is the link pair that a TAILQ head and an element's entry
share; a pointer to a next field is modelled as the link that contains it. `TailQueue`, `CircleQueue` and
`SinglyTailQueue` prove each macro against an operation on a sequence, on the heap; `TailQueueRuns`
and the end of `CircleQueue` extend this to every sequence of operations.

What the environment decides is an argument of the step: how many of the user's bytes are copied, whether and how
krealloc grants a request and what its new memory holds, which byte lies in memory before the working entry's block,
whether a read can be copied out, how many of its bytes a send takes or that it fails, when what a client sends
arrives, and the schedule of the threads. In `Interleaving` the locked part of a driver call is one step, because it
holds the device's own lock; the store that a read makes before it takes that lock is a step of its own.

## Where the code does not do what its documentation says

Each of these has its exact condition proved, and an input that shows it.

- A refused krealloc overwrites the only pointer to the working entry's block. Cleanup leaves no block if and only if
  no request was refused while the working entry had one (`CleanupAfterRun`, `RefusalLeaks`), and the device follows a
  log if and only if, besides, no write asked for no bytes with no tail there (`WholeRun`, `NotBenign`).
- Such an empty write gets the allocator's zero-size block and looks at index -1 of it; the model calls this a kernel
  fault (`EmptyWriteFaults`). A write whose copy fails completely looks there too, but at a byte that exists, the one
  before its block: if that is a newline, an empty packet is committed (`StrayByteCommits`). Every packet ends in a
  newline if and only if that never happened (`ProperRun`, `WholeRun`).
- A seek counts from slot 0, a lookup from the oldest packet. A seek lands on the byte it names if and only if the
  slots before the oldest packet's hold no bytes, or for a slot among those all bytes (`SeekLandsIff`); when every packet
  ends in a newline this means that fewer than ten packets or a multiple of ten were committed
  (`SeekLandsIffUnrotated`, `RotatedSeekMisses`). Taken as the header words it, as a seek into the k-th oldest command,
  it is right for all commands and offsets if and only if each slot holds a packet as long as the retained packet of
  that age (`SeekAsDocumented`).
- A seek to command ten or more reaches an unlock with no device pointer set, where the comment promises an error
  code; all other seeks that do not succeed come back with one (`SeekOutcome`).
- The search adds one to the offset it is given; for the largest size_t this wraps, and a non-empty ring answers with
  its first entry (`SearchIsLookup`, `LargestOffsetIsFound`).
- A read notes its position in the device before it takes the lock, and others may overwrite it there. Whatever they
  did, the read comes out as its own if and only if its own position is noted when the lock is taken, or both
  positions lie past the end, but for a read of no bytes (`RaceExact`; `RacingRead` for a second reader's whole read). A
  packet written to the booted device, and two positions, show it (`RacingNotesReachable`). Under the server's own mutex
  it never happens (`NotedPositionIsOwn`).
- The worker does not repeat a send that takes fewer bytes than it was given, and takes a failed read for the end. The
  reply is the whole content if and only if every read was copied and its send took all of it (`ReplyWhole`,
  `ShortSendCuts`). A failed send stops the process (`ReplyDown`, `FailedSendStops`).

## Model

| member | source | states |
|---|---|---|
| PacketLog.AcceptWellFormed | aesd-char-driver/main.c:144-170 | committed packets end in a newline and the pending tail never does |
| PacketLog.AcceptAtWellFormed | aesd-char-driver/main.c:144-170 | testing the byte before an empty tail commits an empty packet exactly when that byte is a newline, and differs in nothing else |
| PacketLog.AcceptAllHistory | aesd-char-driver/main.c:128-175 | packets followed by the tail are all bytes accepted, in order, however the writes are cut |
| PacketLog.RetainedAppend | aesd-char-driver/aesd-circular-buffer.c:121-152 | a commit drops the oldest of ten retained packets, and only then, and appends the new one |
| PacketLog.EvictionShift | aesd-char-driver/aesd-circular-buffer.c:138-143 | after an eviction of s bytes the content is the old content from s on, followed by the new packet |
| PacketLog.EvictionShiftsReads | aesd-char-driver/main.c:158-165 | after that a read at p returns what a read at p + s returned before |
| PacketLog.LocateSound | aesd-char-driver/aesd-circular-buffer.c:76-98 | a position is found exactly below the total size, and the place found denotes it |
| PacketLog.LocateComplete | aesd-char-driver/aesd-circular-buffer.c:76-98 | the place that denotes a position is the only one, zero-sized entries included |
| PacketLog.LocateByte | aesd-char-driver/aesd-circular-buffer.c:39-47 | the byte at the place found is the byte of the concatenation at that position |
| PacketLog.ReadAtPlace | aesd-char-driver/main.c:74-93 | a read is a slice of the one packet its position lies in |
| PacketLog.ReadAtIsContent | aesd-char-driver/main.c:66-93 | a read returns the content's own bytes at its position, at most count, and none only at the end or when none are asked for |
| PacketLog.DrainIsContent | server/aesdsocket.c:257-267 | repeated reads of c > 0 bytes terminate and concatenate to everything from the start position on |
| PacketLog.DrainCount | server/aesdsocket.c:257-267 | the number of non-empty reads from any position, because no read crosses a packet's end |
| PacketLog.DrainReadsFromStart | server/aesdsocket.c:257-267 | from position 0 a drain is exactly the sum over packets of ceil(size / c) reads |
| PacketLog.DrainNth | server/aesdsocket.c:257-267 | the i-th read of a drain happens where the first i ended, and the one after the last is the first empty one |
| PacketLog.ChunkingInvariance | server/aesdsocket.c:220-244 | a line cut into non-empty chunks in any way leaves the same log as one write of it |
| RingModel.AddIsPush | aesd-char-driver/aesd-circular-buffer.c:110-156 | an add appends to the live entries and, exactly when the ring was full, drops and reports the oldest |
| RingModel.AddKeepsLength | aesd-char-driver/aesd-circular-buffer.c:129-142 | buf_len counts the live bytes modulo 2^64 after every add, and exactly when they fit |
| RingModel.LookupSound | aesd-char-driver/aesd-circular-buffer.c:62-98 | a lookup names a live slot and offset that denote the position, and fails exactly past the live bytes |
| RingModel.LookupComplete | aesd-char-driver/aesd-circular-buffer.c:62-98 | every byte of every live entry is found at its own position of the concatenation |
| RingModel.SearchIsLookup | aesd-char-driver/aesd-circular-buffer.c:85-88 | the search with its wrapping addition is the lookup unless the offset is SIZE_MAX and the ring is not empty |
| RingModel.LargestOffsetIsFound | aesd-char-driver/aesd-circular-buffer.c:85-88 | a ring of one byte and the largest size_t, which the search answers with that entry |
| CircularBuffer.AesdCircularBuffer.constructor | aesd-char-driver/aesd-circular-buffer.c:161-163 | every field zeroed is the empty ring |
| CircularBuffer.AesdCircularBuffer.AddEntry | aesd-char-driver/aesd-circular-buffer.c:110-156 | the ring becomes the result of the add, and the overwritten entry is in overflow_entry exactly when the ring was full |
| CircularBuffer.AesdCircularBuffer.SearchStep | aesd-char-driver/aesd-circular-buffer.c:76-95 | in each turn the running sum does not wrap and the comparison holds exactly for the entry that holds the offset |
| CircularBuffer.AesdCircularBuffer.FindEntryOffsetForFpos | aesd-char-driver/aesd-circular-buffer.c:50-99 | the do-while visits each live slot at most once and returns what the search means |
| CircularBuffer.AesdCircularBuffer.Destroy | aesd-char-driver/aesd-circular-buffer.c:169-176 | frees the pointer of every slot that has one |
| Allocator.KreallocSound | aesd-char-driver/main.c:118-126 | a granted request keeps the old bytes and moves ownership to the new block; a refused one changes nothing |
| Allocator.KfreeSound | aesd-char-driver/main.c:160-165 | freeing an allocated block or NULL breaks no rule and removes that block only |
| Allocator.SecondFreeViolates | aesd-char-driver/main.c:160-165 | a second free of a block, or a resize after a free, is noticed for ever |
| DeviceModel.StageSafe | aesd-char-driver/main.c:118-145 | growing the working entry keeps every block singly owned, and loses exactly the tail's block when refused |
| DeviceModel.CommitSafe | aesd-char-driver/main.c:154-170 | a commit hands the block to the ring, frees exactly the oldest packet's, and leaves its size and no pointer in overflow_entry |
| DeviceModel.WriteSafe | aesd-char-driver/main.c:102-182 | whatever the allocator and the copy do, every allocated block has one owner and nothing is freed twice or used after |
| DeviceModel.WriteKeepsNote | aesd-char-driver/main.c:102-182 | a write leaves the position noted for readers alone, and after a fault it does nothing |
| DeviceRefinement.BootRefines | aesd-char-driver/main.c:326-331 | the initial device holds the empty log |
| DeviceRefinement.StageBytes | aesd-char-driver/main.c:128-145 | after the copy the working entry holds the old tail followed by the accepted bytes |
| DeviceRefinement.CommitRefines | aesd-char-driver/main.c:151-170 | after a commit the entries, offsets, flag and cached length are those of the log with the packet appended |
| DeviceRefinement.WriteRefines | aesd-char-driver/main.c:102-182 | a benign write follows the log and reports exactly what it accepted |
| DeviceRefinement.SettleRefines | aesd-char-driver/main.c:151-175 | after the byte test the packet is in the ring or the tail in the working entry, as the tail's last byte, or the one before an empty tail, decides |
| DeviceRefinement.NotBenign | aesd-char-driver/main.c:118-151 | a refused request with a block held loses that block, and a request for no bytes with no tail faults |
| DeviceRefinement.RunSafe | aesd-char-driver/main.c:102-182 | over every run the blocks without an owner are exactly the lost ones |
| DeviceRefinement.RunRefines | aesd-char-driver/main.c:102-182 | a run follows the fold of its accepted bytes if all its writes are benign, and follows no log otherwise |
| DeviceRefinement.RunConserves | aesd-char-driver/main.c:128-175 | over every run the log's packets and tail are the accepted bytes |
| DeviceRefinement.ProperRun | aesd-char-driver/main.c:144-170 | over every run each packet ends in a newline if and only if no empty working entry lay behind one when the driver looked at its last byte |
| DeviceRefinement.WholeRun | aesd-char-driver/main.c:102-182 | from boot, the device follows a log if and only if every write was benign, and then every field is the stated function of the accepted bytes, none is lost, and each packet ends in a newline unless a stray one was found |
| DeviceRefinement.LiveSizes | aesd-char-driver/aesd-circular-buffer.h:36-58 | the live sizes are the retained packets' lengths and their total is the content's length |
| DeviceRefinement.FreeSlotsSound | aesd-char-driver/aesd-circular-buffer.c:169-176 | freeing the slots frees each held block once and nothing else |
| DeviceRefinement.CleanupSafe | aesd-char-driver/main.c:341-351 | after cleanup exactly the lost blocks are allocated |
| DeviceRefinement.LostIffNotLeakFree | aesd-char-driver/main.c:120-125 | a run loses a block if and only if a request was refused while the working entry had a block |
| DeviceRefinement.CleanupAfterRun | aesd-char-driver/main.c:341-351 | cleanup after any run breaks no allocation rule, and leaves nothing allocated if and only if the run was leak-free |
| DeviceRefinement.RefusalLeaks | aesd-char-driver/main.c:120-125 | a concrete run whose second write is refused and after which cleanup leaves a block |
| DeviceRefinement.EmptyWriteFaults | aesd-char-driver/main.c:151 | an empty write to a device without a tail faults |
| DeviceRefinement.StrayByteCommits | aesd-char-driver/main.c:141-151 | a completely failed copy to the booted device commits an empty packet if the byte before the block is a newline, and nothing otherwise |
| ReadModel.LookupIsContent | aesd-char-driver/aesd-circular-buffer.c:36-49 | in every reachable state the lookup finds exactly the content's byte at the position, or nothing exactly past the end |
| ReadModel.FetchBytes | aesd-char-driver/main.c:66-94 | the locked part of a read returns the packets' bytes at the noted position and moves both positions by their number |
| ReadModel.FetchRefines | aesd-char-driver/main.c:66-94 | the same over the log, which the read leaves unchanged |
| ReadModel.OwnRead | aesd-char-driver/main.c:61-94 | a read whose note is not overwritten returns the bytes at the reader's own position |
| ReadModel.FetchIsFrom | aesd-char-driver/main.c:66-94 | the locked part of a read with its outcome and both positions, failed copies included, is a function of the packets shown |
| ReadModel.FailedCopyMovesNothing | aesd-char-driver/main.c:84-95 | a read whose copy fails returns the error and moves neither position; at the end it returns nothing and the noted position starts again |
| ReadModel.RaceExact | aesd-char-driver/main.c:61-93 | after any interference a fetch comes out as with the reader's own position noted if and only if that position is noted or both lie past the end, a read of no bytes apart |
| ReadModel.RacingRead | aesd-char-driver/main.c:61-93 | a second reader's whole read in between is harmless exactly when the position it leaves noted is the first one's, or both lie past the end |
| ReadModel.RacingNotes | aesd-char-driver/main.c:61-68 | a read whose note is overwritten returns the bytes at the other position and still advances its own |
| ReadModel.RacingNotesHurt | aesd-char-driver/main.c:61-68 | a packet and two positions for which the raced read returns the wrong byte |
| ReadModel.RacingNotesReachable | aesd-char-driver/main.c:61-68 | one write to the booted device leaves that packet |
| SeekModel.SeekRefines | aesd-char-driver/main.c:192-248 | in every reachable state a seek below command ten succeeds exactly when the slot holds a packet at least that long, and lands behind the slots before it |
| SeekModel.SeekOutcome | aesd-char-driver/main.c:192-248 | in every reachable state a seek succeeds if and only if the command is below ten, its slot is populated and long enough, and then it stays within buf_len; it unlocks without a device if and only if the command is ten or more |
| SeekModel.SlotHolds | aesd-char-driver/aesd-circular-buffer.c:127-136 | committed packet number i sits in slot i modulo ten, and slots never filled hold nothing |
| SeekModel.SeekInBounds | aesd-char-driver/main.c:217-242 | a successful seek leaves the position within the content or at its end |
| SeekModel.SeekRotation | aesd-char-driver/main.c:217-242 | a seek lands the bytes of the slots before out_offs further than the byte it names, modulo the content's length |
| SeekModel.RotationIsProper | aesd-char-driver/main.c:217-242 | in a rotated full ring that distance is neither zero nor a whole turn |
| SeekModel.SeekLandsIff | aesd-char-driver/main.c:217-242 | a successful seek lands on the byte it names if and only if the slots before the oldest packet's hold no bytes, or all of them for a slot among these |
| SeekModel.SeekLandsIffUnrotated | aesd-char-driver/main.c:217-242 | when every packet ends in a newline, a successful seek lands on the byte it names if and only if the ring is unrotated |
| SeekModel.LogicalIsLookup | aesd-char-driver/aesd-circular-buffer.c:62-95 | the position of a slot's byte in the content is the one whose lookup gives that slot and offset |
| SeekModel.RotatedSeekMisses | aesd-char-driver/main.c:217-242 | eleven packets after which a seek to slot 0 lands nine bytes early |
| SeekModel.ReachablePopulated | aesd-char-driver/aesd-circular-buffer.c:121-152 | in every reachable state exactly the live slots hold a pointer |
| SeekModel.SeekThenLookup | aesd-char-driver/main.c:217-242 | in an unrotated ring a seek followed by a lookup comes back to the slot and offset |
| SeekModel.LookupThenSeek | aesd-char-driver/main.c:217-242 | in an unrotated ring a lookup followed by a seek comes back to the position |
| SeekModel.SeekAsDocumented | aesd-char-driver/aesd_ioctl.h:21-34 | the seek is the documented one for all commands below ten and all offsets if and only if slot sizes and age sizes agree |
| CharDevice.AesdDev.constructor | aesd-char-driver/main.c:326-331 | the device boots unlocked in the initial state |
| CharDevice.AesdDev.Write | aesd-char-driver/main.c:102-182 | the device becomes the result of the write step, the file position moves by what was accepted, and only a fault keeps the lock |
| CharDevice.AesdDev.GrowWorkingEntry | aesd-char-driver/main.c:118-145 | clearing and then copying into the reallocated block leaves the staged state |
| CharDevice.AesdDev.SettleWorkingEntry | aesd-char-driver/main.c:151-175 | a newline in the byte looked at, and nothing else, commits |
| CharDevice.AesdDev.CommitWorkingEntry | aesd-char-driver/main.c:158-170 | the add, the free and the two resets make up the commit |
| CharDevice.AesdDev.Read | aesd-char-driver/main.c:51-100 | a read is a note followed by a fetch, and releases the lock on every path |
| CharDevice.AesdDev.FetchNoted | aesd-char-driver/main.c:66-94 | the locked part is the fetch at the noted position, failed copies included |
| CharDevice.AesdDev.FoundFits | aesd-char-driver/main.c:75-84 | the entry found is live and its block long enough for the copy |
| CharDevice.AesdDev.AdjustFileOffset | aesd-char-driver/main.c:192-248 | the file position is set exactly by a successful seek, and the lock is released on every path that has it |
| CharDevice.AesdDev.Llseek | aesd-char-driver/main.c:250-268 | the position moves to the target of fixed_size_llseek for buf_len or stays, and the lock is released |
| CharDevice.LlseekOnContent | aesd-char-driver/main.c:250-268 | in every reachable state SEEK_SET accepts exactly 0 to the content's length, SEEK_CUR moves by the offset and SEEK_END counts from the content's end, exactly as far as that stays within it |
| CharDevice.AesdDev.LlseekThenRead | aesd-char-driver/main.c:250-268 | over the device, llseek followed by read returns the content's bytes at the position so reached, and after SEEK_END with 0 none |
| CharDevice.AesdDev.CleanupModule | aesd-char-driver/main.c:341-351 | the slots and the working entry are freed, and only lost blocks stay |
| Service.ReceiveLine | server/aesdsocket.c:220-244 | a connection of data is received exactly when every chunk up to the first that ends in a newline gets into the device; its bytes up to there then follow the tail, as one packet if a chunk ended in a newline, wherever other newlines lie |
| Service.ReceiveOn | server/aesdsocket.c:220-244 | as long as no chunk, data or command, ends in a newline, the next one is received, from the log and position these leave |
| Service.ReceiveSeek | server/aesdsocket.c:225-243 | a seek command that ends in a newline ends the connection at the position sought, whatever follows it; without a newline the next chunk is received from there; a failed one stops the worker with the log as it was |
| Service.ServeSeek | server/aesdsocket.c:220-267 | a connection whose first newline ends a seek command is not rewound: its reply, delivered completely and only then, is the content from the position sought |
| Service.ServeSeekThenData | server/aesdsocket.c:220-267 | with data up to a newline behind a seek, the reply starts behind the position sought by the bytes written since |
| Service.OneLineServed | server/aesdsocket.c:220-267 | one line to an empty device comes back |
| Service.OneSeekServed | server/aesdsocket.c:220-267 | a seek to the second byte of the only packet gets that byte, and what is sent behind it is not received |
| Service.RepliesInBlocks | server/aesdsocket.c:254-257 | a reply from the start takes as many reads of 1024 bytes as each packet needs |
| Service.DeliverWhole | server/aesdsocket.c:257-267 | the send loop delivers all its reads return exactly when no copy failed and no send failed or fell short |
| Service.ReplyWhole | server/aesdsocket.c:257-267 | the reply is the content from its start on exactly when every read was delivered completely |
| Service.ShortSendCuts | server/aesdsocket.c:265-266 | a packet and a short send after which the client has got only its first byte |
| Service.DeliverBreaks | server/aesdsocket.c:257-267 | the send loop stops the process exactly when a read that all copies up to it let it come to is one whose send fails |
| Service.DeliverPrefixes | server/aesdsocket.c:257-267 | what is sent is, read by read up to the first failed copy, as much as each send took |
| Service.ReplyDown | server/aesdsocket.c:257-267 | a reply makes the process exit if and only if some read it comes to is copied and its send fails, with the log as it was, and otherwise consists of the prefixes the sends took |
| Service.FailedSendStops | server/aesdsocket.c:265-266 | a packet and one failed send after which the process has exited |
| Service.ServeLine | server/aesdsocket.c:220-267 | a connection of data that ends in a newline commits one packet behind an earlier tail, and with everything taken and delivered completely, only then, the reply is the last at most ten packets, which end in that one |
| Service.ServeLineEnds | server/aesdsocket.c:220-267 | a reply that meets no short or failed delivery ends in the connection's own bytes |
| Service.ServeSingleLine | server/aesdsocket.c:220-267 | one line leaves the same log and gets the same reply however it is cut into chunks |
| Service.ReceiveHistory | server/aesdsocket.c:220-244 | a received connection appends exactly its own bytes in one piece, and one that stops the worker a first part of them |
| Worker.TakeWrite | server/aesdsocket.c:237-238 | the driver's answer to a write is the one that makes the worker go on or exit, and leaves the log's device unless a block is lost |
| Worker.HandleChunk | server/aesdsocket.c:225-240 | one turn of the receive loop has the effect the service model gives the chunk |
| Worker.ReceiveAll | server/aesdsocket.c:220-244 | the receive loop has the effect of receiving the whole connection |
| Worker.ReadSome | server/aesdsocket.c:257 | one read call returns the content at the file position, or fails without moving it |
| Worker.DeliverNext | server/aesdsocket.c:257-266 | one read and its send take the next part off what is left to deliver |
| Worker.SendContent | server/aesdsocket.c:257-267 | the send loop terminates having sent what the reads, copies and sends allow, with exactly the reads of a drain and one empty one when all of them are complete |
| Worker.SendAndReceive | server/aesdsocket.c:192-288 | the whole critical section sends the reply and leaves the device in step with the log that serving the connection gives, or stops where serving it stops, with the log it leaves there |
| Threads.CallAnswers | server/aesdsocket.c:203-275 | every driver call of a thread is answered as the log answers it, and leaves the device in step with the log unless it is a refused write |
| Threads.ChunkOnCourse | server/aesdsocket.c:220-244 | a receive step leaves the outcome of the connection unchanged, or stops the process with the outcome's reason and log |
| Threads.ChunkSwallowed | server/aesdsocket.c:220-243 | a receive step that goes on takes exactly one chunk |
| Threads.ChunksAlone | server/aesdsocket.c:220-275 | every other step takes none, but for the end of sending, which ends the receive loop |
| Threads.ReadOnCourse | server/aesdsocket.c:257-266 | a fetch step leaves the outcome of the connection unchanged |
| Threads.StepOnCourse | server/aesdsocket.c:203-275 | every step of the mutex's holder keeps the outcome of its connection fixed |
| Threads.StepOwed | server/aesdsocket.c:220-244 | what a step adds to the device's history is what the connection has no longer to write |
| Threads.StepCloser | server/aesdsocket.c:203-275 | every step of the holder brings it strictly closer to its end |
| Interleaving.MutexAcquired | server/aesdsocket.c:199-201 | taking the free mutex makes the thread its only holder and the last in the order |
| Interleaving.MutexMoved | server/aesdsocket.c:277 | a thread that moves on keeps or releases the mutex and disturbs nobody |
| Interleaving.StepKeeps | server/aesdsocket.c:192-288 | one step of any thread, or one arrival, keeps the run equal to a serial one |
| Interleaving.Serializable | server/aesdsocket.c:199-277 | every schedule gives the replies, the device, the stop and the log at the stop of the connections served one by one in mutex order |
| Interleaving.MutualExclusion | server/aesdsocket.c:199-277 | in every reachable state at most one thread is between taking and releasing the mutex, and it is the holder |
| Interleaving.NotedPositionIsOwn | aesd-char-driver/main.c:61-68 | in every schedule a fetch returns the bytes at the fetching thread's own position |
| Interleaving.SerialHistory | server/aesdsocket.c:199-277 | the serial log's history is the connections' bytes in mutex order |
| Interleaving.NoMixing | server/aesdsocket.c:199-277 | in every reachable state the device's history is the earlier connections' bytes in mutex order followed by a first part of the holder's, whose rest is what it has still to write, also when the server stops there |
| Interleaving.OwnLineLast | server/aesdsocket.c:255-267 | in every schedule a finished client whose data ended in a newline, wherever else newlines lay, got the content as it was after its turn, ending in its own bytes, unless a delivery was short or failed |
| Interleaving.OwnSeek | server/aesdsocket.c:220-267 | in every schedule a finished client that sent a seek command on a line of its own left the log as it was and got the content of its turn from the position sought, unless a delivery was short or failed |
| Interleaving.NothingBeforeItArrives | server/aesdsocket.c:220-243 | in every run a thread has taken a first part of its client's chunks, up to the first that ends in a newline or all of them and the end of sending, and these and what it can still take are exactly what has arrived |
| Interleaving.StepProgress | server/aesdsocket.c:220-277 | an event changes something exactly when it is not blocked, and then it brings its thread strictly closer to the end and leaves the others alone |
| Interleaving.FreeForAll | server/aesdsocket.c:199-201 | any waiting thread may take the free mutex |
| Interleaving.NoDeadlock | server/aesdsocket.c:199-277 | while a connection is unfinished, no thread can move if and only if the client being served is silent and every other one waits for the mutex or is done, and what that client sends next ends this |
| Interleaving.StepRank | server/aesdsocket.c:199-277 | every event that is not blocked lowers one rank of the whole system, so no schedule stays busy for ever |
| Interleaving.Completes | server/aesdsocket.c:192-288 | from every reachable state some schedule of turns and arrivals finishes all connections or stops the server |
| Interleaving.BootStarts | server/aesdsocket.c:461-468 | the theorems apply to the freshly booted device and any connections |
| TailQueue.Init | server/queue.h:448-451 | an empty queue |
| TailQueue.InsertHead | server/queue.h:453-461 | prepends the element |
| TailQueue.InsertBefore | server/queue.h:463-468 | inserts before the given element |
| TailQueue.InsertAfter | server/queue.h:470-479 | inserts after the given element |
| TailQueue.InsertTail | server/queue.h:481-486 | appends the element |
| TailQueue.Concat | server/queue.h:488-495 | the first queue gets both lists and the second is empty |
| TailQueue.RemoveElm | server/queue.h:497-504 | deletes exactly the element, whose own links stay as they were |
| TailQueue.Replace | server/queue.h:506-515 | puts the new element at the old one's place |
| TailQueue.Swap | server/queue.h:517-534 | exchanges the lists, also of a queue with itself |
| TailQueue.First | server/queue.h:540 | the first element, or null |
| TailQueue.Next | server/queue.h:543 | the successor, or null |
| TailQueue.LastHops | server/queue.h:541-542 | two hops through the head's back pointer reach the slot that points at the last element |
| TailQueue.Last | server/queue.h:541-542 | the last element, or null when empty |
| TailQueue.PrevHops | server/queue.h:544-545 | two hops through an element's back pointer reach the slot that points at its predecessor |
| TailQueue.Prev | server/queue.h:544-545 | the predecessor, or null for the first |
| TailQueue.Foreach | server/queue.h:549-552 | visits the list |
| TailQueue.ForeachReverse | server/queue.h:559-562 | terminates and visits the reverse of the list |
| TailQueue.VisitSafe | server/queue.h:554-557 | the saved successor is right whether or not the body removes the element |
| TailQueue.ForeachSafeRemoving | server/queue.h:554-557 | with any subset removed on the way, visits every element once in order and leaves the kept ones in order |
| Links.ReverseAt | server/queue.h:559-562 | what the reverse of a list is, index by index |
| Links.KeepSubset | server/queue.h:554-557 | what is kept are exactly the elements that are not dropped |
| TailQueueRuns.InitAll | server/queue.h:448-451 | any number of distinct heads become empty disjoint queues |
| TailQueueRuns.OneChanged | server/queue.h:453-515 | an operation on one queue leaves all queues well linked and disjoint |
| TailQueueRuns.TwoChanged | server/queue.h:488-534 | a splice or exchange of two queues leaves all queues well linked and disjoint |
| TailQueueRuns.ApplyTwo | server/queue.h:488-534 | what concatenation and exchange make of two lists stays within them and disjoint |
| TailQueueRuns.ApplyAt | server/queue.h:463-515 | the abstract operation at an element puts the new one right before, right after or in place of it, or takes it out, and changes nothing else |
| TailQueueRuns.ApplyToWhole | server/queue.h:453-534 | the other abstract operations add at one end, append the second list and empty it, or exchange the lists, and change nothing else |
| TailQueueRuns.ApplyRuns | server/queue.h:453-534 | a run of one operation is that operation, and a continued run is the runs one after another |
| TailQueueRuns.RemovedIsLoose | server/queue.h:497-504 | an element taken out is in no queue and no head |
| TailQueueRuns.RemoveUndoesInsert | server/queue.h:453-504 | removing what was just inserted, wherever it went, restores every queue |
| TailQueueRuns.AllowedWhereAsked | server/queue.h:453-534 | every operation may be used at a member of a queue, with an element that is in none |
| TailQueueRuns.Perform | server/queue.h:453-534 | one operation performs its abstract counterpart among all the queues, and sets the links it is about |
| TailQueueRuns.PerformAll | server/queue.h:453-534 | so does every sequence of operations |
| CircleQueue.InitCircle | server/queue.h:590-593 | an empty ring |
| CircleQueue.InsertFirst | server/queue.h:595-604 | prepends the element |
| CircleQueue.InsertPrior | server/queue.h:606-615 | inserts before the given element |
| CircleQueue.InsertNext | server/queue.h:617-626 | inserts after the given element |
| CircleQueue.InsertLast | server/queue.h:628-637 | appends the element |
| CircleQueue.RemoveFromCircle | server/queue.h:639-650 | deletes exactly the element |
| CircleQueue.Neighbours | server/queue.h:670-675 | forward and backward links are mutually inverse through the head |
| CircleQueue.ForeachCircle | server/queue.h:677-680 | visits the list |
| CircleQueue.ForeachCircleReverse | server/queue.h:688-691 | visits the reverse of the list |
| CircleQueue.LoopSteps | server/queue.h:699-707 | going on and going back are the two rotations of the elements, skipping the head |
| CircleQueue.LoopInverse | server/queue.h:699-707 | they undo each other on every element |
| CircleQueue.FullCircle | server/queue.h:699-702 | n steps in a ring of n elements visit each once and return to the start |
| CircleQueue.ResultAt | server/queue.h:595-650 | the abstract operation adds at one end, or right before or right after the element, or takes it out, and leaves the rest in order |
| CircleQueue.ResultRuns | server/queue.h:595-650 | a run of one operation is that operation, and a continued run is the runs one after another |
| CircleQueue.PerformOnCircle | server/queue.h:595-650 | one operation performs its abstract counterpart and sets the links it is about |
| CircleQueue.PerformAllOnCircle | server/queue.h:595-650 | every sequence of inserts and removes keeps the ring and performs the abstract operations |
| SinglyTailQueue.InitString | server/queue.h:315-318 | an empty queue |
| SinglyTailQueue.InsertFront | server/queue.h:320-325 | prepends the element |
| SinglyTailQueue.InsertBehind | server/queue.h:327-333 | inserts after the given element |
| SinglyTailQueue.InsertEnd | server/queue.h:335-339 | appends the element |
| SinglyTailQueue.Splice | server/queue.h:341-347 | the first queue gets both lists and the second is empty |
| SinglyTailQueue.RemoveFront | server/queue.h:349-354 | drops the first element |
| SinglyTailQueue.RemoveFrontUntil | server/queue.h:356-361 | drops exactly the prefix through the element |
| SinglyTailQueue.RemoveBehind | server/queue.h:363-369 | drops exactly the successor |
| SinglyTailQueue.RemoveMember | server/queue.h:371-385 | the search terminates, exactly the member is dropped and the tail pointer stays at the null-holding slot |
| SinglyTailQueue.Exchange | server/queue.h:387-400 | exchanges the lists, also of a queue with itself |
| SinglyTailQueue.ForeachString | server/queue.h:415-418 | visits the list |

## Left out

- Kernel and operating system plumbing: module and device registration, container_of, logging, sockets, fork, daemon mode.
- fixed_size_llseek, krealloc and kfree are not part of the repository; llseek is taken to accept exactly the positions 0 to buf_len, and a freed block's identity is never handed out again.
- aesd_release destroys the device lock on every close; the model lets the lock live as long as the module.
- A fault freezes the modelled device. What is said about runs that fault (RunSafe, LostIffNotLeakFree, CleanupAfterRun) is about the ledger as it stood at the fault; nothing is claimed about what a kernel does after it.
- The signal handler, the timer code that is compiled out, and main's loop that joins finished threads; the interleavings need no help from main.
- The text of a seek command, and its comparison against stale buffer bytes: each received chunk is tagged as data or as a seek.
- SendAndReceive: opening and closing the device always succeed, a failing recv counts as the client's end, and connections are small enough that file positions and buffer sizes stay below the largest size_t.
- Interleaving: file positions are unbounded there, and a stopped process is not started again.
- AdjustFileOffset: the sum of slot sizes is unbounded, because live blocks lie in one address space.
- FindEntryOffsetForFpos: the live bytes are fewer than 2^64, for the same reason.
- Read: the file position is below the largest size_t, which the kernel's signed positions guarantee, and the live bytes are fewer than 2^64.
- Write: the working entry and the user's buffer together are shorter than 2^64 bytes, for the same reason.
- CIRCLEQ_REPLACE and CIRCLEQ_FOREACH_REVERSE_SAFE do not compile as written; the reverse safe traversal of TAILQ mirrors the forward one; SLIST and LIST would only add easy members.
- The queue operations on several heads (`TailQueueRuns`) leave out swapping a queue with itself, which TailQueue.Swap covers.
- Nothing was executed.
