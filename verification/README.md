# A verified model of the file storage server

The repository is a multi-threaded, in-memory file storage server with a client library. This project models
its core in Dafny and proves what that core promises.

- **The storage table.** `Files` is the decision every request takes on one file record, `Tables` the table as
  bucket chains with statistics and the *shelf* it stands for (the live files in creation order), `Refinement` and
  `TableRuns` the proof that the two agree over every run, `Locks` the lock protocol over whole runs, `Histories` what a
  client can tell from requests and answers alone, `KeptQueues` the FIFO policy when removals leave their keys queued. `Buckets`, `FifoQueues` and `HTables` are the same table in memory:
  items with `next` and `prev`, a linked eviction queue and the class whose methods are the operations of `htable.c`,
  each proved to do the table's step; whole runs of the class are runs of the table.
- **The table under threads.** `Guards` cuts every operation where it takes and releases guards and allows any
  interleaving of any number of threads; `GuardGaps` says exactly when two properties fail there, `StaleHeads` adds
  creation's read of the bucket's head without the guard, and `LockSchedules` is the lock protocol there.
- **The wire protocol.** `BigEndian`, `Framing` (the incremental deserializer), `Messages` (requests), `Transfers`
  (reads and writes that move as much as they like, and the replies), `Receivers` (the table of connections and the poll
  loop) and `Connections` (whose descriptor goes with what, and one iteration entry by entry).
- **The workload queues.** `WorkQueues` is the linked queue, `Handshakes` the waiting of workers and the shutdown.

The path hash is a parameter about which nothing is assumed. Random draws, the results of `poll`, `accept`, `read` and
`write`, the scheduling of threads and spurious wakeups are parameters too, so every theorem holds for all of them.
Integers are unbounded except where the width matters: lengths and the deserializer's arithmetic are 64 bits wide
and wrap, the counts that threads drive below zero are compared as unsigned 64-bit numbers, and a size returned as an
`int` is cut to 32 bits.

## Where the code does not do what it is meant to do

The code is modelled as it is wherever a property can be stated about it; where an intended behaviour has to be
repaired first, both are modelled. Each divergence has a theorem with its exact condition.

- The FIFO links run from new to old, but eviction follows them from the oldest entry: `FifoQueues.AsWrittenExactly`,
  `FifoQueues.AsWrittenEvictsNewest`. The table uses a queue linked the other way.
- Removal leaves its key in the FIFO queue, so that an eviction can stop the process or take the wrong file:
  `KeptQueues.KeptRunExactly`, `KeptQueues.EveryEviction`. The table of the other modules takes the key out.
- The workload queue overwrites its first message and keeps a tail it no longer owns, which may even be the memory of
  the next message: `WorkQueues.AsWrittenExactly`. The class `WorkQueues.WorkQueue` is the repaired queue.
- Removing a closed file lowers the open count: `TableRuns.RunKeepsBooks`, `TableRuns.ClosedRemovalMiscounts`. Modelled
  as written.
- Re-opening a file without the lock flag unlocks it over its waiters: `Locks.TidyExactly`. Modelled as written; the
  process stopping on the waiter assertion is the answer `Aborted`.
- Creation searches in another section than it links in: `GuardGaps.OnceExactly`. And it reads the head of the bucket
  outside the guard: `StaleHeads.KeptExactly`. `Guards` reads the head inside the guard and keeps the two sections.
- Under threads, the evictor's assertion that the table is not empty can fail: `GuardGaps.ItemsPositiveExactly`,
  `GuardGaps.EmptinessAssertHolds`. One request at a time it cannot: `TableRuns.OverHasVictim`.
- The client reports an error for a reply with an empty file or with one whose size is negative as an `int`, after
  saving it, and takes an interrupted read of a status byte for an error: `Transfers.HandleResponseWithFiles`,
  `Transfers.ReadFileReply`.
- A frame whose announced size wraps around 64 bits gets a buffer too small for it, and a write whose two lengths wrap
  is read past its end: `Framing.SinkFitsExactly`, `Messages.WriteCheckExactly`.
- The client sends appends, and no worker has a case for them: `Messages.AppendIsDropped`.
- The comment over `make_simple_request` leaves the magic code out of the header; the code writes it, and so does the
  model.
- A connection dropped for what it sent is marked by changing the sign of its descriptor, so marking it twice revives
  it: `Receivers.MarkingExactly`, `Receivers.DroppedComesBack`.

## Model

| member | source | states |
|---|---|---|
| `Refinement.TouchRefines` | src/server/htable.c:195-461 | up to its evictions, every request changes the chains, the queue and the item and byte counts exactly as it changes the list of live files in creation order |
| `Refinement.AccountExact` | src/server/htable.c:274-461 | the counts booked by a request are the true number of files and bytes after it |
| `Refinement.VictimRefines` | src/server/htable.c:605-661 | the file the evictor finds by hash, chain position or queue front is the oldest of all, or the oldest of the bucket drawn, and it finds one exactly when there is one |
| `Refinement.EvictOneRefines` | src/server/htable.c:605-661 | unlinking the victim from its chain removes that one file from the creation order and touches no other bucket |
| `Refinement.EvictAllRefines` | src/server/htable.c:670-706 | a whole eviction run on the chains takes the same files in the same order as on the list of live files |
| `Refinement.StepAgrees` | src/server/htable.c:195-461 | one request keeps table and shelf in agreement, statistics and peaks included, and gives the same answer and the same evicted files |
| `TableRuns.RunAgrees` | src/server/htable.c:195-461 | over every run of requests under either policy, the table answers as the shelf and ends in agreement with it |
| `TableRuns.RunIsMap` | src/server/htable.c:130-155 | over every run, searching a path in its bucket finds exactly the record a plain map holds after the same requests; keys sit in the bucket they hash to and never twice |
| `TableRuns.WriteSettles` | src/server/htable.c:399-461 | a write or append that finds its file ends within both limits; evicted plus remaining files are the files before, contents intact; before each eviction a limit was still exceeded |
| `TableRuns.OverHasVictim` | src/server/htable.c:637-661 | while a limit is exceeded the item count is positive and some bucket has a victim, so the assertion and the fatal exit are out of reach |
| `TableRuns.EvictionEnds` | src/server/htable.c:670-706 | from every table that agrees with a shelf there are draws that finish the run, at most one per file |
| `TableRuns.EvictionConserves` | src/server/htable.c:670-706 | an eviction run conserves files, counts and bytes between the shelf and what it hands back, and ends within the limits |
| `TableRuns.EvictionNeeded` | src/server/htable.c:670-706 | stopping before any eviction of the run would leave a limit exceeded |
| `TableRuns.FifoEvictsPrefix` | src/server/htable.c:605-635 | under FIFO an eviction run removes the shortest oldest-first prefix that restores both limits |
| `TableRuns.FifoRun` | src/server/htable.c:576-635 | over every run under FIFO (queue repaired) the queue is the live paths in creation order, and each write evicts the shortest such prefix |
| `KeptQueues.KeptRunExactly` | src/server/htable.c:358-397 | over every run of the table whose removals leave the queue alone: every eviction takes the oldest live file and none stops the process if and only if before each the front path is live and no other live path's latest entry comes before its latest; the queue is the live paths in creation order if and only if no file was ever removed, and then every eviction is right |
| `KeptQueues.RightWithoutRemovals` | src/server/htable.c:605-635 | a caller that asks for no removal gets the right evictions and no crash |
| `KeptQueues.EveryEviction` | src/server/htable.c:605-635 | at every eviction of every such run: the process stops if and only if the front path is dead; the wrong file goes if and only if the front path is live, queued again and another live path is older; a live path queued once is taken rightly |
| `KeptQueues.GoodRunIsIntended` | src/server/htable.c:576-635 | as long as every front was good, the run is one of the repaired table, with the same answers and evicted files |
| `KeptQueues.DeadFrontCrashes` | src/server/htable.c:691-691 | five requests after which the evictor's caller uses a missing file |
| `KeptQueues.RecreatedFrontMisleads` | src/server/htable.c:605-635 | five requests after which the newer of two files is evicted |
| `TableRuns.ChainsInBirthOrder` | src/server/htable.c:293-303 | through any mix of requests every chain stays sorted by the creation each path was last granted, newest first |
| `TableRuns.EvictsOldestOfBucket` | src/server/htable.c:637-661 | after any run, the k-th file a write or append evicts is from the k-th bucket drawn and was created no later than any file the write left in that bucket and had not evicted before |
| `TableRuns.LedgerIsObserved` | src/server/htable.c:306-317 | the shelf's counts of creations and evictions are those read off the answers given to clients |
| `TableRuns.RunKeepsBooks` | src/server/htable.c:306-317 | over every run: items = creations granted - removals - evictions, items at most the limit plus creations since the last settled write, bytes exact, both maxima the true peaks, eviction counter = files handed back, open count exact if and only if no closed file was removed |
| `TableRuns.ClosedRemovalMiscounts` | src/server/htable.c:391-395 | create, close, remove takes the open count to -1 |
| `Locks.RecordIsPathRun` | src/server/htable.c:140-155 | the record found for a path depends only on the requests that named it and on its evictions |
| `Histories.RecordIsAsSeen` | src/server/htable.c:195-461 | over every run, a path's record has the contents, open flag, lock holder and waiters that a reading of requests and answers alone tells: empty when created, the data of each write, extended by each append; held by who created, opened or locked it so or was handed the lock, by nobody after an unlock that woke nobody |
| `Histories.AnswersAsExpected` | src/server/htable.c:195-461 | every answer of every run, and the client told that it holds the lock, follow a table over presence, open flag, holder and waiters as read so far |
| `Histories.EvictedAsSeen` | src/server/htable.c:670-706 | every file handed back as evicted carries the contents that reading tells |
| `Histories.HolderAsSeen` | src/server/htable.c:195-246 | a client holds a lock if and only if requests and answers name it as the holder |
| `Histories.UnlockReleases` | src/server/htable.c:218-246 | after an unlock that succeeded and woke nobody, whoever asks for the lock next gets it |
| `Locks.HolderKeepsLock` | src/server/htable.c:195-246 | over any continuation of any run, a lock stays with its holder and the file stays present and open or closed as it was, unless the holder unlocks, opens, removes or closes, the server removes or the file is evicted |
| `Locks.WaitsAreServed` | src/server/htable.c:195-246 | in a file's lifetime the lock requests told to wait are, as a multiset, the hand-offs plus the waiters queued, and the queue is what most-recent-first service leaves |
| `Locks.HandOffIsLatest` | src/server/htable.c:218-246 | every hand-off goes to the most recent outstanding waiter, who then holds the lock |
| `Locks.StrayWaitersExactly` | src/server/htable.c:248-272 | a request leaves an unlocked file with waiters if and only if it is the holder's re-opening without the lock flag over waiters |
| `Locks.TidyExactly` | src/server/htable.c:205-216 | over every run, no unlocked file ever has waiters if and only if no such re-opening happens; then the waiter assertion never fails |
| `Locks.StrayWaiterExample` | src/server/htable.c:254-263 | a legal run of five requests whose last one fails the assertion |
| `LockSchedules.HolderKeepsLockUnderThreads` | src/server/htable.c:195-246 | in every interleaving in which no path is created twice, a lock stays with its holder and the file stays present until the holder's own unlock, open or remove, the server's removal or an eviction |
| `LockSchedules.TidyExactlyUnderThreads` | src/server/htable.c:205-216 | in every such interleaving, a path is never unlocked with waiters if and only if no holder re-opens it without the lock flag over waiters; then no request fails the waiter assertion |
| `Buckets.Bucket.Find` | src/server/htable.c:140-155 | the search loop returns the item with the key and its place in the chain, or nothing |
| `Buckets.Bucket.PushFront` | src/server/htable.c:293-304 | linking in front keeps both directions of the chain and adds exactly one record |
| `Buckets.Bucket.Unlink` | src/server/htable.c:369-381 | chaining the neighbours together removes exactly that record and keeps both directions |
| `Buckets.Bucket.PopLast` | src/server/htable.c:649-660 | detaching the last item keeps the rest of the chain, both directions |
| `Buckets.ForwardIsReverseOfBackward` | src/server/htable.c:293-304 | following `next` from `head` gives the chain, and following `prev` from `last` gives its reverse |
| `FifoQueues.FifoQueue.Add` | src/server/htable.c:576-589 | (repaired links) appends one key |
| `FifoQueues.FifoQueue.Evict` | src/server/htable.c:591-603 | (repaired links) takes the oldest key, nothing exactly when empty |
| `FifoQueues.FifoQueue.Remove` | src/server/htable.c:358-397 | (repair) takes the first occurrence of a key out of the linked queue |
| `FifoQueues.AsWrittenExactly` | src/server/htable.c:576-603 | the queue as written serves as a queue should if and only if every serve is the first or follows just one that emptied it |
| `FifoQueues.AsWrittenEvictsNewest` | test/test2.sh:10-29 | three files in a store of one: the queue as written pushes out the newest instead of the second |
| `HTables.HTable.constructor` | src/server/htable.c:60-91 | the new table in memory agrees with the empty shelf |
| `HTables.HTable.LockFile` | src/server/htable.c:195-216 | the operation in memory does the table's step for a lock request and keeps every invariant |
| `HTables.HTable.UnlockFile` | src/server/htable.c:218-246 | the same for unlock, with the new owner reported |
| `HTables.HTable.OpenFile` | src/server/htable.c:248-272 | the same for open |
| `HTables.HTable.CreateFile` | src/server/htable.c:274-318 | the same for create; only new items are linked |
| `HTables.HTable.CloseFile` | src/server/htable.c:334-356 | the same for close |
| `HTables.HTable.RemoveFile` | src/server/htable.c:358-397 | the same for remove, refused removals answering success included (repaired: the key also leaves the queue) |
| `HTables.HTable.DrawBucket` | src/server/htable.c:640-648 | drawing ends at a bucket that is not empty, if every bucket comes up again and again |
| `HTables.HTable.EvictFiles` | src/server/htable.c:670-706 | the loop performs a legal eviction run of the table and returns its files in order; nothing is assumed of the draws under FIFO |
| `HTables.HTable.ReplaceContents` | src/server/htable.c:399-430 | the same for replace, evicted files included |
| `HTables.HTable.AppendContents` | src/server/htable.c:432-461 | the same for append, evicted files included |
| `HTables.HTable.Serve` | src/server/htable.c:195-461 | any list of requests run on the objects in memory is a legal run of the table and of the shelf: same answers, same evicted files, and the memory is where the run ends |
| `TableRuns.RanIsRun` | src/server/htable.c:195-461 | a table that agrees with the end of a run of the shelf is the end of that run of the table |
| `Guards.RunAccounts` | src/server/htable.c:306-317 | in every interleaving, statistics plus the changes in flight are the true item, byte and open counts, less the removals of closed files |
| `Guards.QuietRunIsExact` | src/server/htable.c:389-395 | once every thread is idle the statistics are exact |
| `Guards.NoCycle` | src/server/htable.c:670-706 | in no interleaving does a cycle of threads wait for guards |
| `Guards.NeverStuck` | src/server/htable.c:637-661 | as long as some thread has work, some thread can move |
| `Guards.IdleHoldsNothing` | src/server/htable.c:264-268 | a thread that finished its request holds no guard: every return path releases what it took |
| `GuardGaps.OnceExactly` | src/server/htable.c:274-304 | in every interleaving, no path ever occurs twice if and only if no creation links a path that is in its chain by then |
| `GuardGaps.CreatedTwice` | src/server/htable.c:274-304 | a schedule in which two threads create the same path, which then occurs twice |
| `GuardGaps.OneThreadOnce` | src/server/htable.c:274-304 | with a single thread no path ever occurs twice |
| `GuardGaps.QuietRunIsWithin` | src/server/htable.c:670-706 | in every interleaving whose byte count fits 64 bits, once all threads are idle the files stored are within the byte limit |
| `GuardGaps.ItemsPositiveExactly` | src/server/htable.c:637-640 | in every state of every schedule, the unsigned item counter is not zero if and only if the files in the chains differ from the changes in flight modulo 2^64; from them outright, as long as files and threads can be counted in 64 bits |
| `GuardGaps.EmptinessAssertHolds` | src/server/htable.c:637-640 | over a limit, with no creation and no write, growing or shrinking, between its bucket and its booking, the item counter is not zero |
| `GuardGaps.EmptinessAssertFails` | src/server/htable.c:637-640 | a schedule with a creation in flight in which the evictor starts over a limit with no items counted |
| `GuardGaps.EmptinessAssertFailsOnWrite` | src/server/htable.c:637-640 | the same with a write in flight and no creation, whenever the difference of two writes, as an unsigned number, exceeds the byte limit |
| `GuardGaps.EmptinessAssertFailsOnShrinking` | src/server/htable.c:637-640 | such a schedule with a shrinking write |
| `GuardGaps.EmptinessAssertFailsOnGrowing` | src/server/htable.c:637-640 | such a schedule with a growing write, where the byte counter wraps around below zero |
| `StaleHeads.KeptExactly` | src/server/htable.c:293-304 | in every interleaving with the unguarded read as a step of its own, and whatever addresses are reused, no link loses a file or leaves a dangling pointer if and only if at every link the head is at the address the thread read; then the run is one of the model with the read inside the guard |
| `StaleHeads.FileLost` | src/server/htable.c:293-304 | a schedule of two creations in one bucket, both granted, of which one file cannot be found |
| `BigEndian.Fill` | src/utilities.c:88-99 | fills the buffer with the eight bytes of the number |
| `BigEndian.DecodeEncode` | src/utilities.c:73-99 | every 64-bit number survives encoding and decoding |
| `BigEndian.EncodeDecode` | src/utilities.c:73-99 | every eight bytes survive decoding and encoding |
| `BigEndian.DecodeIsValue` | src/utilities.c:73-86 | the first byte counts most: decoding gives the value of the bytes in base 256 |
| `BigEndian.EncodeHasValue` | src/utilities.c:88-99 | so does encoding |
| `Framing.MissingExact` | src/server/deserializer.c:63-75 | on every unfinished buffer the 64-bit subtraction gives exactly what is missing, and it is positive |
| `Framing.ChunkingIrrelevant` | src/server/deserializer.c:36-83 | for every stream and every split into legal reads, the frames given out and the bytes held are those of cutting the stream by length, nothing is lost, and the missing count is positive |
| `Framing.SinkFitsExactly` | src/server/deserializer.c:77-83 | the buffer handed out is as large as promised if and only if the announced frame size fits 64 bits; otherwise it is smaller than what is held |
| `Framing.OversizedHeader` | src/server/deserializer.c:63-83 | every header with such a size is plausible, can arrive in one read and gets such a buffer |
| `Framing.Deserializer.Validate` | src/server/deserializer.c:52-61 | accepts exactly the buffers that are too short to tell or begin with the magic code |
| `Framing.MagicBytes` | src/server/deserializer.c:52-61 | eight bytes or more pass the check if and only if they begin with the eight bytes of the magic code, given one by one |
| `Framing.Deserializer.Sink` | src/server/deserializer.c:77-83 | reallocation keeps the bytes held and leaves room for what is missing, or reports that the size wraps, exactly when it does |
| `Framing.Deserializer.Detach` | src/server/deserializer.c:36-50 | gives the buffer out and empties it exactly when nothing is missing |
| `Framing.Deserializer.Take` | src/server/receiver.c:176-203 | sink, read and detach in memory are one step of the framing, or an overrun exactly when the size wraps |
| `Framing.ReadAll` | src/server/receiver.c:176-203 | feeding any legal split to the deserializer in memory gives the frames of the whole stream, or an overrun exactly when some size wraps before a read |
| `Messages.ReadMessage` | src/server/worker.c:268-336 | decoding with a moving position and a shrinking length reads what the frame says |
| `Messages.ReadWrite` | src/server/worker.c:129-152 | the same for the two arguments of a write |
| `Messages.RequestRoundTrip` | src/serverapi.c:205-264 | every request a client can make is one whole valid frame from which the worker reads the same operation, path and contents |
| `Messages.ConversationRoundTrip` | src/serverapi.c:205-264 | any series of requests, delivered in any reads, comes out as that many frames and the same requests |
| `Messages.NeverFatalHeader` | src/server/worker.c:280-288 | the fatal length check never fires on a whole frame |
| `Messages.WriteCheckExactly` | src/server/worker.c:132-139 | the length check of a write lets missing arguments through if and only if the two lengths wrap around 64 bits |
| `Messages.WrappedLengths` | src/server/worker.c:132-152 | a whole valid frame whose lengths wrap, which the worker reads past |
| `Messages.AppendIsDropped` | src/server/worker.c:298-334 | every append a client sends is a whole valid frame, and the worker does not recognise it |
| `Messages.OperationsRecognised` | src/server/worker.c:298-334 | which operation codes the worker acts on, by number, and which take a path |
| `Messages.FramesNotActedOn` | src/server/worker.c:271-288 | bare headers are ignored, lengths that do not add up are fatal, arguments of the wrong length are dropped |
| `Messages.CStringExactly` | src/utilities.c:23-31 | a path is everything before the first zero byte |
| `Transfers.ReadBytes` | src/utilities.c:33-51 | whatever the partial transfers, what was read is the front of the stream; all of it if no call fails |
| `Transfers.WriteBytes` | src/utilities.c:53-71 | whatever the partial transfers, all bytes are appended if no call fails |
| `Transfers.MakeSimpleRequest` | src/serverapi.c:205-220 | without an error, exactly the header and payload of the request are on the wire |
| `Transfers.MakeRequestWithTwoArgs` | src/serverapi.c:243-270 | the same for a request with two arguments |
| `Transfers.SendWriteReply` | src/server/worker.c:160-189 | the reply to a write is on the wire, entry by entry |
| `Transfers.SendReadReply` | src/server/worker.c:61-87 | the reply to a read is on the wire |
| `Transfers.HandleResponseWithFiles` | src/serverapi.c:157-197 | the client saves exactly the files sent, up to and including the first that is empty or has a size negative as an `int`, and reports success if and only if there is none such; then it has consumed exactly the reply; an error status is an error |
| `Transfers.ReadFileReply` | src/serverapi.c:324-344 | the client gets exactly the contents sent, if and only if their size is not negative as an `int` and the read of the status is not interrupted; a refusal is an error with nothing read |
| `Transfers.WriteReplyTravels` | src/server/worker.c:160-189 | worker and client together: every list of evicted files is saved as it was sent, to the same extent and with the same report |
| `Transfers.ReadReplyTravels` | src/server/worker.c:61-87 | worker and client together, for stored files and refusals: the client succeeds, with the contents, if and only if the file was stored, its size is not negative as an `int` and its read of the status is not interrupted |
| `Transfers.StatusTravels` | src/serverapi.c:221-231 | worker and client together, for a request without files: success if and only if the result was zero and the read is not interrupted |
| `Transfers.AsIntExactly` | src/utilities.c:33-51 | a size returned as an `int` is its residue modulo 2^32 in the signed range |
| `Receivers.CleanupKeepsLive` | src/server/receiver.c:84-104 | the listening entry stays, live pairs of socket and deserializer keep their multiset, only dead ones go, at most half of the dead ones remain |
| `Receivers.SweepCounts` | src/server/receiver.c:84-104 | a pass drops at least half of the dead entries it meets and at most half of all entries, rounded up |
| `Receivers.AllDeadHalves` | src/server/receiver.c:84-104 | if all are dead exactly half go, rounded up, so the bound is tight |
| `Receivers.PassesClean` | src/server/receiver.c:84-104 | after n passes with 2^n above the number of dead entries none is left and all live ones are |
| `Receivers.Receiver.RemoveDead` | src/server/receiver.c:84-104 | the loop over the two arrays in place does such a pass on the aligned pairs |
| `Receivers.Receiver.AddConnection` | src/server/receiver.c:57-82 | a new pair at the end, unless `accept` failed |
| `Receivers.Receiver.PollOnce` | src/server/receiver.c:130-209 | an iteration in memory is the step of the poll-loop model, returning -1 exactly when `poll` failed |
| `Receivers.PollRunFrames` | src/server/receiver.c:130-209 | over every run of the poll loop, each connection's frames are those of cutting its own stream, with no mixing under swaps; the missing count is positive; every frame is whole and begins with the magic code if longer than a header |
| `Receivers.RequestsReachWorkers` | src/server/receiver.c:160-203 | if a connection sent a series of requests, the workers read exactly those from the frames handed over for it |
| `Connections.HandedToSender` | src/server/receiver.c:106-121 | over every run, connections are taken in exactly as the system's answers say, none after the loop was told to stop; every frame is handed over with the descriptor `accept` returned for its sender, and every live connection has its own |
| `Connections.RequestsReachWorkersOf` | src/server/receiver.c:160-203 | the workers read exactly the requests a connection sent and answer to the descriptor it was accepted under |
| `Connections.IterationExactly` | src/server/receiver.c:130-209 | entry by entry, what an iteration does: an invalid one is marked and that is all; otherwise each is handled up to the first error event, which kills its connection, as a failed read does |
| `Connections.IterationTakes` | src/server/receiver.c:176-203 | every chunk a read returned is taken by the deserializer of its own connection |
| `Receivers.WorkersNeverDie` | src/server/worker.c:271-288 | the worker's fatal header check fires on no frame of any run |
| `Receivers.MarkingExactly` | src/server/receiver.c:160-170 | an iteration that finds an invalid connection reads nothing and leaves it dead if and only if it was live |
| `Receivers.DroppedComesBack` | src/server/receiver.c:160-170 | a run of six iterations with three clients at whose end a connection dropped for what it sent is live again |
| `WorkQueues.WorkQueue.Add` | src/server/workload_queue.c:67-86 | (repaired) appends a message; pulled followed by linked messages stay the added ones, and the tail pointer is exact |
| `WorkQueues.WorkQueue.Pull` | src/server/workload_queue.c:56-65 | (repaired) takes the oldest message not pulled, none exactly when all were pulled |
| `WorkQueues.WorkQueue.Drain` | src/server/workload_queue.c:110-119 | frees exactly the messages never pulled, in order |
| `WorkQueues.AsWrittenExactly` | src/server/workload_queue.c:41-86 | as written, and whatever addresses messages get, those pulled and still to be pulled are at all times the ones added, in order, if and only if every addition found no message waiting and was not at the address of the one before; a run neither displaces a waiting message nor writes into one given away if and only if it adds at most one |
| `WorkQueues.FirstIsLost` | src/server/workload_queue.c:75-75 | two additions in a row: the first message can never be pulled |
| `WorkQueues.SecondIsPulledTwice` | src/server/workload_queue.c:76-79 | a message in the memory of the freed one before it is pulled twice |
| `Handshakes.MessagesAreThoseHanded` | src/server/workload_queue.c:67-86 | in every interleaving, messages pulled, then queued, then in the main thread's hand are those handed over for the worker, in order |
| `Handshakes.NoLostWakeup` | src/server/workload_queue.c:41-97 | in every interleaving, a worker waiting with no wakeup on its way has an empty queue, has pulled all that was handed over but what is still in hand, and was not sent its shutdown signal; after the signal it never waits |
| `Handshakes.NullPullMeansShutdown` | src/server/workload_queue.c:47-65 | a worker ends only by its own step with the flag up and its queue empty |
| `Handshakes.GracefulShutdownServesAll` | src/server/main.c:150-152 | when the main thread is done all workers have ended, and unless a signal handler raised the flag each has pulled every message ever handed over for it, in order |
| `Handshakes.JoinEnds` | src/server/worker.c:382-393 | once the signals are out, threads take a bounded number of steps, and until the main thread is done one can move |
| `Handshakes.MutexComesFree` | src/server/workload_queue.c:88-97 | whenever the main thread cannot have a queue's mutex, the worker holding it can move |

## Left out

- The client command line, its action runner and the reading of configuration files: input and output around the core.
- Sockets, signals, logging, memory allocation and its failures, and the freeing of memory, except where a freed
  message or queue entry is used again.
- The visitor and the reply to `readNFiles`: the visitor skips entries, and the reply lacks the status byte and count
  the client reads, so there is no round trip to state; its request is modelled.
- Append over the wire beyond `Messages.AppendIsDropped`: append is modelled on the table.
- `htable_open_or_create_file` and the worker's handlers beyond decoding and the two replies that carry files: one call
  after another of modelled operations.
- The path hash and `rand` themselves.
- HTables.HTable.EvictFiles: assumes that under the segmented policy every bucket is drawn again and again; without that
  the source's loop need not end.
- HTables.HTable.Serve: the table object keeps each file's waiter stack as a sequence, not as linked nodes, and its
  eviction queue exists, empty, under the segmented policy too.
- Receivers.Receiver.PollOnce: holds the deserializers' bytes as values with an identity; the deserializer object itself is
  `Framing.Deserializer`, whose `Take` is the same step.
- Framing.Deserializer.Take: says nothing of the buffer after an overrun, where the source writes past its memory.
- KeptQueues.KeptRunExactly: the queue is linked the right way round there; `FifoQueues.AsWrittenExactly` is about the
  links.
- Receivers.PollRunFrames: does not model that the buffer for a frame whose announced size wraps around 64 bits is too
  small; `Framing.SinkFitsExactly` says when.
- Guards.NoCycle: reading a file is not among the operations; like a refused close it takes and releases one bucket
  guard and changes nothing. The visitor is left out.
- Guards.NeverStuck: says that some thread can move, not that the segmented evictor makes progress; it can draw empty
  buckets while a removal waits for the statistics guard.
- Guards.RunAccounts: the counts are unbounded integers; the source's are these modulo 2^64, and `Guards.Wrapped` is
  applied where it compares them.
- GuardGaps.QuietRunIsWithin: says nothing of the item limit, which creations exceed without evicting.
- GuardGaps.EmptinessAssertHolds: supposes that files and threads together can be counted in 64 bits.
- FifoQueues.AsWrittenExactly: no memory of a freed entry is given to a new one; if it is, a run outside the condition may
  serve the right entry by chance.
- LockSchedules.HolderKeepsLockUnderThreads: does not follow the open flag.
- Transfers.MakeSimpleRequest: the operation code is written by one call that is not repeated, so an interruption there is an
  error, as in the source; `Transfers.StatusTravels` follows the response byte.
- Transfers.HandleResponseWithFiles: saving a file fails only when it has no contents; other failures of the file system
  are not modelled.
- WorkQueues.WorkQueue.Pull: the wait before it is in `Handshakes`, where a queue is a sequence.
- Handshakes.NoLostWakeup: takes for granted that each queue has one consumer, as the workers' unique numbers give, and
  that handling a message ends.
