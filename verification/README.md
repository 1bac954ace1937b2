# Log daemon: ring log, message queue, spool pipeline, call patching

A model of four pieces of a monitoring system, with proofs about every run of each.

- **Ring log** (`useapp/tlog.c`). Any number of printing threads append lines to one circular byte
  buffer; one worker snapshots it under the lock, reads the shared bytes without the lock, and commits.
  `Ring` is the arithmetic on `start`, `end` and `ext_end`, `Segments` the record framing, `LogSystem`
  the step system, `LogSafety` its invariant, `LogTheorems` the promises,
  `PrintCalls` what they mean for the print calls,
  `SegmentLimit` the exact limit of segment mode. `TlogLog` and `Tlog` hold the
  same log as a class over a byte array and the worker's round over a list of logs.
- **Message queue** (`useapp/queue.c`). `CircularQueue` and `MessageQueue` are the array and the object;
  `QueueProtocol` interleaves any number of threads, one semaphore operation or critical section a step
  (semantics of `sem_wait`, `sem_timedwait` and `sem_post` in the System Interfaces volume of
  POSIX.1-2017).
- **Receiver, spool, sender** (`useapp/worker.c`). `NameList`, `Spooling` and `DataFile` are the packed
  name list and the bounded files; `Pipeline`, `PipelineSafety`, `PipelineTheorems` and `PipelineSteps` let
  the receiver's loop and the sender's loop interleave over a queue whose pushes and pops are single steps;
  `QueuedPipeline` puts the semaphore queue of `QueueProtocol` in its place and proves that every such run
  is a run of `Pipeline`.
- **Call patching** (`syscall_hook.c`) in `CallPatch`, and two smaller parts of the log: the localtime
  cache (`LocaltimeCache`) and rotation with retention (`Retention`, `Archive`).

Where the code works in place the model has a class whose methods are proved equal to functions on
values; the step systems and lemmas use the same functions, so a fact about a run is a fact about the
methods' code. History variables in the step systems (`done`, `upper`, `lower`, `completed`, `malformed`,
`pushed`, `popped`, `listed`) steer nothing: no branch and no byte depends on them. The theorems are
restated on functions of a run's steps (`AcceptedIn`, `PrintedIn`, `ReturnedIn`, `PutIn`, `TakenOut`), and those about
received chunks on the actions alone (`ReceivedIn`, `HeardIn`).

## Where the code does not keep its own promise

Each has an exact condition.

| what fails | exactly when it holds | member |
|---|---|---|
| an append after the room test stays harmless | its bytes number fewer than the line limit of 1024 | `Ring.AlwaysSafeExactly` |
| the same in segment mode, where the 7 bytes of framing are not counted by the room test | text plus 7 is below 1024; the root printer can return up to 1022 bytes (tlog.c:358-386) | `Ring.SegmentSafeExactly` for one append, `SegmentLimit.LosslessExactly` for whole runs |
| the localtime fast path returns what `localtime_r` would | the time is not 0, or the cached pair has been written before | `LocaltimeCache.FastPathRightExactly` |
| the oldest-archive scan picks an oldest file | some archive has a negative modification time, or none has 0, or the last one listed has 0 | `Retention.ScanPicksOldestExactly`, `Archive.LogDir.RemoveOldest` |
| the deletion removes the file the scan picked | its name is shorter than 128 characters | `Retention.DeletesPickedExactly`, `Archive.LogDir.RemoveOldest` |
| the spool keeps to `max_fcnt` files, over every sequence of writes, resets and detaches | `max_fcnt` is at least 1, or it is 0 and `max_fsize` at most 0 | `Spooling.CountBoundNeedsOne` |
| a spooled message goes exactly at the end of the listed text | it goes to the open file, or to a new one, or to one that was empty and is not listed; a second file of the same second is none of these | `Spooling.WriteTextExactly` |
| a reset takes the open file's name off what the sender sees | another name is listed before it | `NameList.Unlist`, `Spooling.ResetKeeps` |
| a patched call site reaches the new function | the displacement fits 32 signed bits | `CallPatch.PatchedTarget` |
| loading patches a call site | the scan's range holds a call to the function; without one the code writes through address 0 (syscall_hook.c:169-170), which the model leaves out | `CallPatch.Memory.FindCall` |

## Assumptions

- A ring has at least 1024 bytes. (`tlog_init` asks for twice that, tlog.c:1610; `tlog_open` asks nothing, and
  `TlogLog.Log.constructor` shows a new log is in shape exactly then.)
- The output callback consumes the whole slice it is given, in pieces of any size.
- In segment mode every run keeps text plus 7 below 1024 (`LogSystem.Modest`). Plain mode assumes nothing.
- New spool names are fresh (the code uses one-second timestamps), non-empty, NUL-free and at most 255
  bytes. A write to a spool file is all or nothing and visible at once; the code publishes the names at
  worker.c:235 and closes the file at worker.c:238, which is one step here.
- `max_fcnt >= 1`, `node_size >= 4097`, queue `max >= 1`.
- In rotation `stat`, `rename` and `unlink` succeed on a file that is there; nobody else changes the
  directory. Retention's count is proved for archive names below 128 characters with any times, and that the
  newest stay for those in which no time is 0.

## Model

| member | source | states |
|---|---|---|
| Ring.AppendKeeps | useapp/tlog.c:512-529 | an append shorter than a line, in any ring with room, keeps the ring's shape, adds exactly its bytes at the end of the unread ones, overwrites none of them, and keeps an extent that was set |
| Ring.RoomByShape | useapp/tlog.c:470-484 | room is always there in a linear ring, never in the full one, and in a wrapped one exactly when the gap is a line long; a left-over `maxlen` below the limit never changes the answer |
| Ring.TakeCoversUnread | useapp/tlog.c:1391-1400 | the snapshot's two slices are the unread bytes in order, none missing; the has-data test is true exactly when there are some |
| Ring.ReleaseAll | useapp/tlog.c:1408-1413 | committing a snapshot nobody appended to leaves the ring empty, in shape, with room |
| Ring.AlwaysSafeExactly | useapp/tlog.c:484-529 | appends of n bytes are safe in every state the room test admits if and only if n is below the line limit |
| Ring.SegmentSafeExactly | useapp/tlog.c:512-518 | with the uncounted framing, a text is safe if and only if it leaves seven bytes below the limit; without framing it is always safe |
| Ring.ExactFitIsLost | useapp/tlog.c:1391-1413 | an append that fills a wrapped ring exactly makes the next snapshot miss the whole lower part, and the commit discards it |
| Ring.OverlongRecordIsLost | useapp/tlog.c:484-529 | on a ring of the smallest size, appends that each pass the room test and two passes lose a record of a whole line's length |
| Segments.DecodeFrame | useapp/tlog.c:512-518 | the parser reads a framed text back as that text and ends where the frame ends |
| Segments.FrameBytes | useapp/tlog.c:512-518 | a record byte by byte: magic, length with its NUL, text, NUL, little-endian; a plain line is itself |
| Segments.ParseFlat | useapp/tlog.c:1258-1273 | a slice that is a whole number of records parses to exactly those texts in order and the walk ends with `write_len == bufflen` |
| LogSafety.RunKeeps | useapp/tlog.c:440-534 | the full invariant (shape, whole lines on both sides of the wrap, the snapshot in flight, output so far, counters) holds in every state of every interleaving of any number of threads |
| LogSafety.NextRecord | useapp/tlog.c:1263-1272 | while the worker parses unlocked, the next record lies whole inside its slice and is the next accepted text, whatever was appended meanwhile |
| LogSafety.CommitKeeps | useapp/tlog.c:1408-1414 | a commit after any appends, a wrap included, releases exactly the lines that were put out |
| LogTheorems.AcceptedIsHistory | useapp/tlog.c:469-534 | the log's lines (put out, upper, lower) are exactly the lines the run's lock steps accepted, in order |
| LogTheorems.ShapeAlways | useapp/tlog.c:463-529 | every reachable ring is linear, wrapped, or full from 0; both indices stay a line below the end; no append ever leaves the buffer |
| LogTheorems.FifoStream | useapp/tlog.c:469-534 | plain mode: all accepted lines concatenated equal the bytes put out followed by the bytes still owed, at every moment of every run |
| LogTheorems.FifoRecords | useapp/tlog.c:512-529 | segment mode: the texts put out are a prefix of the accepted ones and the rest are exactly the records still in the buffer |
| LogTheorems.SlicesParse | useapp/tlog.c:1258-1282 | at any time of any pass both slices are whole records, both parser walks end at the slice end, and together they give the lines taken |
| LogTheorems.AppendAvoidsSlices | useapp/tlog.c:512-529 | an append admitted during a pass writes outside both slices |
| LogTheorems.StableSlices | useapp/tlog.c:1403-1408 | between unlock and commit the slices keep place and bytes under any producer steps, and an extent once set stays |
| LogTheorems.WrapsOncePerPass | useapp/tlog.c:525-529 | the buffer wraps at most once while a snapshot is out, and only if the snapshot had no extent |
| LogTheorems.CommitClearsOwnExtent | useapp/tlog.c:1408-1414 | a commit clears `ext_end` exactly when it is the extent snapshotted; a newer one survives; without an extent there is room |
| LogTheorems.RoomEverySecondCommit | useapp/tlog.c:1389-1414 | of two consecutive commits one leaves room for a full line, whatever the producers did |
| LogTheorems.AcceptedWithRoom | useapp/tlog.c:469-510 | the append loop goes through if and only if the ring has room now, although `maxlen` is not reset between waits |
| LogTheorems.CountsAreHistory | useapp/tlog.c:456-467 | the counters of returned and unformattable calls are the counts of such steps in the run |
| LogTheorems.DropAccounting | useapp/tlog.c:1401-1407 | returned calls equal accepted lines plus unformattable ones plus drops announced, in the worker's hand or pending; a blocking log never drops |
| LogTheorems.RefusesExactly | useapp/tlog.c:484-495 | at both checks a line is refused if and only if the log is non-blocking and has no room; the ring is untouched and the call returns |
| LogTheorems.NonBlockingNeverWaits | useapp/tlog.c:490-501 | in no run does a thread wait on a non-blocking log |
| PrintCalls.AcceptedIsPrinted | useapp/tlog.c:460-523 | in every run the accepted lines are exactly, in order, what each thread formatted last before its lock step with room: the bytes its callback returned, or the discard text, spelt out in bytes |
| PrintCalls.CarriesItsText | useapp/tlog.c:460-510 | a thread carries the text of its own last formatting through any number of waits |
| PrintCalls.PrintedComesOut | useapp/tlog.c:460-534 | plain mode: the texts of the print calls that went through, end to end, are the output followed by the bytes owed |
| PrintCalls.PrintedRecordsComeOut | useapp/tlog.c:460-529 | segment mode: the texts put out are a prefix of those of the print calls that went through |
| PrintCalls.WorkerNeverStuck | useapp/tlog.c:1378-1414 | in every run a snapshot is possible exactly when there are unread bytes, and in a pass exactly one of output, drop notice and commit is |
| PrintCalls.PrinterNeverStuck | useapp/tlog.c:456-534 | in every run each printing thread can take its next step, whatever its callback returns |
| PrintCalls.BeginTakesAll | useapp/tlog.c:1391-1402 | a snapshot takes every unread byte and every refusal counted |
| PrintCalls.EmitExactly | useapp/tlog.c:1258-1291 | each piece of output is the next bytes of the accepted stream, as many as asked for up to the slice end, or the next accepted text whole |
| SegmentLimit.LosslessExactly | useapp/tlog.c:484-518 | in every run of a segment log with texts of at most `cap` bytes nothing leaves the buffer and a drained log has put out all it accepted, if and only if `cap` plus 7 is below the line limit |
| SegmentLimit.LosingRun | useapp/tlog.c:463-529 | for every larger `cap`, a full run of print calls and worker passes after which the log is drained and an accepted text was never put out |
| TlogLog.Log.constructor | useapp/tlog.c:1528-1546 | a new log is an empty ring for every size, and in shape if and only if it holds a line |
| TlogLog.Log.FreeSpace | useapp/tlog.c:470-481 | the in-place free-space code refines the ring's room, the untouched case included |
| TlogLog.Log.NeedDrop | useapp/tlog.c:410-437 | refuses if and only if non-blocking without room, and counts exactly the refusals |
| TlogLog.Log.Store | useapp/tlog.c:512-529 | the array copy and early wrap refine the ring append whenever the frame fits in memory; with room and a frame shorter than a line the shape is kept and the unread bytes grow by the frame |
| TlogLog.Log.TryAppend | useapp/tlog.c:470-509 | accepts exactly with room, refuses or waits otherwise, with the whole new state for each outcome, over-long records that fit included |
| TlogLog.Log.Print | useapp/tlog.c:469-534 | across any waits in which others act, the line goes in the first time there is room when the lock is held and changes nothing else; a refusal counts one drop; giving up takes exactly `patience` waits |
| TlogLog.Log.Vprintf | useapp/tlog.c:440-537 | a whole print call with others acting between its parts: early refusal, the callback's result, the stored text and the returned length or -1, with the whole new state for each |
| TlogLog.Log.HasData | useapp/tlog.c:1101-1108 | the in-place test is the ring's |
| TlogLog.Log.TakeSnapshot | useapp/tlog.c:1391-1402 | the in-place arithmetic yields the ring's snapshot, hands over the drop count and clears it |
| TlogLog.Log.WriteOneSegment | useapp/tlog.c:1258-1273 | the parser loop puts out exactly the texts of the recursive parse |
| TlogLog.Log.WriteSegments | useapp/tlog.c:1275-1282 | both slices are parsed, the upper first |
| TlogLog.Log.WriteBuff | useapp/tlog.c:1284-1291 | both slices are put out, the upper first |
| TlogLog.Log.WorkWrite | useapp/tlog.c:1293-1308 | slices first, then the drop notice if there were drops, in both modes |
| TlogLog.Log.Release | useapp/tlog.c:1408-1414 | the in-place release is the ring's |
| TlogLog.Log.Pass | useapp/tlog.c:1389-1414 | an undisturbed pass empties the log |
| TlogLog.PassDelivers | useapp/tlog.c:1284-1308 | a pass over a plain log puts out exactly its unread bytes and reports exactly its drops |
| TlogLog.PassDeliversRecords | useapp/tlog.c:1258-1308 | a pass over a segment log puts out exactly the texts it holds, in order, and reports exactly its drops |
| TlogLog.PassReports | useapp/tlog.c:1302-1307 | in either mode a pass announces exactly the drops it took, in one notice after everything else |
| Tlog.Daemon.AnyHasData | useapp/tlog.c:1110-1123 | true if and only if some log has data |
| Tlog.Daemon.Visit | useapp/tlog.c:1389-1414 | serving one log empties it and changes no other |
| Tlog.Daemon.Turn | useapp/tlog.c:1343-1387 | stops exactly when no log has data, else moves to the next entry of the list, the NULL stop included, leaves that log without data, and serves one or gets strictly nearer to one |
| Tlog.Daemon.Drain | useapp/tlog.c:1343-1417 | the shutdown round terminates; then no log has data, each that had is put out in one pass with its drops announced, the others untouched; and every log that was the end of any run has put out everything that run accepted |
| Tlog.ShutdownDeliversAll | useapp/tlog.c:1343-1417 | after any run followed by the shutdown round, output equals everything ever accepted, in both modes, and every call that returned is accepted, unformattable, announced as dropped, or counted in a log that had no data |
| CircularQueue.FreshIsEmpty | useapp/queue.c:8-22 | the initial positions describe an empty circle |
| CircularQueue.PushAppends | useapp/queue.c:24-38 | a push appends when a cell is free, and otherwise fails and changes nothing |
| CircularQueue.PopTakesFirst | useapp/queue.c:40-54 | a pop takes the oldest item and clears its cell, or fails on an empty circle and changes nothing |
| MessageQueue.Queue.constructor | useapp/queue.c:8-22 | a new queue is quiet and empty |
| MessageQueue.Queue.CirclePush | useapp/queue.c:24-38 | the in-place push appends to the contents or returns -1 unchanged |
| MessageQueue.Queue.CirclePop | useapp/queue.c:40-54 | the in-place pop removes the first of the contents or returns NULL unchanged |
| MessageQueue.Queue.PushWait | useapp/queue.c:102-120 | appends if there is a free place, else times out with 1 and no change |
| MessageQueue.Queue.PopWait | useapp/queue.c:134-151 | takes the first message, else NULL and no change |
| QueueProtocol.RunKeeps | useapp/queue.c:90-151 | exact conservation of places, items and the mutex over all threads in transit, in every interleaving, time-outs included |
| QueueProtocol.NeverFails | useapp/queue.c:90-132 | in every run, inside its critical section a push never returns -1 and a pop never finds the queue empty |
| QueueProtocol.Linearises | useapp/queue.c:90-151 | values put in equal values taken out followed by the contents, in the order of the critical sections, with the contents bounded |
| QueueProtocol.MutualExclusion | useapp/queue.c:95-97 | in every run no two threads are inside together |
| QueueProtocol.Quiescent | useapp/queue.c:18-20 | in every run, with nobody in transit `nempty + nstored == max` and `nstored` is the number of messages |
| QueueProtocol.StuckExactly | useapp/queue.c:90-151 | in every run nobody can move if and only if nobody is calling, all callers push onto a full queue, or all pop from an empty one |
| QueueProtocol.CallMoves | useapp/queue.c:90-151 | a wait goes through exactly while its semaphore is positive, only a timed one gives up, every other step is free |
| QueueProtocol.CarriesItsValue | useapp/queue.c:90-120 | a push carries the value of its own call to the array |
| QueueProtocol.ReturnsWhatItTook | useapp/queue.c:122-151 | a pop takes the oldest value of the array and returns it |
| NameList.AppendLists | useapp/worker.c:156-157 | appending a name lists it last and keeps the others |
| NameList.ForwardDrops | useapp/worker.c:293-310 | forwarding drops exactly the first name and `len` strictly falls, to 0 with the last |
| NameList.WalkUnpacks | useapp/worker.c:404-421 | repeated strlen and forwarding yields exactly the packed names in order |
| NameList.RoundTrip | useapp/worker.c:151-157 | for every list of good names, build then walk is the identity |
| NameList.Unlist | useapp/worker.c:117 | shortening `len` unlists the last name, but an only name stays visible to the walk |
| Spooling.WriteKeeps | useapp/worker.c:125-168 | every write, successful or not, keeps the spool's bounds, list and files consistent |
| Spooling.ResetKeeps | useapp/worker.c:107-123 | reset removes exactly the open file from count and length, with what the sender then sees |
| Spooling.DetachKeeps | useapp/worker.c:170-177 | detaching the list keeps the invariant |
| Spooling.WriteText | useapp/worker.c:125-168 | a successful write puts the message after everything spooled, through closing and creating files |
| Spooling.WriteTextExactly | useapp/worker.c:142-166 | with any name, used before or not, a successful write extends the listed text by exactly its message if and only if it goes to the open file, to a new one, or to an empty unlisted one |
| Spooling.WriteSucceedsExactly | useapp/worker.c:128-167 | a write succeeds if and only if the file system takes it and the message fits the open file, or fewer than the maximum are listed and a new one is made |
| Spooling.WriteGoesTo | useapp/worker.c:134-167 | a successful write goes to the open file when it fits, else to a new one listed last; no other file changes |
| Spooling.WriteFailsCleanly | useapp/worker.c:128-164 | a failed write stores nothing; at most an empty new file stays behind, open and listed |
| Spooling.FailText | useapp/worker.c:279-283 | a failed write and its reset leave a prefix of the spooled text |
| Spooling.CountBoundNeedsOne | useapp/worker.c:128-149 | over every sequence of writes, resets and detaches, with any names and failures, the file count stays within the bound if and only if that is at least 1, or 0 with nothing fitting |
| DataFile.NamesMessage.DataLen | useapp/worker.c:296 | counts the bytes before the first NUL |
| DataFile.NamesMessage.Append | useapp/worker.c:156-157 | the copy in place refines the list append |
| DataFile.NamesMessage.Forward | useapp/worker.c:293-310 | the overlapping move refines the list forward, for every `len` |
| DataFile.NamesMessage.SendAll | useapp/worker.c:404-421 | the loop terminates on any list and sends exactly what the walk sees |
| DataFile.DataFileInfo.Close | useapp/worker.c:94-105 | no file open, size 0 |
| DataFile.DataFileInfo.Reset | useapp/worker.c:107-123 | the in-place reset refines the spool's, with no file touched |
| DataFile.DataFileInfo.Detach | useapp/worker.c:170-177 | closes and starts afresh without a list |
| DataFile.DataFileInfo.Create | useapp/worker.c:142-158 | a new empty file is opened and listed last within the list's capacity, the invariant kept |
| DataFile.DataFileInfo.WriteMessage | useapp/worker.c:125-168 | the in-place write refines the spool's in result, list and files, and keeps the invariant |
| PipelineSafety.RunKeeps | useapp/worker.c:203-287 | the pipeline invariant holds in every interleaving of receiver and sender |
| PipelineTheorems.ReceivedIsHistory | useapp/worker.c:246-256 | the received chunks are those of the run's receive steps |
| PipelineTheorems.EndToEndOrder | useapp/worker.c:228-286 | delivered, in hand, queued, spooled and current, in this order with lists expanded, are received chunks in order without repetition; the queue stays bounded |
| PipelineTheorems.NothingLost | useapp/worker.c:228-286 | while sends succeed or meet network errors and every spool write finds a place and a file system that takes it, they are exactly the received chunks, however many pushes time out |
| PipelineTheorems.DataNeverOvertakes | useapp/worker.c:233-266 | a buffer is queued only when no name list is pending and nothing is spooled |
| PipelineTheorems.ReceiveHasRoom | useapp/worker.c:228-286 | at every receive the buffer has a receive's room after `len`, although the zeroing wipes `cap` |
| PipelineTheorems.SpoolStaysBounded | useapp/worker.c:125-177 | in every reachable state the file count, list length and capacity, open file and file sizes keep their bounds |
| PipelineTheorems.FailedWriteGivesUpFile | useapp/worker.c:273-284 | a failed write drops the message, closes the open file and unlists exactly it |
| PipelineTheorems.SenderKeepsNameList | useapp/worker.c:402-429 | once the sender holds a name list it never takes another message |
| PipelineSteps.FlushExactly | useapp/worker.c:258-287 | in every run the buffer is handed on if and only if it holds something and the wait timed out or less than 4097 bytes are left: to the queue when no name list is pending and the push succeeds, else to the spool |
| PipelineSteps.QuietTurnHandsOn | useapp/worker.c:214-287 | after a turn whose wait timed out the receiver holds nothing |
| PipelineSteps.TurnExactly | useapp/worker.c:228-256 | a fresh buffer of the configured size, the pending names queued as the list the sender will walk or kept, the received bytes put last; nothing else changes |
| PipelineSteps.SpillExactly | useapp/worker.c:273-285 | a spill zeroes and keeps the message exactly when the write has a place and is taken, and drops it otherwise |
| PipelineSteps.ReceiverNeverStuck | useapp/worker.c:203-287 | in every run the receiver can go on whatever its surroundings answer, and a push can succeed exactly when there is something to push and a free place |
| PipelineSteps.SenderMoves | useapp/worker.c:370-429 | the sender can take exactly with an empty hand and a queued message, and send whatever it holds but an exhausted list; every file on its list exists |
| PipelineSteps.SendExactly | useapp/worker.c:387-422 | each outcome: success puts the message or first file out, a refusal gives it up, a network error changes nothing |
| PipelineSteps.TakeExactly | useapp/worker.c:372-381 | the oldest queued message moves to the sender's hand |
| QueuedPipeline.StepMatches | useapp/worker.c:203-286 | each semaphore step, time-out, critical section or own step is no step of the pipeline or exactly one enabled step of it, with the array's contents as its queue |
| QueuedPipeline.Refines | useapp/worker.c:203-286 | every run of receiver and sender over the semaphore queue is matched by a pipeline run that receives the same chunks and ends in the corresponding state |
| QueuedPipeline.OrderThroughQueue | useapp/worker.c:228-286 | end-to-end order holds at every moment of every run over the semaphore queue, in the middle of a push or pop too |
| QueuedPipeline.NothingLostThroughQueue | useapp/worker.c:228-286 | over the semaphore queue nothing received is lost or doubled while sends and spool writes do not fail |
| QueuedPipeline.PushesExactly | useapp/worker.c:233-262 | over the semaphore queue the receiver calls the push exactly with pending names before it receives, or with a buffer that must leave while no names are pending; otherwise it goes on by itself |
| QueuedPipeline.NeitherStuck | useapp/worker.c:203-429 | over the semaphore queue neither thread is ever stuck, except that a sender with an exhausted list is; the one wait is for the mutex while the other thread can go on |
| CallPatch.PatchedTarget | syscall_hook.c:129-135 | a patched site calls the new function if and only if the displacement fits 32 signed bits |
| CallPatch.PatchBack | syscall_hook.c:129-135 | patching a site to what it already calls stores the bytes it has, for any displacement |
| CallPatch.HookUnhook | syscall_hook.c:169-170 | hook then unhook restores every byte, with no range condition |
| CallPatch.SiteExactly | syscall_hook.c:118-121 | a call site spelt out in bytes: E8 and a signed little-endian displacement from the address after it, modulo 2^64 |
| CallPatch.Memory.FindCall | syscall_hook.c:114-127 | returns the first call site of the function in the range, and 0 if and only if there is none |
| CallPatch.Memory.SetCall | syscall_hook.c:129-135 | replaces exactly the four displacement bytes |
| CallPatch.Memory.Load | syscall_hook.c:169-170 | the site found calls the hook if and only if it is in reach, and nothing else changes |
| CallPatch.Memory.Unload | syscall_hook.c:217 | the text is byte for byte what it was before loading |
| LocaltimeCache.RunKeeps | useapp/tlog.c:204-227 | the lock and cache invariant holds in every interleaving of any number of threads |
| LocaltimeCache.CacheConsistent | useapp/tlog.c:142-158 | at most one thread is between lock and unlock, and the pair it reads is one conversion's |
| LocaltimeCache.AgreesWithSlowCall | useapp/tlog.c:204-227 | every finished call for a time other than 0 returns the uncached conversion |
| LocaltimeCache.CallAlone | useapp/tlog.c:204-227 | an undisturbed call answers a remembered time from the pair without the slow call, and converts and remembers any other that converts |
| LocaltimeCache.FastPathRightExactly | useapp/tlog.c:213-215 | the cached answer is right if and only if the time is not 0 or the pair has been written |
| LocaltimeCache.FirstCallForZero | useapp/tlog.c:206-215 | the first call, for time 0, returns the zeroed storage |
| Retention.ScanPicksOldestExactly | useapp/tlog.c:735-740 | for every non-empty listing, the scan ends with an oldest entry if and only if some time is negative, none is 0, or the last listed is 0 |
| Retention.ScanKeepsFirst | useapp/tlog.c:735-740 | of several oldest archives the one listed first is kept |
| Retention.MatchExactly | useapp/tlog.c:695-703 | an archive is exactly a name of the form log name, dash, anything, that has the suffix in it |
| Retention.DeletesPickedExactly | useapp/tlog.c:737-761 | the unlink removes the picked file if and only if its name fits the buffer |
| Retention.DropOne | useapp/tlog.c:757-761 | deleting one archive takes one from their number and nothing else |
| Retention.DropOldest | useapp/tlog.c:745-764 | deleting an oldest archive of what is left keeps the newest |
| Archive.CandidateInjective | useapp/tlog.c:637-646 | different attempts give different names |
| Archive.CandidateForm | useapp/tlog.c:637-646 | the first name has no number; the later ones have theirs in decimal between a dash and the suffix |
| Archive.CandidateMatches | useapp/tlog.c:637-646 | every name a rotation can give is one retention counts and deletes |
| Archive.OneArchiveMore | useapp/tlog.c:648-652 | archiving a file that was none makes exactly one archive more |
| Archive.TakenBounded | useapp/tlog.c:641-646 | a finite directory can refuse at most as many attempts as it has files |
| Archive.MoveConserves | useapp/tlog.c:648-652 | renaming to a free name keeps every file and every other name |
| Archive.NotOwnName | useapp/tlog.c:637-646 | no archive name is the log's own or its pending name |
| Archive.LogDir.FreshName | useapp/tlog.c:637-646 | the probe terminates with the first name that does not exist |
| Archive.LogDir.RenameLogfile | useapp/tlog.c:627-653 | the file moves to a name nothing had, or nothing changes |
| Archive.LogDir.CountArchives | useapp/tlog.c:688-707 | counts exactly the matching archives |
| Archive.LogDir.FindOldest | useapp/tlog.c:709-743 | the pass is the scan of exactly the matching archives, picks one whenever there is one, and an oldest one under exactly the scan's condition |
| Archive.LogDir.RemoveOldest | useapp/tlog.c:745-764 | an archive is picked whenever there is one; it is what goes if and only if its name fits the buffer, and an oldest one under exactly the scan's condition |
| Archive.LogDir.RemoveOld | useapp/tlog.c:766-785 | files only disappear; with names that fit exactly min(n, logcount) archives stay and all other files, for any times; with no time 0 none that stays is older than one removed |
| Archive.LogDir.ArchiveNoCompress | useapp/tlog.c:973-1006 | a rotation archives a left-over pending file first, else the log, under a fresh name that is one archive more, and keeps every file's contents up to retention, which leaves exactly min(old archives + 1, logcount), the newest |

## Left out

- LogSystem.Modest: runs in segment mode keep text plus framing below the line limit; without that they lose records, and exactly then (`SegmentLimit.LosslessExactly`).
- TlogLog.Log.Print: gives up after exactly the number of waits chosen by the caller, where the code waits without bound, and a wait stands for anything the other threads may do to the log in between; the wake-up itself is not promised (tlog.c:497-501 releases one lock before it takes the other), nor is `pthread_cond_wait` failing.
- LogTheorems.RoomEverySecondCommit: states room in the ring at the commit, not that a blocked thread is woken or gets the room first.
- Tlog.Daemon.Drain: starts when printing has stopped and no log is being closed; a drop count of a log without data is never announced, as in the code.
- CallPatch.Memory.Load: writes nothing when no call site is found, where the code would write at address 0; the write-protect bit is not modelled.
- LocaltimeCache.AgreesWithSlowCall: the conversion is a fixed function of the time, so a time zone change is not captured.
- Archive.LogDir.RemoveOld: which archives stay is not stated when a time is 0 or a name has 128 characters or more; each single deletion is characterised exactly by `Archive.LogDir.RemoveOldest`.
- PipelineTheorems.EndToEndOrder: stops before quit is notified; the push and dump at quit (worker.c:216-225 and worker.c:312-360) ignore results and pending names.
- QueueProtocol.Linearises: `sem_wait` is not interrupted by signals, and a timed wait may time out at any moment.
- DataFile.DataFileInfo.WriteMessage: the file system is a map and answers of `fopen` and `fwrite` are inputs; partial writes and runs in which names repeat within a second are not modelled (`Spooling.WriteTextExactly` says what one such write does).
- The receiver's and the sender's loops, the thread bodies of the queue and `_tlog_localtime` are step systems on values, since other threads move between their steps; the objects they change are classes.
- The localtime cache's and the queue's busy waiting and fairness: safety only.
- Closing and freeing of logs, `is_exit`, the screen, early print, multi-process lock files, the compressing archive path and waiting for its child.
- Formatting of lines and of the drop notice: the formatted line is any byte sequence with any returned length; a drop notice is an event that carries the number.
- Truncation of over-long path names in `snprintf`, and the wrap of a 32-bit counter after that many drops.
- Progress of `sender_worker`: its file branch never clears its message, so nothing behind a name list is sent.
- Network sending, configuration, netlink, `select` and clocks: inputs of the steps.
- The kernel probe queue, the rest of `syscall_hook.c`, `rtnetlink-exa.c` and `user_netlink.c`.
