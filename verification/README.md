# Verified model of the AsyncFw runtime

AsyncFw is an event-loop runtime: threads that run tasks, poll and timer callbacks, sockets that
exchange framed byte arrays, a round-robin database that is replicated over such sockets, and a log
stored in it. This project models the parts whose correctness is not visible in any one function and
proves what they promise over every input and every run.

`dafny verify dfyconfig.toml` checks everything.

## How it is organised

Each component has a specification on values (a state machine with a `Step` function, an invariant and
theorems over whole runs, or a reference function with its laws) and, beside it, a class whose methods
update the program's own fields in place. Every method of a class is proved to take exactly the step of
the specification, so the theorems about runs hold of the object. What the main steps do is also told
on the fields themselves, in the methods' own clauses and in lemmas (`…Effect`, `…Iff`) that do not
mention the step function.

| file | specification | object |
|---|---|---|
| `Waiter.dfy` | nested loops: the debts of waiters, `nested_` and the WaitFinished bit | `EventThread` |
| `EventLoop.dfy`, `EventLoopThread.dfy` | tasks, snapshots and deferred deletion under an explicit stack of activations | `AbstractThread` |
| `EventLoopProgress.dfy` | that everything due is called and every activation told to quit is left | |
| `CallbackLifetime.dfy` | whose callbacks are running, and whether their objects live | |
| `Timers.dfy` | the sorted timer table as a map, and one scan of it | `TimerTable` |
| `SocketWrite.dfy` | spilled bytes, PollOut and the end of a disconnect | `AbstractSocket` |
| `FrameParser.dfy`, `FrameSocket.dfy` | the resumable frame parser and its quota | `DataArraySocket` |
| `FrameQuota.dfy` | what the quota lets through | |
| `Transport.dfy` | one end's writes against the other end's deliveries | |
| `KeepAlive.dfy` | the keep-alive exchange of two endpoints | `Peer` |
| `TransmitQueue.dfy` | the transmit queue and its write task | `Transmitter` |
| `Codec.dfy`, `DataStream.dfy`, `Compression.dfy` | the encodings and their inverses, the compression wrapper | `DataStream` |
| `Rrd.dfy`, `RrdAverage.dfy`, `RrdImage.dfy` | the history a ring shows, averaging, the stored file | `Rrd` |
| `Replication.dfy`, `RrdPeers.dfy` | the pull protocol and its convergence | `RrdClient` and the server's `Transmit` |
| `Connector.dfy` | connections, guards, queued calls and their lifetimes | `Signals` |
| `ConnectorEffects.dfy` | what each event does to guards and connections | |
| `LogDuplicates.dfy` | duplicate suppression against run-length encoding, stored messages | `AbstractLog` |
| `Formats.dfy` | the bytes on the wire and in files | |

## What is false, and exactly when

Some promises do not hold of the code without a condition. The model keeps the code as it is; the
condition is proved necessary and sufficient.

- A completed wait can be stranded when another `wait()` starts while the innermost waiter is already
  complete: `WaitOverCompletedStrands` breaks every such state, `NoCompletedWaiterIsStranded` needs
  nothing else.
- A synchronous `invoke` on the own thread over a pending snapshot lets a callback of a freed object
  start: `SyncOverSnapshotFails` for every such state, `NoCallbackAfterFree` for all other runs.
- A running callback can outlive its own object: when it waits or drains tasks in place after the object was
  removed, or when somebody removes it meanwhile. `InconsiderateFails` frees the object from every such
  state; `RunningCallbacksStayAlive` covers all other runs.
- A size of 2^61 or more is not read back: `SizeRoundTrip` is an equivalence.
- `read` asked for the index just below the window returns the newest item in its place, so the reply is
  exact exactly when another index is asked for or the two items are equal: `ReadIsExact`.
- The client ends with the server's items on its whole window exactly when the exchange resynchronises, or
  it already agreed on what its ring held and the indices it had asked for but no longer holds are filled,
  as a gap, with what the server has there: `WholeWindowIff`. Whether it resynchronises is told beforehand
  from the two last indices and the two sizes: `ResyncsIff`. A client that is up to date when its database
  is cleared never gets its window back: `ClearedClientStaysEmpty`.
- A poll event with PollOut that activates a connected socket disarms PollOut although bytes wait for it.
  The write promise survives exactly when no bytes wait, or the event closes the connection, or there is
  input to read and the event's own flush gets everything out: `ActivationKeepsArmedIff`, and
  `SilentActivationIff` for a user who makes no calls. Otherwise nothing waiting leaves any more:
  `DeafStaysDeaf`.
- The size check of `transmit` is sound exactly below 2^31 bytes: `SizeCheckIff`.
- The log's output reads back as the input's run lengths exactly when no blank message starts a block, that
  is, comes first or right after a timer: `NothingIsLost`. Such a block is missing for good
  (`BlocksAreAccounted`) and can leave a report without an entry (`BlankReportIsAnOrphan`); `ReportsIncreaseIff`
  says exactly when.
- Finalizing the log repeats a report exactly when the open block stopped on a milestone below 10000:
  `FinalityRepeatsIff`.
- With an averaging offset the callback fires inside the first bucket exactly when the offset is no multiple
  of the interval (`OffsetFiresEarlyIff`), and then gets an empty list exactly there:
  `AverageEmptyInFirstBucket`.

## Model

| member | source | states |
|---|---|---|
| `WaiterSpec.StackBalance` | core/AbstractThread.cpp:267-287 | over every run, debts of live waiters + (live frames − nested_) = completed waiters not returned; nested_ stays positive while any waiter is unfinished; with no live wait nested_ is 0 and the outer loop is not told to quit |
| `WaiterSpec.NoCompletedWaiterIsStranded` | core/AbstractThread.h:63-77 | over every run in which no wait starts over a completed innermost waiter, a completed innermost waiter finds WaitFinished set |
| `WaiterSpec.WaitOverCompletedStrands` | core/AbstractThread.cpp:277-287 | that guard is exact: from every state breaking it, one wait and its completion leave the waiter below complete with WaitFinished clear |
| `WaiterSpec.CompletedWaitsReturn` | core/AbstractThread.h:63-77 | the cascade: waiters completed from some frame up return one after the other, down to exactly that frame |
| `WaiterSpec.ReentryClears` | core/AbstractThread.cpp:279-285 | an unfinished wait woken by somebody else's completion re-enters its loop at most twice before WaitFinished is clear |
| `WaiterSpec.WaitReturnsIff` | core/AbstractThread.cpp:277-287 | a loop told to quit ends its wait exactly when its waiter is complete, paying its debts; otherwise the loop is entered again one level up with one debt more; and when the bit stays set |
| `WaiterSpec.RunKeeps` | core/AbstractThread.cpp:525-534 | the frame-by-frame invariant (levels, debts, slack) and the no-stranding invariant hold along every run |
| `WaiterModel.EventThread.Quit` | core/AbstractThread.cpp:474-484 | quit on a running thread is the specification's single quit: a saturating decrement and the bit |
| `WaiterModel.EventThread.CompleteWaiter` | core/AbstractThread.cpp:267-275 | completing a waiter takes the Complete step; completing one that is not waiting changes nothing |
| `WaiterModel.EventThread.BeginWait` | core/AbstractThread.cpp:277-282 | wait takes the Wait step |
| `WaiterModel.EventThread.LeaveExec` | core/AbstractThread.cpp:779-784 | the end of a nested exec and the rest of wait (re-entry with one more debt, or the debts paid in a loop) together are the Leave step |
| `EventLoopSpec.TasksStartInOrder` | core/AbstractThread.cpp:212-219 | over every run with nested loops, in-place drains and overload, tasks started followed by tasks queued are the accepted ones in acceptance order, and all have started when the outermost loop has returned |
| `EventLoopSpec.ObjectsAreFreedOnce` | core/AbstractThread.cpp:954-976 | every registered object is in exactly one place: registered, erased and about to be posted, waiting for its delete task, or freed once; nothing waits when the outermost loop has returned |
| `EventLoopSpec.NoCallbackAfterFree` | core/AbstractThread.cpp:221-235 | without a synchronous invoke over a pending snapshot no poll or timer callback starts after its object was freed, whatever is removed while snapshotted |
| `EventLoopSpec.SyncOverSnapshotFails` | core/AbstractThread.cpp:799-817 | the exclusion is exact: from every invariant state in a callback with a pending snapshot there is a run of one in-place drain after which a freed object's callback starts |
| `EventLoopSpec.StepKeeps` | core/AbstractThread.cpp:525-797 | every step keeps stack shape, single ownership of process_tasks_, first-in first-out order and conservation of objects |
| `EventLoopSpec.SnapshotsKept` | core/AbstractThread.cpp:746-775 | every step except an in-place drain over a snapshot keeps snapshots owned by the top activation and free of freed objects |
| `EventLoopSpec.EventKeeps` | core/AbstractThread.cpp:525-797 | every event keeps the invariant, and every one but a drain over a snapshot keeps callbacks safe |
| `EventLoopSpec.MoveFits` | core/AbstractThread.cpp:557-572 | tasks are taken into process_tasks_ only when it is empty, shutdown is entered only from the outermost loop, and a finished loop only drains |
| `EventLoopSpec.FreedOnce` | core/AbstractThread.cpp:972-975 | a freed object is neither registered nor awaiting deletion, and was freed once |
| `EventLoopProgress.EveryRunCanEnd` | core/AbstractThread.cpp:557-797 | no state is stuck: every run can be continued, by callbacks that return and loops that find their quit bit set alone, to the end of the outermost loop, with every accepted task started in order |
| `EventLoopProgress.TopIsLeft` | core/AbstractThread.cpp:557-784 | from any place, whatever snapshot or tasks it holds, an activation that finds its quit bit set is left for the one below |
| `EventLoopProgress.NestedReturns` | core/AbstractThread.cpp:779-784 | so a nested loop told to quit returns into the callback that started it |
| `EventLoopProgress.AllAreLeft` | core/AbstractThread.cpp:557-797 | activations are left one after the other, down to none |
| `EventLoopProgress.EverythingDueIsCalled` | core/AbstractThread.cpp:221-235 | over every run the descriptors and timers found due are those called followed by those pending, in the order found; without an in-place drain over a snapshot nothing is pending when an activation goes on or the loop has ended |
| `EventLoopProgress.CalledInOrder` | core/AbstractThread.cpp:221-235 | the same from any state |
| `EventLoopProgress.LeavesIff` | core/AbstractThread.cpp:572-784 | one move pops the activation exactly from its last place, or when a nested loop looks around and finds its quit bit set |
| `EventLoopProgress.LeavesOrWorks` | core/AbstractThread.cpp:572-776 | and snapshots descriptors exactly when it looks around and is not told to quit, timers when moreover no descriptor is ready |
| `EventLoopProgress.TakesTasksIff` | core/AbstractThread.cpp:561-564 | queued tasks are taken all at once before anything else is looked at, and at no other place |
| `EventLoopProgress.LooksAroundUnderLoad` | core/AbstractThread.cpp:561-569 | a loop that took more than 128 tasks while it was awake looks around after them; otherwise it takes tasks again first |
| `EventLoopProgress.FinishesIff` | core/AbstractThread.cpp:786-797 | the outermost loop that finds its quit bit set calls finishedEvent, and is finished after it |
| `CallbackLifetime.RunningCallbacksStayAlive` | core/AbstractThread.cpp:221-235 | over every run of nested waits, in-place drains and removals in which no callback nests after its object was removed and no nested callback's object is removed, no callback in progress belongs to a freed object |
| `CallbackLifetime.InconsiderateFails` | core/AbstractThread.cpp:525-556 | the condition is exact: from every state with live callbacks an event that breaks it has a run that frees the object of a callback in progress |
| `CallbackLifetime.AliveKept` | core/AbstractThread.cpp:525-817 | every considerate event keeps running callbacks alive and nested ones registered |
| `CallbackLifetime.FreeFromLoop` | core/AbstractThread.cpp:557-570 | whatever snapshot or tasks a nested loop is working on, some run of it reaches and runs a queued delete |
| `EventLoopThread.AbstractThread.InvokeTask` | core/AbstractThread.cpp:858-872 | accepted exactly when the loop has not finished; then appended |
| `EventLoopThread.AbstractThread.Post` | core/AbstractThread.cpp:858-872 | posting an ordinary task is the Post step and keeps the invariant and callback safety |
| `EventLoopThread.AbstractThread.EraseObject` | core/AbstractThread.cpp:957-971 | the first locked section of a removal is the Erase step; both invariants stay |
| `EventLoopThread.AbstractThread.DeleteErased` | core/AbstractThread.cpp:972-975 | the second posts the delete or, once the loop has finished, frees at once; both invariants stay, whatever came between |
| `EventLoopThread.AbstractThread.CallNext` | core/AbstractThread.cpp:212-235 | starting the front of the queue being processed is the Call step: that queue loses its front and no other changes; it keeps the invariant, and never starts a freed callback where callbacks are safe |
| `EventLoopThread.AbstractThread.CallbackReturns` | core/AbstractThread.cpp:216-217 | the end of a callback is the Return step and keeps both invariants |
| `EventLoopThread.AbstractThread.Append` | core/AbstractThread.cpp:929-929 | a timer or descriptor is registered under a new identity; both invariants stay |
| `EventLoopThread.AbstractThread.EnterNested` | core/AbstractThread.cpp:534-548 | a nested exec first goes on with the one queue it interrupted: the Wait step, keeping both invariants |
| `EventLoopThread.AbstractThread.EnterSync` | core/AbstractThread.h:86-90 | a synchronous invoke on the own thread enters processTasks: the Sync step, which keeps callbacks safe when no snapshot is pending |
| `EventLoopThread.AbstractThread.TakeTasksOrGoOn` | core/AbstractThread.cpp:561-572 | the locked section, told on the queues and the stack: new tasks are taken first, and past 128 of them with a wake-up pending the loop looks around after them; with none it leaves when told to quit, or snapshots |
| `EventLoopThread.AbstractThread.LeaveOrSnapshot` | core/AbstractThread.cpp:572-776 | the rest of the locked section, told on the queues and the stack: quit pops a nested loop and ends the outermost, then due polls, then due timers, pushed onto what is pending |
| `EventLoopThread.AbstractThread.Proceed` | core/AbstractThread.cpp:557-797 | dispatching on the place reached makes the one move the specification allows there: when it pops and what it snapshots, as in `LeavesIff` |
| `EventLoopThread.AbstractThread.GoOn` | core/AbstractThread.cpp:557-797 | whatever the top activation does once its queue is drained is the Advance step: when it is popped, which tasks it takes and what it snapshots; it keeps both invariants |
| `TimersSpec.DueOnce` | core/AbstractThread.cpp:756-769 | in a sorted table one scan fires each due timer exactly once and no other |
| `TimersSpec.ScanLooksAhead` | core/AbstractThread.cpp:758-769 | after a scan every running timer's deadline lies ahead |
| `TimersSpec.SoonestWakesInTime` | core/AbstractThread.cpp:756-769 | wakeup after a scan is no later than any running timer's deadline |
| `TimersSpec.SoonestIsADeadline` | core/AbstractThread.cpp:756-769 | and no earlier than needed: it is some running timer's deadline, or never exactly when no timer runs |
| `TimersSpec.DueInOrder` | core/AbstractThread.cpp:758-767 | due timers are fired in the order of their ids |
| `TimersSpec.SleepIsSafe` | core/AbstractThread.cpp:600-600 | while the loop goes on sleeping no running timer is due |
| `TimersSpec.DeadlinesDoNotDrift` | core/AbstractThread.cpp:760-761 | over any scans without overload the deadline after n firings is start + n·timeout, whenever the scans came |
| `TimersSpec.OverloadRestarts` | core/AbstractThread.cpp:762-765 | after a due scan the next deadline is the regular one when that lies ahead, and otherwise one timeout from now |
| `TimersSpec.InsertRepresents` | core/AbstractThread.cpp:915-933 | inserting at the right place keeps the sorted table a representation of the map with the new timer |
| `TimersSpec.ScanRepresents` | core/AbstractThread.cpp:758-769 | a scan of the table is a scan of the map it represents |
| `TimersModel.TimerTable.LowerBound` | core/AbstractThread.cpp:937-938 | bisection finds the first id not below the wanted one, and the id is in the map exactly when it stands there |
| `TimersModel.TimerTable.FreeId` | core/AbstractThread.cpp:916-920 | the least unused id, and its place in the order |
| `TimersModel.TimerTable.AppendTimer` | core/AbstractThread.cpp:915-933 | the table gains one timer under the least unused id; wakeup never later than its deadline |
| `TimersModel.TimerTable.ModifyTimer` | core/AbstractThread.cpp:935-952 | changes exactly the timer of that id, reports whether it exists, and keeps the wake-up promise |
| `TimersModel.TimerTable.RemoveTimer` | core/AbstractThread.cpp:954-971 | removes exactly the timer of that id and reports whether it exists |
| `TimersModel.TimerTable.Scan` | core/AbstractThread.cpp:756-769 | the loop fires the due ids in order, moves every due timer on, and recomputes wakeup as the soonest deadline |
| `SocketWriteSpec.BytesAreConserved` | core/AbstractSocket.cpp:435-470 | over every run of writes, partial writes, EAGAIN, write events and disconnects: bytes taken followed by bytes spilled are those accepted, spilled bytes have PollOut armed, and an uncut disconnect ends with everything taken |
| `SocketWriteSpec.DisconnectCompletes` | core/AbstractSocket.cpp:267-283 | a closing socket whose bytes are taken one at a time does reach Unconnected, with everything taken |
| `SocketWriteSpec.ActivationKeepsArmedIff` | core/AbstractSocket.cpp:521-607 | the event that activates a connected socket, with any calls from its handlers, keeps the write promise exactly when it brought no PollOut, or nothing was waiting for one, or it closes the connection, or there is input to read and the flush that follows gets everything out |
| `SocketWriteSpec.SilentActivationIff` | core/AbstractSocket.cpp:521-607 | the same for handlers that make no calls: a condition on the event, the spilled bytes and the flush result alone |
| `SocketWriteSpec.DeafStaysDeaf` | core/AbstractSocket.cpp:445-452 | once the promise is broken, over every run of writes and write tasks nothing more is taken and spilled bytes only pile up |
| `SocketWriteSpec.StepKeeps` | core/AbstractSocket.cpp:574-607 | every event keeps conservation, and a socket left closing still has bytes to flush |
| `SocketWriteSpec.WriteIsAnswered` | core/AbstractSocket.cpp:435-470 | after any write to an open socket PollOut is armed or a write task is pending: the first when bytes wait, the second when all were taken |
| `SocketWriteSpec.AnswerStays` | core/AbstractSocket.cpp:455-460 | and stays so over writes, disconnects and postponed write tasks until the socket is closed |
| `SocketWriteSpec.WriteEffect` | core/AbstractSocket.cpp:435-470 | in terms of what was taken and what waits: which bytes leave, which are spilled, when PollOut is asked for and when the write task is added |
| `SocketWriteSpec.WriteEventIsCalled` | core/AbstractSocket.cpp:574-607 | what the user writes from writeEvent is accepted: in a write task unless PollOut is waited for, before a flush, and again after a flush that got everything out |
| `SocketWriteSpec.SilentFlushEffect` | core/AbstractSocket.cpp:574-607 | a PollOut event with a silent user: part of the bytes, all of them, EAGAIN or an error |
| `SocketWriteSpec.ActivationIsHeard` | core/AbstractSocket.cpp:521-573 | activation runs every handler it reaches |
| `SocketWriteModel.AbstractSocket.WriteBytes` | core/AbstractSocket.cpp:435-470 | a write is taken, spilled in part, or queued behind spilled bytes, and always accepted whole; PollOut and the write task are added exactly when told by r and what waits |
| `SocketWriteModel.AbstractSocket.CloseSocket` | core/AbstractSocket.cpp:357-369 | closing drops what is spilled and disarms, once |
| `SocketWriteModel.AbstractSocket.Shutdown` | core/AbstractSocket.cpp:267-283 | disconnect waits for spilled bytes, or closes at once when there are none |
| `SocketWriteModel.AbstractSocket.UserWriteEvent` | core/AbstractSocket.cpp:574-575 | any sequence of writes and disconnects made from writeEvent |
| `SocketWriteModel.AbstractSocket.Disarm` | core/AbstractSocket.cpp:576-586 | with nothing left to flush PollOut is disarmed and a pending disconnect finishes |
| `SocketWriteModel.AbstractSocket.PollOutEvent` | core/AbstractSocket.cpp:574-607 | the PollOut half of pollEvent, with both writeEvent calls, is the PollOut step |
| `SocketWriteModel.AbstractSocket.PollConnected` | core/AbstractSocket.cpp:521-607 | pollEvent of a connected socket is the Activate function: disarm, close, activate, read, flush |
| `SocketWriteModel.AbstractSocket.RunWriteTask` | core/AbstractSocket.cpp:455-460 | the task posted after a complete write calls writeEvent only if nothing waits for PollOut |
| `FrameParser.ParseSplits` | main/DataArraySocket.cpp:184-243 | parsing a, then b behind what a left over, is parsing a + b, from any place of the parser |
| `FrameParser.FeedSplits` | main/DataArraySocket.cpp:189-241 | the same with the quota: a read event resumed by more bytes is the read event of all of them, refusals included |
| `FrameParser.FeedIsParse` | main/DataArraySocket.cpp:205-236 | a read event that hits no quota delivers the plain parse |
| `FrameParser.FeedIsPrefix` | main/DataArraySocket.cpp:205-236 | a refusal only cuts a read event's deliveries short |
| `FrameParser.FragmentationIsInvisible` | core/AbstractSocket.cpp:540-548 | for every cut of the stream into read events with releases anywhere, until the quota or the peer closes the connection, deliveries, parser place and unread bytes are those of the parse of the whole stream |
| `FrameParser.DeliveriesFollowStream` | main/DataArraySocket.cpp:223-227 | also after that, deliveries are a prefix of the parse of the whole stream |
| `FrameParser.FeedKeepsQuota` | main/DataArraySocket.cpp:205-236 | a read event keeps unreleased bytes plus the declared size of the frame under way, and the buffers, within the limits |
| `FrameParser.QuotaIsKept` | main/DataArraySocket.cpp:59-68 | the quota holds in every reachable state, for any bytes and any releases |
| `FrameQuota.RefusedIff` | main/DataArraySocket.cpp:205-227 | a read event is refused exactly when, somewhere in its bytes, a frame's size and the sizes then held exceed the byte limit, or one buffer more the buffer limit |
| `FrameQuota.ClosedIff` | main/DataArraySocket.cpp:205-227 | over runs, a connection is closed exactly by the peer or by such a frame |
| `FrameQuota.FittingFramesAreDelivered` | main/DataArraySocket.cpp:184-243 | when every frame that comes fits beside what is then held, everything sent is delivered |
| `FrameQuota.AmpleQuotaDeliversAll` | main/DataArraySocket.cpp:184-243 | limits that cover all payloads and their number never refuse anything: everything sent and read is delivered, whenever buffers are released |
| `FrameQuota.AmpleQuotaNeverRefuses` | main/DataArraySocket.cpp:205-227 | the same for any part of the stream |
| `FrameQuota.DeliveredIsHeld` | main/DataArraySocket.cpp:236-240 | a read event holds exactly the buffers it delivers, each at its full size |
| `FrameQuota.ReleaseMakesRoom` | main/DataArraySocket.cpp:59-68 | releasing a buffer lowers the held sum by its size and the count by one, and changes nothing else |
| `FrameParser.FramesRoundTrip` | main/DataArraySocket.cpp:314-319 | the bytes of any sequence of transmitted frames and keep-alives parse back to that sequence, except that an empty frame with the keep-alive id is seen as a keep-alive |
| `FrameParser.ParseWire` | main/DataArraySocket.cpp:168-174 | one frame or keep-alive at the front of any stream is parsed off it |
| `FrameParser.DeliveriesArePrefix` | main/DataArraySocket.cpp:184-243 | any part of the wire's bytes, however cut, delivers a prefix of the transmitted frames; all of them, without a refusal, deliver them all and leave nothing over |
| `Transport.DeliveriesFollowWrites` | core/AbstractSocket.cpp:435-470 | end to end: over any writer run and any arrival the receiver has delivered the first of the frames written and nothing else; after an uncut disconnect and the last byte, all of them unless its quota was hit |
| `Transport.AcceptedAreDelivered` | main/DataArraySocket.cpp:260-330 | from transmit to the other end: while the write tasks find the socket active, the receiver has delivered the first of the frames transmit accepted, in acceptance order; with the queue empty, an uncut disconnect and everything read, all of them |
| `Transport.CoveredAreDelivered` | main/DataArraySocket.cpp:184-330 | with limits that cover what was accepted, every accepted frame arrives, with no proviso about the quota |
| `FrameSocket.DataArraySocket.ReadKernel` | core/AbstractSocket.cpp:320-328 | the loop of partial kernel reads returns exactly the next bytes, and the cached count goes down by exactly these |
| `FrameSocket.DataArraySocket.ReadRaw` | core/AbstractSocket.cpp:308-331 | bytes come first from rda, then from the kernel, in order and without a gap |
| `FrameSocket.DataArraySocket.ReadUpTo` | core/AbstractSocket.cpp:333-348 | as much as is pending up to the wanted size |
| `FrameSocket.DataArraySocket.ReadAvailable` | core/AbstractSocket.cpp:161-177 | the cached count under flag 0x20, otherwise the kernel's, with -1 for none |
| `FrameSocket.DataArraySocket.Recount` | core/AbstractSocket.cpp:325-327 | counting again during an event changes nothing, whatever has arrived |
| `FrameSocket.DataArraySocket.Spill` | core/AbstractSocket.cpp:290-306 | the bytes counted at the start of the event end up in rda in one round, whatever has arrived since |
| `FrameSocket.DataArraySocket.QuotaExceeded` | main/DataArraySocket.cpp:205-222 | the 32-bit running sum cannot wrap, and the check refuses exactly when size plus held bytes exceed maxReadSize or one buffer more exceeds maxReadBuffers |
| `FrameSocket.DataArraySocket.ReadHeader` | main/DataArraySocket.cpp:194-195 | size and id are the first two little-endian words pending |
| `FrameSocket.DataArraySocket.TakeKeepAlive` | main/DataArraySocket.cpp:196-201 | a keep-alive clears the waiting flag or is answered |
| `FrameSocket.DataArraySocket.StartFrame` | main/DataArraySocket.cpp:192-229 | reading a header consumes eight bytes and leaves the parse of the rest: keep-alive, refusal or an opened frame |
| `FrameSocket.DataArraySocket.FillFrame` | main/DataArraySocket.cpp:231-240 | the frame under way takes what is pending and is delivered when complete |
| `FrameSocket.DataArraySocket.Deliver` | main/DataArraySocket.cpp:236-240 | the completed buffer is handed over once and held until released |
| `FrameSocket.DataArraySocket.OpenFrame` | main/DataArraySocket.cpp:192-240 | a round that starts with a header delivers the next item of the parse |
| `FrameSocket.DataArraySocket.ContinueFrame` | main/DataArraySocket.cpp:231-240 | a round that goes on with a payload delivers the next item of the parse |
| `FrameSocket.DataArraySocket.Round` | main/DataArraySocket.cpp:189-241 | one round delivers at most one item, and stops only when nothing more can be parsed or the quota refused |
| `FrameSocket.DataArraySocket.ReadEvent` | main/DataArraySocket.cpp:184-243 | the loop terminates and does exactly the parse with quota of the bytes counted for the event; one keep-alive answer for each one that found the flag clear |
| `FrameSocket.DataArraySocket.PollIn` | core/AbstractSocket.cpp:540-563 | a PollIn event is the specification's read event with exactly the bytes in the kernel's queue when it began, spilling what it leaves; with none it closes |
| `FrameSocket.DataArraySocket.CloseByPeer` | core/AbstractSocket.cpp:357-369 | closing drops what was spilled and the frame half received |
| `FrameSocket.DataArraySocket.ReleaseBuffer` | main/DataArraySocket.cpp:59-68 | releasing gives the quota exactly that buffer back |
| `KeepAliveSpec.KeepAlivesAreConserved` | main/DataArraySocket.cpp:168-180 | in every reachable state keep-alives in flight in both directions equal the endpoints waiting, hence at most two |
| `KeepAliveSpec.ExchangeDrains` | main/DataArraySocket.cpp:196-201 | no endless ping-pong: without new requests at most three deliveries more than there are frames in flight, and then nobody waits |
| `KeepAliveSpec.DeliveryDrains` | main/DataArraySocket.cpp:196-201 | every delivery is a step nearer to silence |
| `KeepAliveSpec.ExchangeCompletes` | main/DataArraySocket.cpp:168-201 | undisturbed, a request, its answer and their deliveries lead back to silence |
| `KeepAliveSpec.StepKeeps` | main/DataArraySocket.cpp:132-145 | requests from the timer, other traffic and deliveries keep the balance |
| `KeepAliveModel.Peer.TimerEvent` | main/DataArraySocket.cpp:132-145 | the timer requests exactly when flags are 0x80, and only the specification's Timer step follows; otherwise it gives up |
| `KeepAliveModel.Peer.ReadFrame` | main/DataArraySocket.cpp:196-201 | reading a frame is the Deliver step on both endpoints |
| `TransmitQueueSpec.QueueIsServed` | main/DataArraySocket.cpp:297-328 | over every run, other tasks between check and queueing included, exactly one write task is pending while frames are queued and none otherwise, frames leave in order, and length and total payload stay bounded |
| `TransmitQueueSpec.TaskWritesAll` | main/DataArraySocket.cpp:260-275 | on an active socket the pending task writes everything accepted |
| `TransmitQueueSpec.OwnThreadFindsRoom` | main/DataArraySocket.cpp:297-303 | on the socket's own thread the pending write task runs first, so a frame that passed the check is never refused for crowding |
| `TransmitQueueSpec.EnqueueIff` | main/DataArraySocket.cpp:297-328 | a checked frame is refused exactly when maxWriteBuffers frames are queued or their payloads exceed maxWriteSize; otherwise it is queued last, with a write task if alone |
| `TransmitQueueSpec.CheckIff` | main/DataArraySocket.cpp:287-295 | below 2^31 bytes a frame passes the check exactly when the socket is active and the frame within maxWriteSize; a refusal disconnects exactly a socket without a port |
| `TransmitQueueSpec.SizeCheckIff` | main/DataArraySocket.cpp:291-295 | the converted size bounds the real one exactly below 2^31 bytes |
| `TransmitQueueModel.Transmitter.Overflows` | main/DataArraySocket.cpp:304-312 | the 32-bit running sum cannot overflow below 2^30 and compares the true total |
| `TransmitQueueModel.Transmitter.CheckFrame` | main/DataArraySocket.cpp:277-295 | the Check step: state and size are looked at on the calling thread |
| `TransmitQueueModel.Transmitter.EnqueueFrame` | main/DataArraySocket.cpp:297-328 | the Enqueue step: refused for length or total, otherwise queued even if the socket has become inactive; the invariant stays |
| `TransmitQueueModel.Transmitter.Send` | main/DataArraySocket.cpp:277-330 | transmit on the own thread is check, pending write task, queueing, and keeps the invariant |
| `TransmitQueueModel.Transmitter.WriteSocket` | main/DataArraySocket.cpp:260-275 | the loop writes the queue in order, or drops it on an inactive socket |
| `Codec.SizeRoundTrip` | core/DataArray.cpp:362-387 | a written size is read back, whatever follows, exactly when it is below 2^61 |
| `Codec.SizeIsShortest` | core/DataArray.cpp:362-370 | the prefix has the least n extra bytes with s < 2^(5+8n) |
| `Codec.SizesArePrefixFree` | core/DataArray.cpp:362-387 | no size's encoding is a proper prefix of another's |
| `Formats.SizeFormat` | core/DataArray.cpp:362-370 | the low three bits of the first byte count the bytes that follow, its upper five are the low bits of the size |
| `Formats.IntFormat` | core/DataArray.cpp:166-244 | integers are stored least significant byte first, negative ones as two's complement |
| `Formats.FourBytes` | core/DataArray.cpp:166-244 | which four bytes these are |
| `Formats.ListFormat` | core/DataArray.cpp:326-335 | a list's arrays follow one another in order, each behind its size |
| `Formats.FrameFormat` | main/DataArraySocket.cpp:314-319 | a frame is size, id and payload |
| `Formats.KeepAliveFormat` | main/DataArraySocket.cpp:168-174 | the eight bytes of a keep-alive |
| `Formats.ReplyFormat` | main/RrdServer.cpp:42-45 | index, items, last index |
| `Formats.ImageFormat` | main/Rrd.cpp:198-201 | last index, slots |
| `Formats.RecordFormat` | main/Log.cpp:246-251 | time, type, name, text, note |
| `Codec.RoundTrip` | core/DataArray.cpp:270-335 | every integer, array and list of arrays is read back as written, using exactly its own bytes, whatever follows |
| `Codec.RoundTripAll` | core/DataArray.cpp:270-335 | any sequence of values is read back by the same sequence of reads, to the last byte |
| `Codec.ProperPrefixFails` | core/DataArray.cpp:138-146 | no proper prefix of a value's encoding decodes |
| `Codec.DecodeExtends` | core/DataArray.cpp:347-360 | what follows a value does not change what is read |
| `DataStreamModel.DataStream.W` | core/DataArray.cpp:337-345 | writes append; a failed or read-only stream stays as it was and failed |
| `DataStreamModel.DataStream.R` | core/DataArray.cpp:347-360 | reads take the next bytes or fail for good with output and position untouched |
| `DataStreamModel.DataStream.Sw` | core/DataArray.cpp:362-370 | the digit-counting loop writes the size encoding |
| `DataStreamModel.DataStream.Sr` | core/DataArray.cpp:372-387 | reads a size exactly when one is there |
| `DataStreamModel.DataStream.WriteBlob` | core/DataArray.cpp:297-302 | an array is appended as its encoding, or the stream has failed |
| `DataStreamModel.DataStream.ReadBlob` | core/DataArray.cpp:287-295 | an array is read exactly when one decodes here; on failure the output keeps its value |
| `DataStreamModel.DataStream.WriteBlobs` | core/DataArray.cpp:330-333 | the loop appends the arrays' encodings in order |
| `DataStreamModel.DataStream.ReadBlobs` | core/DataArray.cpp:316-321 | the list reader terminates for any declared count and reads exactly what decodes |
| `DataStreamModel.DataStream.WriteBlobList` | core/DataArray.cpp:326-335 | a list is appended as its encoding |
| `DataStreamModel.DataStream.ReadBlobList` | core/DataArray.cpp:311-324 | a list is read exactly when one decodes here; on failure the output keeps its value |
| `DataStreamModel.DataStream.Write` | core/DataArray.cpp:297-335 | any value is appended as its encoding |
| `DataStreamModel.DataStream.Read` | core/DataArray.cpp:270-324 | any value is read exactly when one of its type decodes here, failure is sticky and leaves the output unchanged |
| `DataStreamModel.CompressHeader` | core/DataArray.cpp:17-35 | compress writes byte for byte the stream's size prefix |
| `DataStreamModel.UncompressHeader` | core/DataArray.cpp:37-46 | uncompress reads that prefix back, from any bytes |
| `Compression.CompressionRoundTrip` | core/DataArray.cpp:17-61 | what is compressed is uncompressed unchanged, the empty array included, over any library that undoes itself |
| `Compression.UncompressedIff` | core/DataArray.cpp:37-61 | a non-empty result is what the block unpacks to, at exactly the declared size; anything else reads as empty |
| `Compression.CutShortIsEmpty` | core/DataArray.cpp:37-61 | a compressed array cut short anywhere is read as empty |
| `Compression.Compress` | core/DataArray.cpp:17-35 | header and block |
| `Compression.Uncompress` | core/DataArray.cpp:37-61 | the declared size must be there and be the size found, otherwise the result is empty |
| `RrdSpec.ReadIsExact` | main/Rrd.cpp:143-156 | read returns the consecutive items from max(val, last − dbSize + 1) exactly when val is not last − dbSize or the two items in question are equal |
| `RrdSpec.HistoryExistsIff` | main/Rrd.cpp:180-194 | contents of a file are those of some history exactly when the last index has passed every slot or no slot beyond it, nor slot 0, is in use |
| `RrdSpec.AppendedIsStored` | main/Rrd.cpp:78-98 | what an append above the last index does to the slots: its own holds the item, a skipped index of the window a copy when at most `fill` indices (or slots) were passed and nothing otherwise, every other slot what it held |
| `RrdSpec.AppendLands` | main/Rrd.cpp:68-74 | an append lands on the index given, else on the interval the clock is in, else on the next index |
| `RrdModel.Rrd.WalkBack` | main/Rrd.cpp:91-97 | the backward loop fills or clears exactly the skipped slots |
| `RrdModel.Rrd.StoreAt` | main/Rrd.cpp:88-98 | the slots after storing: the ring shows the appended history, and is as `AppendedIsStored` says |
| `RrdModel.Rrd.Insert` | main/Rrd.cpp:71-104 | an index not above the last leaves every slot as it was; otherwise the ring refines the index map with the new item and its gap, told on the slots as well |
| `RrdModel.Rrd.Append` | main/Rrd.cpp:68-111 | every append keeps the ring a refinement of the index map, for increasing, repeated, skipped or implied indices, with its place and the slots spelled out, and averages the bucket before |
| `RrdModel.Rrd.Read` | main/Rrd.cpp:143-156 | the loop over slots returns what the index map holds, and the index of the last item returned |
| `RrdModel.Rrd.ReadFromArray` | main/Rrd.cpp:113-116 | positions 0 to count − 1 are the newest count items in order |
| `RrdModel.Rrd.Clear` | main/Rrd.cpp:123-131 | back to the empty history |
| `RrdModel.Rrd.SaveToFile` | main/Rrd.cpp:198-212 | the compressed file holds the last index and every slot, and loads as such |
| `RrdModel.Rrd.FromFile` | main/Rrd.cpp:27-45 | a database opened over its own compressed file shows the same history, with count the slots in use; a file of another size, or none, is discarded; any other contents are taken as they are |
| `RrdImage.ImageRoundTrip` | main/Rrd.cpp:173-178 | a stored image loads as it was stored |
| `RrdImage.TornFileIsEmpty` | main/Rrd.cpp:169-178 | a compressed file cut short anywhere loads neither index nor slots |
| `RrdImage.ReadImage` | main/Rrd.cpp:173-178 | reading uncompressed bytes gives their image, whatever they are |
| `RrdImage.WriteImage` | main/Rrd.cpp:198-201 | the stream of index and slots is the image's encoding |
| `RrdAverage.AverageIsBucket` | main/Rrd.cpp:106-110 | the callback gets exactly the aInterval items of the bucket before the new index's, when that still lies above the ring's lower edge |
| `RrdAverage.AverageEmptyInFirstBucket` | main/Rrd.cpp:106-110 | the averaging read underflows, and returns nothing, exactly in the first bucket |
| `RrdAverage.FiresInFirstBucketIff` | main/Rrd.cpp:100-100 | with an offset the test fires inside the first bucket exactly when the shifted boundary lies between the last index and the new one |
| `RrdAverage.OffsetFiresEarlyIff` | main/Rrd.cpp:100-100 | some step inside the first bucket fires exactly when the offset is no multiple of the interval |
| `RrdAverage.FiresIsNewBucket` | main/Rrd.cpp:100-100 | with offset 0 the unsigned test fires exactly when a later bucket is entered |
| `RrdAverage.ReportsAreDistinctBuckets` | main/Rrd.cpp:100-110 | over every run each report holds exactly its bucket's items and no bucket is reported twice |
| `RrdAverage.EveryBucketReported` | main/Rrd.cpp:100-110 | with consecutive indices every completed bucket is reported once, in order |
| `Replication.ReplyShape` | main/RrdServer.cpp:37-51 | a reply to a client that is behind starts where the client ends or further up the window, is full or reaches the last index, and every item of the window is the server's |
| `Replication.ChunkIsAppended` | main/RrdClient.cpp:95-96 | appending a chunk adds exactly its items above what the ring holds, and what it holds stays |
| `Replication.ChunkFillsGap` | main/RrdClient.cpp:95-96 | a chunk that starts above the ring fills the gap with what its first item makes of it |
| `Replication.ChunkAccepted` | main/RrdClient.cpp:95-103 | after an accepted chunk the client's last index is the reply's and its ring holds what it lacked of the chunk |
| `Replication.RoundCases` | main/RrdClient.cpp:88-104 | a round moves the client strictly up, or finishes it at the server's last index, or resynchronises it to where no reply looks out of step |
| `Replication.RoundAgrees` | main/RrdClient.cpp:88-104 | an accepted round keeps and extends the agreement with the server on the final window |
| `Replication.SettledConverges` | main/RrdClient.cpp:69-105 | a client in step converges without resync in at most one reply per missing index |
| `Replication.Converges` | main/RrdClient.cpp:69-105 | from any last index and any ring the exchange terminates with at most one resync, agreeing with the server on the whole window after a resync, and otherwise keeping what was held and agreeing on everything neither held nor asked for |
| `Replication.RoundResyncsIff` | main/RrdClient.cpp:89-93 | a round resyncs exactly when the client is above the server or the reply ends more than its size above it |
| `Replication.ResyncsIff` | main/RrdClient.cpp:89-93 | whether a whole exchange resyncs is told from the two last indices and the two sizes |
| `Replication.WindowIndexIff` | main/RrdClient.cpp:95-98 | without a resync, index by index: what the ring held stays, what was asked for but not held becomes the gap item, the rest is the server's |
| `Replication.WholeWindowIff` | main/RrdClient.cpp:69-105 | for every client the whole window agrees at the end exactly when that test holds, or the client agreed before on what its ring held and every index of the window above its ring, up to its last index, is to be filled with the server's item |
| `Replication.ClearedClientStaysEmpty` | main/RrdClient.cpp:88-104 | a client whose database is cleared while it is up to date finishes at once, with nothing of its window |
| `Replication.AheadClientKeepsItsOwn` | main/RrdClient.cpp:20-20 | a client whose ring is ahead of the server, as one from a file may be, keeps it to the last item unless that test holds, and then mirrors the server |
| `Replication.EmptyClientIff` | main/RrdClient.cpp:69-105 | an empty client gets the whole window, from any last index, exactly when it resyncs or its gap is filled rightly |
| `Replication.EmptyClientMirrorsServer` | main/RrdClient.cpp:69-105 | then, and always from last index 0, its ring ends slot for slot equal to the server's on its whole window, mislabelled boundary reply included |
| `RrdPeers.ReplyRoundTrip` | main/RrdServer.cpp:42-47 | the client parses the very reply the server serialized |
| `RrdPeers.MessageRoundTrip` | main/RrdServer.cpp:42-47 | the compressed message is read as the reply |
| `RrdPeers.SerializeReply` | main/RrdServer.cpp:42-45 | three stream writes make the reply's encoding |
| `RrdPeers.ParseReply` | main/RrdClient.cpp:75-86 | three stream reads make the reply, or none when any fails |
| `RrdPeers.Transmit` | main/RrdServer.cpp:37-51 | the server's compressed message reads as what its ring shows from the requested index, at most 100 items |
| `RrdPeers.Received` | main/RrdServer.cpp:23-28 | the reply to the index in the request's first eight bytes |
| `RrdPeers.RrdClient.Request` | main/RrdClient.cpp:107-113 | the request carries the index after the client's last |
| `RrdPeers.Exchange` | main/RrdClient.cpp:69-113 | request, compressed reply and its effect on the client's ring are one round of the protocol, or nothing happens because the message is too large to transmit |
| `RrdPeers.RrdClient.AppendList` | main/RrdClient.cpp:96-96 | the loop of appends is the chunk append of the specification |
| `RrdPeers.RrdClient.TcpRead` | main/RrdClient.cpp:69-105 | a message that uncompresses and parses is one client step of the protocol; any other changes nothing |
| `ConnectorSpec.PointersStayConsistent` | core/FunctionConnector.cpp:21-81 | after every run a guard manages a connection exactly when that connection names the guard, and a connector lists exactly the connections that name it |
| `ConnectorSpec.FreedExactlyOnce` | core/FunctionConnector.h:121-131 | after every run each connection is alive or freed once, its function has one reference for it and one for each queued call, and is freed once, when none is left |
| `ConnectorSpec.StepKeeps` | core/FunctionConnector.cpp:21-81 | connect, bind, move, drop, queued call, delete task and connector destruction each keep pointers and accounts |
| `ConnectorSpec.UnbindFrame` | core/FunctionConnector.cpp:63-68 | unbinding a guard touches no other guard and no other connection |
| `ConnectorEffects.MoveEffect` | core/FunctionConnector.cpp:76-81 | after a move the target manages what the source did, which manages nothing, and the connection names the target; what the target managed is freed or has its delete task queued; every other guard and connection is as it was |
| `ConnectorEffects.BindEffect` | core/FunctionConnector.cpp:70-74 | the same for the assignment of a connection |
| `ConnectorEffects.DropEffect` | core/FunctionConnector.cpp:58-68 | and for a guard's end |
| `ConnectorEffects.RunTaskEffect` | core/FunctionConnector.h:126-132 | a delete task frees its connection and no other; a call gives its reference back |
| `ConnectorEffects.DetachEffect` | core/FunctionConnector.cpp:21-28 | a connector's end frees an attached connection and only forgets the others |
| `ConnectorModel.Signals.ConnectSlot` | core/FunctionConnector.cpp:30-34 | a connect is the Connect step: a new attached connection of the kind asked for, in its connector's list |
| `ConnectorModel.Signals.ReleaseFunction` | core/FunctionConnector.h:128-130 | dropping a reference frees the function exactly at zero |
| `ConnectorModel.Signals.DeleteNow` | core/FunctionConnector.cpp:36-43 | deleting a connection clears its guard, leaves its connector's list and drops its reference |
| `ConnectorModel.Signals.DestroyManaged` | core/FunctionConnector.cpp:63-68 | the managed connection is cut loose, then deleted at once or by a task |
| `ConnectorModel.Signals.AssignConnection` | core/FunctionConnector.cpp:70-74 | guard = connection is the Bind step and keeps the invariant |
| `ConnectorModel.Signals.MoveGuard` | core/FunctionConnector.cpp:76-81 | guard = move(guard) is the Move step, with the effects of `MoveEffect` on the guards and connections themselves, and keeps the invariant |
| `ConnectorModel.Signals.DropGuard` | core/FunctionConnector.cpp:58-61 | a guard's end is the Drop step |
| `ConnectorModel.Signals.RunQueued` | core/FunctionConnector.h:126-132 | running and freeing a queued task is the RunTask step |
| `ConnectorModel.Signals.Emit` | core/FunctionConnector.h:96-111 | an emit queues one call for each attached connection whose thread accepts it and that is Queued, or Auto and of another thread, and nothing else |
| `ConnectorModel.Signals.QueueTask` | core/FunctionConnector.h:105-106 | one queued call is made and accepted: the QueueCall step, keeping the invariant |
| `ConnectorModel.Signals.DetachOne` | core/FunctionConnector.cpp:24-27 | one round of the connector's end is the Detach step and touches no other connection |
| `ConnectorModel.Signals.DestroyConnector` | core/FunctionConnector.cpp:21-28 | a connector's end deletes its attached connections and leaves the others to their delete tasks |
| `LogDuplicates.NothingIsLost` | main/Log.cpp:119-147 | at every moment the output reads back as the run-length encoding of the input, counts capped at 10000, an open block lagging at most to its last milestone, exactly when no blank message starts a block |
| `LogDuplicates.BlocksAreAccounted` | main/Log.cpp:119-165 | on any input, blocks in the output and blank messages that start a block add up to the blocks of the input |
| `LogDuplicates.ReportsStrictlyIncrease` | main/Log.cpp:122-143 | when no blank message starts a block, reports follow an entry for the same message with a strictly smaller count |
| `LogDuplicates.ReportsIncreaseIff` | main/Log.cpp:119-165 | on any input, reports follow an entry for the same message with a smaller count exactly unless a report about the blank message comes due when the last entry is not one for it with a smaller count |
| `LogDuplicates.BlankReportIsAnOrphan` | main/Log.cpp:153-162 | a blank message and a timer write a report with no entry before it |
| `LogDuplicates.BlockIsWritten` | main/Log.cpp:119-147 | n equal messages write what is owed of the block before, the message, and reports at 10, 100 and every thousand up to 10000, where the count stops |
| `LogDuplicates.BlockIsClosed` | main/Log.cpp:153-163 | the timer then writes the closing report unless the count was reported last |
| `LogDuplicates.OnlyBlankIsSwallowed` | main/Log.cpp:160-161 | the first message after a reset is written exactly when it is not the blank one |
| `LogDuplicates.FinalityRepeatsIff` | main/Log.cpp:37-47 | finalizing keeps counts strictly increasing exactly when the open block did not stop on a milestone below 10000 |
| `LogDuplicates.RecordRoundTrip` | main/Log.cpp:246-259 | a stored message reads back field by field, to the last byte |
| `LogModel.AbstractLog.SeverityReadsBack` | main/Log.cpp:119-165 | in every reachable log the output of each severity reads back as that severity's own input under that condition, and its reports increase |
| `LogModel.AbstractLog.Count` | main/Log.cpp:119-145 | counting touches only the message's severity and writes what the specification owes |
| `LogModel.AbstractLog.ProcessMessage` | main/Log.cpp:119-147 | a message moves on its own severity's run and no other's; without suppression every message is written |
| `LogModel.AbstractLog.TimerEvent` | main/Log.cpp:153-165 | a timer ends its own severity's block and touches no other's run |
| `LogModel.AbstractLog.EndBlock` | main/Log.cpp:153-163 | the timer reports what is owed and resets the severity |
| `LogModel.RrdItemFromMessage` | main/Log.cpp:246-251 | the item is the record's encoding and decodes to it |
| `LogModel.MessageFromRrdItem` | main/Log.cpp:253-259 | any item gives the record it decodes to, or an empty message |

## Left out

- System calls, the epoll, poll and io_uring back ends, wake-up descriptors, TLS: readiness, partial transfers and errors are inputs of the events.
- zlib itself: a parameter, assumed to undo itself and to refuse a block cut short; a failing `compress` is not modelled.
- `DataArrayList` split and join, HTTP, mDNS, file watching, processes, coroutines, console formatting: they would add only easy members.
- Data races below the level of the mutexes: each locked section is one step.
- WaiterSpec.RunKeeps: quits come only from `complete()` on the waiting thread, and a waiter waits once at a time; `quit()` from elsewhere and completion from another thread are outside the contract at core/AbstractThread.h:63-77.
- EventLoopSpec.StepKeeps: whether a loop finds its quit bit set is an input here (`Waiter.dfy` says when it is); interrupts are not modelled, and neither is a `wait()` from a task run during shutdown, which would put the finished thread back to Running (core/AbstractThread.cpp:788-791, 549-550).
- EventLoopThread.AbstractThread.LeaveOrSnapshot: whether it is time for polls or for timers is an input here, so the comparison of `wakeup` and the clock is not part of it (`Timers.dfy` says what that comparison guarantees); the descriptors epoll returned are any that were not freed, and the edge-triggered variant is not modelled.
- TimersSpec.SleepIsSafe: timers with a negative timeout, which the scan treats as always due, are outside the wake-up promise.
- SocketWriteModel.AbstractSocket.WriteBytes: writes after the socket became Unconnected, a thread that refuses the write task, and what `stateEvent` handlers do inside `disconnect` and `close`, are not modelled.
- SocketWriteModel.AbstractSocket.PollConnected: the poll event that turns Connecting into Connected is not part of it, nor is the input it reads.
- FrameSocket.DataArraySocket.ReadRaw: errors of kernel reads and a read limit of INT_MAX, for which `read(int)` ignores the wanted size, are not modelled.
- FrameSocket.DataArraySocket.Deliver: the `received` callback does not re-enter the socket; buffers are released between read events.
- FrameSocket.DataArraySocket.PollIn: the close after a refused frame is modelled as deafness of the receiver; reconnecting is not modelled.
- KeepAliveSpec.KeepAlivesAreConserved: `sendKeepAlive(true)` called by the user while a request is outstanding is excluded, and so is the limit on how long an answer may take.
- TransmitQueueSpec.QueueIsServed: `transmit` with `wait` and arrays of 2^31 bytes or more are excluded; `SizeCheckIff` says what the latter break.
- RrdModel.Rrd.Read: does not model the wrap of the running index at a last index of 2^64 − 1, and the division by a size of 0.
- RrdModel.Rrd.FromFile: reading and writing the file itself, and the branch taken when both fail, are not modelled; of contents no history explains (`HistoryExistsIff`) it says only that they are kept.
- RrdModel.Rrd.Append: the `updated` signal, `writeToArray` and a negative averaging offset are not modelled.
- Replication.Converges: the server's database does not change meanwhile, one request is outstanding at a time, the client is no larger than the server and not of size 0.
- RrdPeers.RrdClient.TcpRead: one database of the client's list, and no request timer.
- RrdPeers.Received: a request shorter than eight bytes, which the server reads past its end, is excluded.
- RrdPeers.Transmit: a reply whose serialization reaches 2^31 bytes is excluded.
- DataStreamModel.DataStream.R: arrays of 2^31 bytes or more, where sizes are converted to `int`, and floating-point values, which are copied like integers, are not modelled; nor is a failed allocation.
- ConnectorSpec.StepKeeps: sequential runs, one guard per connection, no guard moved onto itself; slots do not change the connector they are called from.
- ConnectorModel.Signals.Emit: calls made in place and the synchronous cross-thread call leave the modelled state alone and do not appear.
- LogModel.AbstractLog.ProcessMessage: whether duplicates are hidden is fixed when the log is made, while the source can switch it at run time (main/Log.cpp:63-65).
- LogDuplicates.NothingIsLost: the type of a default message, indeterminate in the source, is taken as 0, and when timers run is an input.
