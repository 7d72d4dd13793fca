# Verification of the transcoding core and of ffedit's pairing

A Dafny model of the concurrent and stateful parts of the FFglitch tools, with proofs over every input, every
interleaving and every run.

**Thread queue** (`ThreadQueueModel`, `ThreadQueues`, `ObjectPool`). A bounded FIFO shared by many streams, with SEND
and RECV finish flags and a recycled-object pool, as a monitor. A step is a critical section; a condition wait splits
an operation in two; waiting threads may wake spuriously, and any number of threads may send on one stream or receive.
The class does the same on heap objects, flags array and pool, and each of its methods is proved to be exactly one
step of the state machine.

**Scheduler** (`TranscodeGraph`, `UpstreamWalks`, `StartPrepare`, `Scheduling`, `PreMuxQueues`, `MuxStart`,
`MuxStartLaws`, `MuxStarters`, `MuxPipelines`, `EndOfStream`, `FilterControl`). The cycle check with its explicit
stack and the upstream walk it makes safe, the derivation of scheduling sources, the choke policy and every operation
that writes its inputs, the two-phase start of the muxers with their pre-muxing queues, alone and together with a
muxer's thread queue, and the end-of-stream bookkeeping towards destinations and control streams.

**Frame rate and timestamps** (`FrameRate`, `FrameRateLaws`, `MuxTimestamps`). The conversion of variable to constant
frame rate with its duplicate and drop counters over ideal reals, and the last timestamp repair before muxing.

**ffedit** (`PktPosSort`, `EditFile`, `EditQueue`, `EditQueueRuns`). Export of decoded data per packet and its return
on apply, the sorts by packet position, and the bounded queue between decoding and scripting.

What the proofs found the code to do where one might expect otherwise:

- The duplication cap, right after a dropped frame that is not repeated, counts one frame twice as dropped
  (`FrameRate.FramesConserved`, `FrameRate.CapExample`). So does the flush after some frame has been emitted, if it
  repeats nothing while a drop is pending (`FrameRate.FlushBalance`, `FrameRate.FlushExample`). A first frame emitted
  only "for its predecessor" is counted as dropped too (`FrameRate.DropsAreLostFrames`).
- A packet without a dts makes the muxer forget the last dts (`MuxTimestamps.MissingDtsForgets`); the dts of a run stay
  in order exactly under the condition of `MuxTimestamps.RunInOrderIff`.
- Both sorts by packet position compare 64-bit positions through an `int`; in a stream longer than 2^31 bytes export
  and apply can pair the wrong frames (`EditFile.LargeFileIsSwapped`). They are sure to pair the right ones exactly if
  all pairs of positions suit the comparator (`EditFile.ExportThenApply`).
- In the queue the positions left behind in unused slots, zero at first, are sorted along. The order is sure exactly
  while all positions in the slots suit the comparator (`PktPosSort.SortedIff`, `EditQueueRuns.AddInOrderIff`); one
  stale zero is enough to make two frames two bytes apart change places (`EditQueueRuns.StaleZeroExample`). What is left
  behind does not stay for ever (`EditQueueRuns.StaleIsBounded`), so files of any length are safe while the frames held
  and the last eight added lie less than 2^31 bytes before any frame added so far (`EditQueueRuns.QueueInOrder`).
- The description of tq_send in fftools/thread_queue.h promises an error once the sending side is finished; a sender
  already waiting when that happens still gets its item in (`ThreadQueueModel.BlockedSenderGetsIn`), and it is the
  only one (`ThreadQueueModel.RefusedIff`, `ThreadQueueModel.SentAfterFinish`). The EOF stays exact all the same.
- A demuxer without streams is never started (fftools/ffmpeg_sched.c:1564) and so never exits; once no stream is
  eligible the fallback may open it and nothing else (`Scheduling.FallbackOpensOne`,
  `StartPrepare.FallbackOpensStartedIff`, `StartPrepare.SilentDemuxerExample`).
- start_prepare aborts on an assertion, instead of reporting an error, for a muxer stream encoded straight from a
  loopback decoder (`StartPrepare.Prepare`, `StartPrepare.LoopExample`). ffmpeg itself never connects such a plan, since
  it gives an encoder no decoder but that of its input stream (`StartPrepare.OwnDecodersNeverLoop`); another user of
  sch_connect could.
- The comment on the pre-muxing queue's `data_size` (fftools/ffmpeg_sched.c:175-179) says it is updated when a packet
  is pulled; the code updates it only when one is pushed, and so does the model.
- An encoder's send loop never reports that all its destinations are closed, unlike those of demuxers and decoders
  (`EndOfStream.RoundReportsEof`).

Callbacks, system calls and the answers of other components enter as parameters of the steps, and the theorems hold
for all of them.

## Model

| member | source | states |
|---|---|---|
| `ThreadQueueModel.StepKeepsInv` | fftools/thread_queue.c:120-254 | every critical section, in any order and with spurious wakeups, keeps the invariant: fifo within capacity, and a thread that sleeps unsignalled has a reason to sleep |
| `ThreadQueueModel.SleepersHaveReason` | fftools/thread_queue.c:120-254 | no lost wakeup, at every point of every run: an unsignalled sleeping sender faces a full fifo and a stream not RECV-finished, an unsignalled sleeping receiver an empty fifo, no stream owing an EOF and some open stream; the two kinds never sleep at once |
| `ThreadQueueModel.ReceiveFreesSenders` | fftools/thread_queue.c:161-224 | a receive that starts while a sender sleeps leaves room in the fifo and the sender signalled |
| `ThreadQueueModel.StepFlags` | fftools/thread_queue.c:120-254 | no section clears a flag; a RECV-finished stream accepts, delivers and ends no more; only tq_send_finish makes a stream owe an EOF |
| `ThreadQueueModel.StepMoves` | fftools/thread_queue.c:120-224 | what each section does to the items pending for an open stream: one more at the end, one fewer at the front, or none |
| `ThreadQueueModel.DeliveredIsPrefix` | fftools/thread_queue.c:120-224 | per-stream FIFO over every run: delivered items are always a prefix of accepted items, senders blocked across tq_send_finish included |
| `ThreadQueueModel.StreamEofIsExact` | fftools/thread_queue.c:177-193 | a stream's EOF comes only after a tq_send_finish for it, when delivered equals accepted; after it nothing is accepted or delivered for the stream and the EOF never comes again |
| `ThreadQueueModel.AllEofStays` | fftools/thread_queue.c:177-224 | a receive returns EOF without a stream exactly when every stream is RECV-finished, and every later receive does the same |
| `ThreadQueueModel.SendFlagIff` | fftools/thread_queue.c:120-140 | over every run: a stream's SEND flag is set iff tq_send_finish was called for it or a tq_send on it was answered EOF |
| `ThreadQueueModel.RefusedIff` | fftools/thread_queue.c:128-134 | over every run: a tq_send is answered EINVAL iff the stream's sending side was finished before it |
| `ThreadQueueModel.SentAfterFinish` | fftools/thread_queue.c:128-159 | over every run: an item accepted after the finish is always that of a sender whose tq_send was made and blocked before any finish, and is accepted by its wakeup |
| `ThreadQueueModel.WaiterGetsIn` | fftools/thread_queue.c:136-159 | a waiting sender that wakes is let in iff it finds room and the receiver still wants the stream, finished for sending or not |
| `ThreadQueueModel.BlockedSenderGetsIn` | fftools/thread_queue.c:120-159 | it happens: a run in which a sender waits across tq_send_finish and its item is accepted |
| `ThreadQueueModel.RecvFlagIff` | fftools/thread_queue.c:120-254 | over every run: a stream's RECV flag is set iff tq_receive_finish was called for it or its EOF was returned |
| `ThreadQueueModel.SendAnswer` | fftools/thread_queue.c:120-159 | over every run, what every tq_send and every wakeup of one is answered: EINVAL at the call iff the stream was finished for sending before, else EOF iff it was finished for receiving, else success iff there is room |
| `ThreadQueueModel.ReceiveAnswer` | fftools/thread_queue.c:161-224 | over every run, what every receive is answered: the first element of a stream not RECV-finished, what lay before it being discarded; with none, the EOF of the least stream owing one; with none owing, EOF for all or a wait |
| `ThreadQueueModel.OrderAcrossStreams` | fftools/thread_queue.c:120-224 | over every run: one fifo for all streams; what is queued is the rest of what was accepted, and elements of whatever streams are handed out in the order they were accepted |
| `ThreadQueues.ThreadQueue.constructor` | fftools/thread_queue.c:79-118 | a new queue represents the initial monitor state, with an empty pool |
| `ThreadQueues.ThreadQueue.TqSend` | fftools/thread_queue.c:120-140 | the entry of tq_send performs exactly the Send step; the caller's item is moved out if it was queued and untouched otherwise |
| `ThreadQueues.ThreadQueue.TqSendResume` | fftools/thread_queue.c:136-159 | tq_send after its wait performs exactly the Resume step, without looking at the SEND flag again |
| `ThreadQueues.ThreadQueue.SendLoop` | fftools/thread_queue.c:136-159 | wait, end of stream or write, with the broadcast only after a write |
| `ThreadQueues.ThreadQueue.Write` | fftools/thread_queue.c:143-153 | queues the item in an object of the pool; the fifo has room, so the write assertion holds |
| `ThreadQueues.ThreadQueue.ReadWanted` | fftools/thread_queue.c:167-177 | drops leading elements of RECV-finished streams, returning their objects, and takes the first wanted one |
| `ThreadQueues.ThreadQueue.NextEof` | fftools/thread_queue.c:179-193 | the scan of the flags finds the first stream owing an EOF and marks it, else tells all-finished from try-again |
| `ThreadQueues.ThreadQueue.DoReceiveLocked` | fftools/thread_queue.c:161-194 | the whole of receive_locked, with the item moved to the caller |
| `ThreadQueues.ThreadQueue.TqReceive` | fftools/thread_queue.c:196-224 | one round of tq_receive performs exactly the Receive step: broadcast if the fifo shrank, then sleep or return |
| `ThreadQueues.ThreadQueue.TqReceiveResume` | fftools/thread_queue.c:210-217 | tq_receive after its wait performs exactly the Resume step |
| `ThreadQueues.ThreadQueue.TqSendFinish` | fftools/thread_queue.c:226-239 | marks the stream and signals every waiter |
| `ThreadQueues.ThreadQueue.TqReceiveFinish` | fftools/thread_queue.c:241-254 | marks the stream and signals every waiter |
| `ThreadQueues.ThreadQueue.TqFree` | fftools/thread_queue.c:55-77 | every object the pool ever allocated has been freed, and none is freed twice |
| `ObjectPool.ObjPool.Get` | fftools/objpool.c:67-76 | hands out a reset object nobody else holds, the last pooled one if there is one; pooled, lent and freed objects stay a partition of all objects |
| `ObjectPool.ObjPool.Release` | fftools/objpool.c:78-91 | resets the object and pools it while fewer than 32 are pooled, frees it otherwise; the partition is kept and nothing is freed twice |
| `ObjectPool.ObjPool.Free` | fftools/objpool.c:54-65 | with nothing lent, afterwards every object ever issued has been freed and no call of the free callback was for one freed before |
| `TranscodeGraph.CheckAcyclicForOutput` | fftools/ffmpeg_sched.c:1288-1332 | terminates on every filter graph, its stack never overflows, and it accepts if and only if no cycle is reachable upstream of the filtergraph |
| `TranscodeGraph.CheckAcyclic` | fftools/ffmpeg_sched.c:1334-1379 | accepts if and only if no cycle is reachable from the filtergraph behind any stream of any muxer |
| `TranscodeGraph.BackEdgeIsCycle` | fftools/ffmpeg_sched.c:1312-1314 | meeting a Started filtergraph closes a real cycle through the search path |
| `TranscodeGraph.PathFits` | fftools/ffmpeg_sched.c:1316-1318 | the search path never holds more entries than there are filtergraphs |
| `TranscodeGraph.WorkDescend` | fftools/ffmpeg_sched.c:1316-1320 | a descent, even into a filtergraph finished before, decreases the work left on the path |
| `TranscodeGraph.RankedHasNoCycle` | fftools/ffmpeg_sched.c:1323-1330 | the filtergraphs ever finished are closed under sources and ranked, so no cycle is reachable from them |
| `TranscodeGraph.WalkEnds` | fftools/ffmpeg_sched.c:1191-1214 | upstream of an accepted filtergraph a walk that revisits nothing resolves within the hops left |
| `TranscodeGraph.CycleDefeatsWalk` | fftools/ffmpeg_sched.c:1191-1214 | if a cycle is reachable, some choice of wanted inputs makes the walk go on for ever |
| `TranscodeGraph.WalkEndsIffAcyclic` | fftools/ffmpeg_sched.c:1191-1214 | the check is exactly what the walk needs: no cycle is reachable iff for every choice of wanted inputs the walk ends within nb_filters hops |
| `UpstreamWalks.OneWalk` | fftools/ffmpeg_sched.c:1191-1214 | the path upstream from a source is determined |
| `StartPrepare.MuxStreamOrigin` | fftools/ffmpeg_sched.c:1447-1467 | src_sched of a muxer stream is the demuxer or filtergraph found by following sources upstream; an assertion fails iff the stream is encoded straight from a loopback decoder |
| `StartPrepare.FilterInputOrigin` | fftools/ffmpeg_sched.c:1487-1494 | the same for a filtergraph input through its decoder, loopback decoders included; the source is a decoder iff the loopback's encoder is itself fed by one |
| `StartPrepare.ResolveSources` | fftools/ffmpeg_sched.c:1381-1506 | for a connected plan: aborts iff a muxer stream trips the assertion, else leaves an input unscheduled iff one has a decoder as source, else gives every stream and input its origin; fails only for an unconnected plan |
| `StartPrepare.OriginsUnique` | fftools/ffmpeg_sched.c:1441-1506 | the assignment is the only one there is |
| `StartPrepare.OriginExactly` | fftools/ffmpeg_sched.c:1441-1506 | the possible origins case by case: the demuxer itself, the filtergraph or demuxer behind an encoder, the filtergraph behind a loopback decoder |
| `StartPrepare.Prepare` | fftools/ffmpeg_sched.c:1381-1514 | the four outcomes for every plan, exactly one of which fits a connected one: ready with an acyclic graph of origins, a cycle in the one graph the connections give, an assertion failed on a muxer stream, an unscheduled filtergraph input |
| `StartPrepare.LoopExample` | fftools/ffmpeg_sched.c:1449-1452 | a plan that trips the assertion: an encoder fed by another encoder's loopback decoder |
| `StartPrepare.OwnDecodersNeverLoop` | fftools/ffmpeg_mux_init.c:1392-1405 | an encoder connected to a decoder gets its own input stream's decoder, and then the assertion holds |
| `StartPrepare.PreparedAfterPrepare` | fftools/ffmpeg_sched.c:1381-1514 | what start_prepare leaves meets everything the scheduler's invariants start from |
| `StartPrepare.NewScheduler` | fftools/ffmpeg_sched.c:1516-1574 | a plan that passes becomes a scheduler whose choked flags follow the policy after its first update; the base case of every scheduling invariant |
| `StartPrepare.FallbackOpensStartedIff` | fftools/ffmpeg_sched.c:1260-1270 | with nothing eligible a started task may run iff one has not exited that comes before every demuxer without streams |
| `StartPrepare.SilentDemuxerExample` | fftools/ffmpeg_sched.c:1561-1570 | a state in which only a demuxer that was never started may run, while another one has not exited |
| `Scheduling.StreamHasOneTarget` | fftools/ffmpeg_sched.c:1191-1214 | for every wanted-input assignment, a muxer stream's source resolves to exactly one demuxer or self-scheduled filtergraph |
| `Scheduling.TargetIff` | fftools/ffmpeg_sched.c:1191-1214 | that one is the node at the end of the path that follows each filtergraph's wanted input to its source, up to a demuxer or a filtergraph that wants itself |
| `Scheduling.MayRunIff` | fftools/ffmpeg_sched.c:1216-1280 | the whole policy in terms of such paths: a source may run iff it is at the end of one from an eligible stream's source, or nothing is eligible and it is the first task that has not exited |
| `Scheduling.EligibleIff` | fftools/ffmpeg_sched.c:1226-1252 | some stream may proceed on its own account iff an unfinished stream has not reached INT64_MAX |
| `Scheduling.MostLaggingRuns` | fftools/ffmpeg_sched.c:1238-1258 | the source feeding a most-lagging unfinished stream may run |
| `Scheduling.EligibleIsClose` | fftools/ffmpeg_sched.c:1245-1252 | a stream let through has no timestamp yet or is less than 100000 us ahead of every unfinished stream |
| `Scheduling.EligibleIffClose` | fftools/ffmpeg_sched.c:1245-1252 | exactly the unfinished streams are let through that have no dts, or are less than 100000 us ahead of every unfinished stream, one of which has not reached INT64_MAX |
| `Scheduling.SomebodyRunsIff` | fftools/ffmpeg_sched.c:1238-1270 | some source may run iff a stream is eligible or some demuxer or filtergraph has not exited (a demuxer without streams never does) |
| `Scheduling.FallbackOpensOne` | fftools/ffmpeg_sched.c:1260-1270 | with no stream eligible exactly one source may run, the first task that has not exited |
| `Scheduling.TrailingIsUnique` | fftools/ffmpeg_sched.c:439-459 | the specification of the trailing dts determines it |
| `Scheduling.Scheduler.constructor` | fftools/ffmpeg_sched.c:573-602 | a new scheduler holds the state start_prepare leaves: no dts yet, every filtergraph wanting its first input, nothing choked; from there on Valid is kept |
| `Scheduling.AllRunAtFirst` | fftools/ffmpeg_sched.c:573-602 | in the initial state all streams are eligible and every filtergraph wants its first input, so exactly the ends of those paths may run |
| `Scheduling.Scheduler.TrailingDts` | fftools/ffmpeg_sched.c:439-459 | the least dts of the streams that count, none if one has none or none is below INT64_MAX |
| `Scheduling.Scheduler.UnchokeForStream` | fftools/ffmpeg_sched.c:1191-1214 | terminates and opens exactly the one source the given one resolves to |
| `Scheduling.Scheduler.ConsiderStream` | fftools/ffmpeg_sched.c:1243-1257 | after one stream, exactly the sources of the eligible streams so far are open |
| `Scheduling.Scheduler.ConsiderAll` | fftools/ffmpeg_sched.c:1238-1258 | after the loop, exactly the sources of all eligible streams are open, and the flag says whether there are any |
| `Scheduling.Scheduler.UnchokeFirstAlive` | fftools/ffmpeg_sched.c:1260-1270 | the fallback opens exactly the first task that has not exited, demuxers before filtergraphs |
| `Scheduling.Scheduler.EndRound` | fftools/ffmpeg_sched.c:1273-1278 | setting only the waiters whose decision changed makes every choked flag agree with the decision |
| `Scheduling.Scheduler.ScheduleUpdate` | fftools/ffmpeg_sched.c:1216-1280 | from any flags, every choked flag becomes the policy's pure function of dts, source_finished, best_input and task_exited; after a termination request nothing changes |
| `Scheduling.Scheduler.Start` | fftools/ffmpeg_sched.c:1572-1574 | the first update establishes the policy |
| `Scheduling.Scheduler.MuxSent` | fftools/ffmpeg_sched.c:1827-1839 | a packet's dts or EOF is recorded for its stream only, and the policy holds afterwards; a packet without dts leaves everything |
| `Scheduling.Scheduler.SourceFinished` | fftools/ffmpeg_sched.c:2013-2029 | finishing a muxer stream (by the receiver, or by a sync-queue EOF as at lines 1664-1682) keeps the policy |
| `Scheduling.Scheduler.MuxDone` | fftools/ffmpeg_sched.c:2057-2070 | a finished muxer finishes all its streams, no other, and keeps the policy |
| `Scheduling.Scheduler.DemuxDone` | fftools/ffmpeg_sched.c:1989-1995 | a demuxer's exit keeps the policy |
| `Scheduling.Scheduler.FilterDone` | fftools/ffmpeg_sched.c:2407-2413 | a filtergraph's exit keeps the policy |
| `Scheduling.Scheduler.FilterWants` | fftools/ffmpeg_sched.c:2326-2337 | a changed wanted input is recorded and keeps the policy |
| `Scheduling.Scheduler.RequestStop` | fftools/ffmpeg_sched.c:2491-2497 | after the termination request everything is choked |
| `PreMuxQueues.PreMuxQueue.MuxQueuePacket` | fftools/ffmpeg_sched.c:1750-1784 | refuses a packet exactly when the fifo is full, holds at least max_packets and would exceed the data threshold; otherwise appends it; a full fifo doubles, or once past the threshold grows to max_packets at most |
| `PreMuxQueues.PreMuxQueue.BufferingIsBounded` | fftools/ffmpeg_sched.c:1750-1784 | however long the muxer takes to start, beyond max_packets (or eight) half of what is queued fits the data threshold |
| `MuxStart.StepKeepsInv` | fftools/ffmpeg_sched.c:1051-1160 | every step of ready calls, sch_start, flushing, sending and receiving keeps the start invariant, whatever the callbacks answer |
| `MuxStart.HeaderWritten` | fftools/ffmpeg_sched.c:1085-1105 | counting a written header keeps the ready count equal to the number of headers; before the last one no thread runs if an SDP is wanted |
| `MuxStart.StartThreadInv` | fftools/ffmpeg_sched.c:1105-1116 | a thread is started only for a muxer that has its header and no thread yet |
| `MuxStart.FlushInv` | fftools/ffmpeg_sched.c:1059-1080 | flushing hands the pre-muxing fifo over in order, and mux_started is set only when every fifo of the muxer is empty |
| `MuxStart.SendInv` | fftools/ffmpeg_sched.c:1786-1825 | the two looks at mux_started and the normal path keep accepted packets in order |
| `MuxStart.StartProtocol` | fftools/ffmpeg_sched.c:1085-1160 | over every run: mux init at most once per muxer, its thread at most once, and with an SDP wanted no thread before every header is written |
| `MuxStart.StartKeepsOrder` | fftools/ffmpeg_sched.c:1750-1842 | over every run: accepted equals handed to the thread queue followed by the pre-muxing fifo, until the muxer is done with the stream; handed is always a prefix of accepted, and no packet follows an EOF |
| `MuxStartLaws.AcceptedIsWhatWasSent` | fftools/ffmpeg_sched.c:1786-1825 | over every run: accepted are, in order, exactly the items of the completed sends that were not refused room before the start nor turned away after it; nothing sent is dropped otherwise |
| `MuxStartLaws.InitEofIff` | fftools/ffmpeg_sched.c:1064-1073 | over every run: init_eof is set iff the flush met a packet of a stream the muxer was done with |
| `MuxStartLaws.ReadyCount` | fftools/ffmpeg_sched.c:1137-1160 | over every run: the ready count of a muxer is the number of ready reports for it |
| `MuxStartLaws.StartsWhenReady` | fftools/ffmpeg_sched.c:1085-1160 | if all callbacks succeed, after sch_start exactly the ready muxers are started, or with an SDP wanted all of them once all are ready, with thread, header and empty pre-muxing fifos |
| `MuxStartLaws.StartTurns` | fftools/ffmpeg_sched.c:1516-1535 | if all succeed, sch_start looks at every muxer in turn and is then done |
| `MuxStartLaws.FailedStartsNothing` | fftools/ffmpeg_sched.c:1085-1119 | a step in which a callback or a thread start fails starts no thread and writes no header that failed |
| `MuxStartLaws.FailedStartEnds` | fftools/ffmpeg_sched.c:1524-1535 | a failure while sch_start starts a muxer ends it |
| `MuxPipelines.NextKeepsInv` | fftools/ffmpeg_sched.c:1051-1081 | the start and the thread queue of a muxer, moving together, keep: handed over equals accepted by the queue, and a stream owing an EOF has been handed one |
| `MuxPipelines.ReceivedIsPrefix` | fftools/ffmpeg_sched.c:1051-1842 | over every joint run: the packets the muxer thread has received of a stream are the first ones send_to_mux accepted for it, in order |
| `MuxPipelines.EofAfterEverything` | fftools/ffmpeg_sched.c:1051-1842 | over every joint run: when the muxer thread is told a stream's EOF it has received every packet accepted for the stream, and the EOF was sent |
| `MuxPipelines.DirectSendInStep` | fftools/ffmpeg_sched.c:1815-1825 | a sender past mux_started with room in the queue hands its packet over in the step in which the queue takes it in |
| `MuxStarters.MuxStarter.MuxTaskStart` | fftools/ffmpeg_sched.c:1051-1057 | starts the next thread on the list; its precondition is task_start's assertion that none runs yet (lines 408-425), met at every call |
| `EndOfStream.Fanout.SendToDst` | fftools/ffmpeg_sched.c:1844-1878 | one destination: skip if closed, send, and close on end of input or EOF, reporting EOF exactly then |
| `EndOfStream.Fanout.SendRound` | fftools/ffmpeg_sched.c:1880-1910 | the loop over the destinations of a demuxer stream; by kind also that of a decoder (lines 2160-2198) and an encoder (lines 2265-2298) |
| `EndOfStream.ToDstClosesOnce` | fftools/ffmpeg_sched.c:2130-2158 | a destination is closed at most once, sees nothing afterwards, and EOF is reported iff it is closed |
| `EndOfStream.ClosedStaysClosed` | fftools/ffmpeg_sched.c:1844-1910 | over any run, a closed destination sees nothing more |
| `EndOfStream.RoundReportsEof` | fftools/ffmpeg_sched.c:1880-1910 | without other errors a call reports EOF exactly when all destinations are closed (an encoder never does), and a call without an item closes them all |
| `EndOfStream.OpenSawEverything` | fftools/ffmpeg_sched.c:1880-1910 | without other errors a destination still open has seen every item sent so far, once each and in order |
| `EndOfStream.ToDstExactly` | fftools/ffmpeg_sched.c:1844-1877 | one destination in one round: it is closed iff it was, is sent the end, or answers EOF; and what it is shown in each case |
| `EndOfStream.ClosedIff` | fftools/ffmpeg_sched.c:1844-1910 | over any run, errors included: a destination is closed iff some round that came to it sent it the end or had EOF from it |
| `FilterControl.ControlClosedByLast` | fftools/ffmpeg_sched.c:2113-2128 | in every interleaving of the closing threads the control stream is closed at most once, only after every input, and surely once all are done; the counter equals the inputs counted |
| `FilterControl.ClosedIffSaid` | fftools/ffmpeg_sched.c:2113-2128 | in every interleaving: an input is closed iff its thread has closed it, and counted iff its thread has counted it |
| `FilterControl.StepKeepsInv` | fftools/ffmpeg_sched.c:2113-2128 | each step of a closing thread keeps the count and the single right to close the control stream |
| `FilterControl.FilterInputs.SendFinish` | fftools/ffmpeg_sched.c:2119-2121 | the first close of an input tells the queue, later ones do nothing |
| `FilterControl.FilterInputs.FetchAdd` | fftools/ffmpeg_sched.c:2123-2125 | only a thread that finds all inputs closed is told to close the control stream |
| `FilterControl.FilterInputs.CloseControl` | fftools/ffmpeg_sched.c:2123-2125 | that close is the only one |
| `FrameRate.OutputFilter.ConvertRate` | fftools/ffmpeg_filter.c:2068-2135 | the decision for one frame: how often to emit, how often of these its predecessor, and where output continues |
| `FrameRate.OutputFilter.CountFrames` | fftools/ffmpeg_filter.c:2137-2167 | history, drop and duplication counters, the duplication cap, and the pending-drop flag |
| `FrameRate.OutputFilter.Emit` | fftools/ffmpeg_filter.c:2232-2290 | emits at successive timestamps, the first frames copies of the previous one if there is one, nothing in a flush without one; stops at the first frame the consumer refuses |
| `FrameRate.OutputFilter.FgOutputFrame` | fftools/ffmpeg_filter.c:2220-2300 | one frame through both performs exactly the Process step, or that step cut short if the consumer takes fewer frames |
| `FrameRate.OutputFilter.FgOutputFlush` | fftools/ffmpeg_filter.c:2220-2300 | the flush repeats the last frame by the median of the history, and counts and emits nothing unless some output of the filtergraph has emitted a frame |
| `FrameRate.DecisionInRange` | fftools/ffmpeg_filter.c:2068-2117 | for a frame of non-negative duration, 0 <= nb_frames_prev <= nb_frames |
| `FrameRate.StepBalance` | fftools/ffmpeg_filter.c:2143-2166 | a frame keeps in + dup = out + drop + pending, except that the cap right after an unrepeated dropped frame counts one frame twice |
| `FrameRate.FramesConserved` | fftools/ffmpeg_filter.c:2143-2166 | over any run in any mode, the balance is off by exactly the number of such frames; so it holds iff there is none |
| `FrameRate.FlushBalance` | fftools/ffmpeg_filter.c:2055-2166 | over a whole stream, flush included: the balance is off by exactly the frames counted twice, where the flush adds one iff a frame has been emitted and it repeats nothing with a drop pending, or exceeds the cap |
| `FrameRate.CfrDrift` | fftools/ffmpeg_filter.c:2068-2117 | CFR, no drop threshold, end times not decreasing, cap not hit: the input end stays within -2.1 and +0.5 of the next output timestamp |
| `FrameRate.OutputIncreases` | fftools/ffmpeg_filter.c:2082-2125 | CFR, VSCFR, VFR: output timestamps strictly increase for any input timestamps; in CFR and VSCFR they are consecutive |
| `FrameRate.CutKeepsOrder` | fftools/ffmpeg_filter.c:2232-2290 | a consumer that refuses a frame in mid-step leaves a beginning of the step's output, in order |
| `FrameRate.DropsAreLostFrames` | fftools/ffmpeg_filter.c:2143-2166 | without the cap the drop counter is the number of input frames never emitted, plus one exactly if the first frame's emissions were all charged to a predecessor it does not have and the next frame did not repeat it |
| `FrameRate.FirstFrameExample` | fftools/ffmpeg_filter.c:2112-2116 | that case exists: a first frame emitted twice and counted as dropped |
| `FrameRate.CapExample` | fftools/ffmpeg_filter.c:2150-2154 | the cap case exists: two frames lost, three counted |
| `FrameRate.FlushExample` | fftools/ffmpeg_filter.c:2055-2065 | the flush case exists: one frame lost, two counted |
| `FrameRate.SilentFlushExample` | fftools/ffmpeg_filter.c:2229-2230 | with nothing emitted the same flush counts nothing |
| `FrameRateLaws.VfrLands` | fftools/ffmpeg_filter.c:2118-2125 | VFR, frame by frame: left out, on the next output, or within half a frame of its own time, and in which case which |
| `FrameRateLaws.VfrDrift` | fftools/ffmpeg_filter.c:2118-2125 | VFR over any run: nothing is output more than 0.6 before its input time, nor 0.6 or more after its end |
| `FrameRateLaws.PassedThrough` | fftools/ffmpeg_filter.c:2126-2132 | passthrough and drop: every frame once, at its own time rounded |
| `FrameRateLaws.CfrOwnCopy` | fftools/ffmpeg_filter.c:2082-2117 | CFR: a frame first appears on the next output or later, no later than it starts and at most 1.1 earlier |
| `FrameRateLaws.ThresholdDrops` | fftools/ffmpeg_filter.c:2107-2110 | past the first output frame_drop_threshold leaves out exactly the frames that end less than it after the next output |
| `FrameRateLaws.VscfrStart` | fftools/ffmpeg_filter.c:2099-2105 | VSCFR: a first frame that starts half a frame late or more is put within half a frame of its own time, as often as its duration says; apart from that it is CFR |
| `FrameRateLaws.CapHolds` | fftools/ffmpeg_filter.c:2149-2155 | no step emits more than the cap but for a frame and a made-up one; up to the cap all that is asked for is emitted |
| `FrameRateLaws.HistoryIsLastThree` | fftools/ffmpeg_filter.c:2137-2141 | over any run the history is what the last three frames asked for |
| `FrameRateLaws.FlushRepeats` | fftools/ffmpeg_filter.c:2055-2066 | the flush repeats the last frame the median of those three times, from the next output on, unless nothing was emitted or the cap is exceeded |
| `MuxTimestamps.GuessIsMedian` | fftools/ffmpeg_mux.c:172-175 | the replacement expression is the median of pts, dts and last + 1, and nothing else is |
| `MuxTimestamps.GuessSurvivesWrapping` | fftools/ffmpeg_mux.c:172-175 | it is still the median if every addition wraps around at 64 bits |
| `MuxTimestamps.MuxStream.MuxFixupTs` | fftools/ffmpeg_mux.c:138-207 | performs exactly the Fixup step on the packet and last_mux_dts; on an error last_mux_dts stays |
| `MuxTimestamps.FixupRepairs` | fftools/ffmpeg_mux.c:166-201 | the repaired packet has dts <= pts and a dts not before what the last one allows; a packet is changed iff it was not so already, then by the median and the least lift; with no last dts the guess is the pts |
| `MuxTimestamps.LiftedExactly` | fftools/ffmpeg_mux.c:177-199 | the lift alone: audio, video and subtitle dts go to the last dts plus one, or to the last dts in non-strict formats, the pts no further than needed; other media stay |
| `MuxTimestamps.OtherOutcomes` | fftools/ffmpeg_mux.c:138-199 | timestamps dropped under VSYNC_DROP, left alone without timestamps, and an error with exit_on_error iff the dts, after the median, is too early |
| `MuxTimestamps.RunIsGood` | fftools/ffmpeg_mux.c:166-201 | over a run every packet comes out so, measured against the packet muxed before it |
| `MuxTimestamps.RunIsMonotonic` | fftools/ffmpeg_mux.c:177-201 | over any stretch of packets that have a dts the output dts grow by at least one per packet (do not fall in non-strict formats) |
| `MuxTimestamps.RunKeepsDts` | fftools/ffmpeg_mux.c:138-207 | over a run a packet lacks a dts in the output iff it lacks one in the input (or drops it under VSYNC_DROP) |
| `MuxTimestamps.MissingDtsForgets` | fftools/ffmpeg_mux.c:201 | in every run, right after a packet without dts a packet comes out with its own dts (its pts if that is earlier), whatever was muxed before |
| `MuxTimestamps.RunInOrderIff` | fftools/ffmpeg_mux.c:166-201 | the dts of a whole run are in order iff no packet right after a gap has an own dts too early for the latest dts before the gap |
| `MuxTimestamps.GapExample` | fftools/ffmpeg_mux.c:166-201 | it happens: a run whose dts falls from 10 to 5 across a packet without one |
| `MuxTimestamps.RunIsIdempotent` | fftools/ffmpeg_mux.c:166-201 | repairing a repaired stream changes nothing |
| `PktPosSort.CmpOrdersIff` | fftools/ffedit.c:440-460 | the comparator orders two different positions rightly iff their distance modulo 2^32 is below 2^31 |
| `PktPosSort.Sort` | fftools/ffedit_common.c:89-95 | sorting with this comparator permutes always, and ends with an arrangement the comparator accepts whenever it is a preorder on the elements |
| `PktPosSort.SortedIff` | fftools/ffedit_common.c:89-95 | every such sort of an array, whatever its order and ties, ends in order of position iff the comparator gets every two of its positions right |
| `PktPosSort.FitsAgrees` | fftools/ffedit_common.c:89-95 | it does if all positions lie within 2^31 |
| `PktPosSort.StaysInOrderIff` | fftools/ffedit.c:440-460 | every such sort leaves an array in file order as it is iff all pairs of positions are a distance apart, modulo 2^32, of more than 0 and less than 2^31 |
| `PktPosSort.FarApartMayFit` | fftools/ffedit.c:440-460 | positions 0 and 2^32 + 5 are such a pair, though far apart |
| `EditFile.JsonFile.AddPacket` | fftools/ffedit.c:343-357 | appends an object with the packet's position |
| `EditFile.JsonFile.MatchPacketAndFrame` | fftools/ffedit.c:359-384 | the backward search finds the last object with the position, or none |
| `EditFile.JsonFile.AddFrame` | fftools/ffedit.c:386-412 | fills that object, and fails iff there is none |
| `EditFile.JsonFile.CloseExport` | fftools/ffedit.c:497-501 | each stream's array ends up as some sort with the comparator may leave it |
| `EditFile.JsonFile.Get` | fftools/ffedit.c:414-438 | hands out the stream's next object and advances that stream only |
| `EditFile.AddFrames` | fftools/ffedit.c:958-985 | every frame the decoder returns goes to the object of its packet; gives up iff one has none |
| `EditFile.ExportPass` | fftools/ffedit.c:1101-1140 | an export pass leaves exactly what its events record in every stream, and gives up iff a frame turns up whose packet was never read |
| `EditFile.EventsAreGated` | fftools/ffedit.c:1114-1131 | the export sees, stream by stream, the packets the gate lets through, decoded frames notwithstanding |
| `EditFile.GatedSpelledOut` | fftools/ffedit.c:1101-1131 | the gate packet by packet: data and a decoder are what it asks for |
| `EditFile.EventsSpelledOut` | fftools/ffedit.c:1101-1140 | what an export sees packet by packet: the packet if it has data, then every frame its decoder returns, null packets included |
| `EditFile.ApplyPass` | fftools/ffedit.c:1101-1131 | the gated packets of an apply pass each get the object whose turn it is in their stream |
| `EditFile.ExportIsExpected` | fftools/ffedit.c:343-412 | an export holds one object per packet, in file order, each with what was decoded from it, or nothing if the codec skipped it |
| `EditFile.DecodeOrderIrrelevant` | fftools/ffedit.c:343-412 | two exports of the same packets and frames agree, however late or out of order the frames came |
| `EditFile.CloseKeepsOrder` | fftools/ffedit.c:462-501 | the closing sort, whatever its algorithm, is sure to change nothing iff all pairs of the stream's positions fit the comparator |
| `EditFile.ExportThenApply` | fftools/ffedit.c:343-460 | on apply every packet of a stream is sure to get exactly the object exported for its position, under any interleaving and any decode order, iff all pairs of the stream's positions fit the comparator |
| `EditFile.ExportAndApply` | fftools/ffedit.c:1080-1140 | the passes run one after the other: each packet of such a stream is given what was decoded from it, or nothing if the codec skipped it |
| `EditFile.LargeFileIsSwapped` | fftools/ffedit.c:440-460 | in a longer file it can fail: for two packets 2^31 + 1 bytes apart the sort must swap the objects |
| `EditQueue.JsonQueue.constructor` | fftools/ffedit_common.c:23-29 | the queue starts empty, its zeroed slots in order |
| `EditQueue.JsonQueue.AddFrame` | fftools/ffedit_common.c:97-135 | waits iff every slot is used, gives up iff aborted, and otherwise adds exactly this frame's element in the first unused slot and takes over its context; the array is in order again if the comparator gets every two of its positions right, stale ones included |
| `EditQueue.JsonQueue.Store` | fftools/ffedit_common.c:115-125 | filling a slot and sorting leaves what such a sort may make of the array with one element replaced |
| `EditQueue.JsonQueue.FirstWanted` | fftools/ffedit_common.c:153-157 | the search finds the first element with the position, for -1 one of least position while the positions suit the comparator, iff there is one |
| `EditQueue.JsonQueue.GetFrame` | fftools/ffedit_common.c:139-178 | waits iff no held element has the position asked for (any will do for -1); otherwise removes exactly one wanted element, of least position for -1, and passes its data and the sole ownership of its context on |
| `EditQueue.JsonQueue.Take` | fftools/ffedit_common.c:159-168 | the slot becomes unused and owns no context, and keeps its place in the order |
| `EditQueue.WantedIsHeld` | fftools/ffedit_common.c:153-170 | in a sorted array the first used slot holds a least element |
| `EditQueueRuns.AddInOrderIff` | fftools/ffedit_common.c:97-135 | after an add the slots are sure to be in order iff the comparator gets every two of the positions now in them right, stale ones included |
| `EditQueueRuns.SlotOrigin` | fftools/ffedit_common.c:97-178 | in every run a slot's position is that of some frame added, or the zero it started with |
| `EditQueueRuns.StaleIsBounded` | fftools/ffedit_common.c:97-178 | in every run, once eight frames beyond a position have been added since a frame at or before it was last held or added, no slot is at or before it any more |
| `EditQueueRuns.QueueInOrder` | fftools/ffedit_common.c:97-178 | in every run, however long: if at every turn what is held, the last eight frames added and what was held meanwhile lie less than 2^31 before any frame added so far, the slots are in order at every turn |
| `EditQueueRuns.LeastIsTaken` | fftools/ffedit_common.c:139-178 | in such a run a get with position -1 takes a held element of least position |
| `EditQueueRuns.ShortFile` | fftools/ffedit_common.c:97-178 | in particular while all positions are below 2^31 |
| `EditQueueRuns.StaleZeroExample` | fftools/ffedit_common.c:89-135 | a run of two adds and a get, positions two bytes apart around 2^31, in which a stale zero lets the later one be taken first |

## Left out

- Sync queues: sync_queue.c is not part of this model; an encoder behind one appears only through its source_finished update.
- Codecs, filters, demuxers, muxers, JSON text, scripting engines, hardware devices, file access, options, logging.
- Allocation failures: objects, packets and fifo space can always be had.
- Rescaling of timestamps (av_rescale_q and the like): timestamps arrive in the right time base.
- Floating point: frame-rate conversion is over reals, rounding to nearest with ties to even; the small nudge away from midpoints (fftools/ffmpeg_filter.c:2021-2025) is part of what arrives as `syncIpts`.
- Key-frame flags in frame-rate conversion (`dropped_keyframe`), and the audio path of fg_output_frame.
- The closing of an output after its consumer refused a frame, and the dummy frame of close_output.
- Scheduling.Scheduler.ScheduleUpdate: timestamps are unbounded integers in `last_dts - dts`, which the source computes in 64 bits.
- Scheduling.Scheduler.RequestStop: is one step; a schedule update that has already passed its terminate check while sch_stop runs is not modelled.
- SchWaiter's own lock and condition, and waiter_wait; the model has the choked flags.
- StartPrepare.Prepare: where a filtergraph input is left unscheduled the cycle check still runs; whether it or a later upstream walk meets that input, and fails its assertion (fftools/ffmpeg_sched.c:1310), is not modelled.
- ThreadQueues.ThreadQueue.constructor: capacity zero does not occur, as queue_alloc replaces it by a default.
- MuxStart.StartKeepsOrder: each stream has one sending thread, which sends nothing after the EOF (its own end-of-stream bookkeeping); a blocked tq_send is the step in which it completes.
- EndOfStream.Fanout.SendRound: failing to copy a reference to the packet or frame.
- sch_demux_send's flush after a seek, end-timestamp queues of decoders, and subtitle heartbeats (which appear as further senders on a decoder queue).
- sch_wait, sch_stop's joining of threads, and task exit codes.
- EditFile.ExportThenApply: at most one decoded frame per packet; a second one would reopen a JSON object already closed.
- EditFile.ApplyPass: the file applied must hold an object for every packet looked at; the source does not check.
- EditFile.ExportAndApply: writing the JSON text and reading it back are taken to lose nothing.
- EditQueue.JsonQueue.AddFrame: a turn under the mutex; waiting, waking, the abort flush (flush_ffedit_json_queue) and the poison element are not modelled, nor whether the pipeline as a whole can stall, which depends on codec delay.
- PreMuxQueues.PreMuxQueue.MuxQueuePacket: max_packets is taken as non-negative, and reading the queue back out belongs to the flush steps of MuxStart.
