# mrtc in Dafny

A model of the stateful cores of mrtc, a WebRTC stack in C, with proofs about
whole runs of them. `dafny verify dfyconfig.toml` checks everything.

Each core keeps the form of its source. Structures that are updated in place are
classes whose methods are proved against a specification on values; loops are
methods with invariants; protocols between threads or machines are systems of
atomic steps, and the theorems hold for every interleaving and every run.

| files | what they model |
|---|---|
| `SrtpReplay`, `SrtpStreams`, `SrtpIndex`, `SrtpContext`, `SrtpTracking`, `SrtpRun`, `SrtpOrder`, `SrtpEviction`, `SrtpKeystream` | SRTP packet indices: the two-word replay window, the table of eight streams, rollover counters on both sides, sender and receiver joined by a network that drops, repeats, reorders and fabricates, and the IVs |
| `U32Map` | the open-addressing hash map with tombstones |
| `TimerSched`, `TimerRuns` | the timer heap with lazy cancellation and generation handles |
| `TaskQueue`, `WorkerProtocol` | the worker's linked queue and its shutdown protocol |
| `Transport`, `TransportRoutes`, `TransportProgress` | routes and timers of transports, from creation to destruction |
| `Twcc`, `TwccReceiver`, `TwccParser`, `TwccSymbols` | transport-wide congestion control feedback: arrival window, builder, parser |
| `Nack`, `NackCodec` | NACK coalescing and parsing |
| `Rounding`, `RetransmitRing` | the retransmission ring and its power-of-two capacity |
| `Compound`, `RtcpPackets`, `RtcpReports` | compound RTCP, reports and key frame requests |
| `StunFormat`, `StunBuilder` | STUN attributes, MESSAGE-INTEGRITY and lookup |
| `Vp8`, `RtpExt`, `Rtp`, `RtpForeign`, `FramePipeline` | a video frame through fragments, RTP packets with extensions, and back |
| `DataChannel`, `DataChannelOpening` | two data channel managers joined by two links |
| `Rooms` | the signaling server's rooms and what each member is told |
| `Words`, `Bytes`, `Collections` | machine words bit by bit, big-endian numbers in byte sequences, counting |

## How the source is rendered

- Cipher, HMAC and CRC are not looked into. For SRTP the tag is ideal: it is
  the pair of everything it authenticates, and the network cannot make one. For
  STUN the HMAC is any function to 20 bytes and the CRC any function to 32 bits.
- Clocks, randomness, memory and socket outcomes are arguments. An argument
  named `memory`, `room`, `ok` or the like is the outcome of one allocation or
  call, and contracts say what happens either way.
- Integers are unbounded; 16-, 24-, 32- and 48-bit wrap-around is written out
  where the source relies on it. Arrival times are taken below 2^63, counters of
  bytes and LRU ticks as not overflowing, slot numbers as at most INT_MAX.
- 64-bit words are naturals and a shift by d is d shifts by one, each cut off at
  64 bits; `|=` of a bit known to be clear is written as addition.
- A step of `Transport` is one callback or marshalled operation on the worker
  thread. The closed flag is read once per step; a flag raised in the middle of
  a step shows as a timer that was not armed.
- Peers of the signaling server are identified with their ids, which are taken
  to be distinct, and every notice can be built and sent.

## Where the code and its comments differ

The model follows the code.

- The builder's comment says a large delta never falls inside a one-bit status
  vector (`rtc/src/rtc_twcc_receiver.c:168-171`). The test looks at the first
  status only. A received packet too far from the one before it, or any clock
  beyond 2^24 times 64 ms, is reported as lost as well. `TwccFormat.RoundTrip`
  gives the exact condition under which the feedback round trip holds;
  `TwccFormat.SmallThenLargeLost`, `FarApartLost` and `WrappedLost` are inputs
  for which it does not. The same file speaks of 64 microsecond ticks and uses
  250.
- Closing a transport is documented to leave nothing that touches it. That holds
  unless a control operation follows the teardown: restarting ICE, starting ICE
  and enabling feedback do not look at the closed flag
  (`Transports.ReopenedExactly`, `RestartAfterClose`). A destroy that finds the
  flag already raised frees at once, even if the teardown is still to come
  (`Transports.DestroyedTooEarly`). `Transports.StepKeeps` says that there is no
  third way.
- Rooms are stored under at most 63 bytes of their name but looked up by the
  whole name, so a room with a longer name is never found again
  (`Rooms.Server.Join`), peers that use one never meet (`Rooms.Server.JoinBoth`,
  `Rooms.FirstTwo`), and creating it can hide another room
  (`Rooms.CreateIndexed`).
- Both data channel managers number their channels 0, 2, 4 and so on, so their
  automatic ids collide (`DataChannels.AutomaticIdsCollide`), and creating an id
  again drops the channel that had it. `DataChannels.RecreateExactly` says when
  that keeps the ordering invariant on which delivery rests (some replacements
  that break the invariant would still lose nothing),
  `DataChannels.FirstChannelsCollide` is a run in which data is lost.
- A closed data channel is opened again by an OPEN that comes in late
  (`DataChannelOpening.LateOpenReopens`), and a channel whose OPEN was refused
  for want of memory waits for ever (`DataChannelOpening.StrandedChannel`).
- A delivery whose decryption fails after the replay window was marked can leave
  the rollover counter behind the window. `SrtpTracking.TrackingLost` and
  `SrtpOrder.StepTracks` say exactly when, `SrtpOrder.DecryptionFailed` is such
  a run.
- A context has room for eight SSRCs. A ninth makes it give up a stream with its
  window and counter: a packet can then be accepted twice
  (`SrtpEviction.NinthReplays`) and two packets sealed under one index
  (`SrtpEviction.NinthReseals`).
- An invoke after the worker was closed runs its function in the caller, possibly
  while the loop still runs another (`WorkerProtocol.OneAtATime`,
  `ClosedOverlap`).

## Model

| member | source | states |
|---|---|---|
| SrtpReplay.ReplayCheck | rtc/src/rtc_srtp.c:50-99 | accepts an index exactly if it is new: above the highest, or within 128 below it and not accepted before; afterwards the two words again represent exactly the accepted indices of the last 128 |
| SrtpReplay.Advance | rtc/src/rtc_srtp.c:59-79 | moving the window forward by any distance (1-63, 64-127, 128 and more) moves every bit by that distance and sets bit 0 |
| SrtpReplay.MarkedBits | rtc/src/rtc_srtp.c:81-98 | marking a late packet sets its bit and changes no other |
| SrtpStreams.StreamTable.FindSsrc | rtc/src/rtc_srtp.c:107-114 | finds the entry of a stream exactly if the table holds it, and changes nothing |
| SrtpStreams.StreamTable.EntryFor | rtc/src/rtc_srtp.c:120-145 | an access is an access to a least-recently-used map of at most eight streams: a known stream is kept, a new one starts empty, a full table gives up its oldest |
| SrtpStreams.HoldsAfterReplace | rtc/src/rtc_srtp.c:134-144 | reusing an unused or the oldest entry keeps table and map in agreement |
| SrtpContext.Context.Protect | rtc/src/rtc_srtp.c:595-674 | every packet that has room moves its own stream as `Sent` says, even when sealing then fails; the tag made covers the packet under that stream's rollover counter |
| SrtpContext.Context.Unprotect | rtc/src/rtc_srtp.c:676-773 | a packet whose tag does not match the estimate changes nothing; one that matches is accepted exactly if its index is new and decryption completes, for AES-CM and GCM |
| SrtpContext.Context.EstimateRoc | rtc/src/rtc_srtp.c:698-703 | the counter a packet is verified under, without touching the table |
| SrtpContext.Context.Finish | rtc/src/rtc_srtp.c:726-768 | what a verified packet does to its stream: window, last sequence number and counter |
| SrtpTracking.EstimateExact | rtc/src/rtc_srtp.c:698-703 | the estimate is the true counter exactly for indices of the same epoch at most 2^15 behind and of the next epoch less than 2^15 ahead |
| SrtpTracking.TrackingKept | rtc/src/rtc_srtp.c:726-768 | one packet of one stream: counter and last sequence number stay equal to the highest accepted index, which never decreases |
| SrtpTracking.TrackingLost | rtc/src/rtc_srtp.c:726-768 | a delivery that fails after the window was marked breaks this exactly for a new index beyond the highest |
| SrtpTracking.AcceptedExactly | rtc/src/rtc_srtp.c:698-768 | an intact packet is accepted under its true index exactly if that index is in reach and new |
| SrtpTracking.SenderAdvances | rtc/src/rtc_srtp.c:612-627 | the sender's index grows by exactly the distance its sequence number moves forward, across wraps |
| SrtpRun.NothingEvicted | rtc/src/rtc_srtp.c:120-145 | with at most eight SSRCs no stream is ever given up |
| SrtpRun.DeliverKeeps | rtc/src/rtc_srtp.c:676-773 | one delivery, of anything the network can make up, keeps authenticity and freedom from replays |
| SrtpRun.RunSafe | rtc/src/rtc_srtp.c:50-145 | over every run with at most eight SSRCs: each accepted packet carries the tag the sender made for the very index used, and no index of a stream is accepted twice |
| SrtpRun.RunUnique | rtc/src/rtc_rtp.c:150-173 | over every run of session-numbered packets, no two sealed packets share SSRC, counter and sequence number |
| SrtpOrder.StepTracks | rtc/src/rtc_srtp.c:676-773 | any event of sender, network and receiver keeps every counter of the receiver equal to the highest index its window has accepted, exactly unless it is an AES-CM delivery with a right tag, a failing cipher and a new index beyond the highest |
| SrtpOrder.RunTracks | rtc/src/rtc_srtp.c:676-773 | so over every run without such a delivery, with any number of SSRCs |
| SrtpOrder.RunHighest | rtc/src/rtc_srtp.c:758-768 | over every such run with at most eight SSRCs the highest index of a stream never decreases |
| SrtpOrder.DecryptionFailed | rtc/src/rtc_srtp.c:726-762 | a run of one packet sealed and delivered with a failing cipher after which counter and window disagree |
| SrtpOrder.DeliverExactly | rtc/src/rtc_srtp.c:676-773 | through table, estimate and tag: a genuine packet is accepted under the index it was sealed with exactly if that index is in reach and new |
| SrtpOrder.RunInTurn | rtc/src/rtc_srtp.c:676-773 | over every run with at most eight SSRCs whose streams are each delivered in order with gaps below 2^15, whatever the network makes up in between, exactly the genuine packets are accepted, each under its true index, across any number of wraps |
| SrtpOrder.InOrderAccepted | rtc/src/rtc_srtp.c:595-773 | packets numbered by their sessions, sealed, and delivered in order and without loss after any delay, among anything made up, are all accepted under the index they were sealed with, and nothing else is |
| SrtpEviction.NinthReplays | rtc/src/rtc_srtp.c:120-145 | a run with nine SSRCs in which one packet is accepted twice |
| SrtpEviction.NinthReseals | rtc/src/rtc_srtp.c:120-145 | a run with nine SSRCs, all packets numbered forward, in which two different packets are sealed under the same SSRC, counter and sequence number |
| SrtpKeystream.GcmIvInjective | rtc/src/rtc_srtp.c:336-351 | for a fixed salt the GCM IV determines SSRC, counter and sequence number |
| SrtpKeystream.CounterBlocksInjective | rtc/src/rtc_srtp.c:290-312 | AES-CM counter blocks of different packets never coincide |
| SrtpKeystream.CmIvLayout | rtc/src/rtc_srtp.c:290-312 | with the salt taken off again, the AES-CM IV is four zero bytes, the SSRC, the counter and the sequence number, in this order, and two zero bytes for the block number |
| SrtpKeystream.GcmIvLayout | rtc/src/rtc_srtp.c:336-351 | with the salt taken off again, the GCM IV is two zero bytes, the SSRC, the counter and the sequence number |
| SrtpKeystream.RunKeystreamUnique | rtc/src/rtc_srtp.c:290-351 | over every such run, two different sealed packets of the sender share no counter block and no GCM IV |
| U32Map.Map.FindSlot | common/src/rtc_u32_map.c:73-93 | ends, because an empty slot is left; finds the key's slot, or one where it can go without hiding another key |
| U32Map.Map.Rehash | common/src/rtc_u32_map.c:29-59 | keeps the contents and drops tombstones; without memory changes nothing |
| U32Map.Map.Set | common/src/rtc_u32_map.c:95-128 | the map with that key set; fails exactly when it would have to grow and cannot, and then changes nothing |
| U32Map.Map.Get | common/src/rtc_u32_map.c:130-136 | the value of the key in the mathematical map, NULL without one |
| U32Map.Map.Has | common/src/rtc_u32_map.c:138-144 | whether the mathematical map has the key |
| U32Map.Map.Remove | common/src/rtc_u32_map.c:146-163 | the map without that key, whether or not compaction finds memory |
| U32Map.Map.NextEntry | common/src/rtc_u32_map.c:187-201 | the next of the remaining entries, or none left |
| U32Map.ItemsExact | common/src/rtc_u32_map.c:187-201 | the entries an iteration meets are those of the map, each once |
| U32Map.Inserted | common/src/rtc_u32_map.c:112-127 | a new key keeps every key reachable from its home slot |
| U32Map.Removed | common/src/rtc_u32_map.c:146-157 | a tombstone keeps every other key reachable |
| TimerSched.SiftUp | rtc/src/rtc_timer_sched.c:36-44 | restores heap order after an insertion, same nodes |
| TimerSched.SiftDown | rtc/src/rtc_timer_sched.c:46-64 | restores heap order after a removal, same nodes |
| TimerSched.Pop | rtc/src/rtc_timer_sched.c:66-74 | takes the root and leaves a heap of the rest |
| TimerSched.RootIsMinimum | rtc/src/rtc_timer_sched.c:185-197 | no deadline in the heap is earlier than the root's |
| TimerSched.Sched.Add | rtc/src/rtc_timer_sched.c:145-171 | adds one pending timer with a non-zero handle; keeps the invariant exactly if no stale node has the same identity, and a handle is new for good while the slot's generation has not run out; without memory changes nothing |
| TimerSched.Sched.AllocSlot | rtc/src/rtc_timer_sched.c:113-121 | the first free slot or a new one |
| TimerSched.Sched.Cancel | rtc/src/rtc_timer_sched.c:173-183 | removes exactly the timer with that handle, for any 64-bit number |
| TimerSched.Sched.PruneStaleRoots | rtc/src/rtc_timer_sched.c:123-127 | leaves an active root and the same pending timers |
| TimerSched.Sched.NextTimeout | rtc/src/rtc_timer_sched.c:185-197 | the time to the earliest pending deadline, cut at INT_MAX, or the default |
| TimerSched.Sched.PopDue | rtc/src/rtc_timer_sched.c:209-226 | returns a pending timer of minimal deadline exactly if one is due, and removes it alone |
| TimerSched.Sched.PendingCount | rtc/src/rtc_timer_sched.c:228-237 | the number of pending timers |
| TimerSched.NewHandle | rtc/src/rtc_timer_sched.c:155-170 | a handle made from the next generation was never given out before |
| TimerRuns.Drive | rtc/src/rtc_timer_sched.c:145-226 | any sequence of fewer than 2^32 - 1 commands on a fresh scheduler is a run of the abstract pending set: an addition gives out the handle of a timer with the deadline and callback asked for, a cancellation takes that handle, a look at the clock takes a due timer of minimal deadline or finds none due |
| TimerRuns.DueTimersFire | rtc/src/rtc_timer_sched.c:209-226 | in every run, when a look at the clock finds nothing due, every timer added with a deadline up to then has fired or was cancelled |
| TimerRuns.FiresAtMostOnce | rtc/src/rtc_timer_sched.c:145-226 | in every run a timer that has fired or was cancelled never fires again, however often its slot is reused |
| TaskQueue.Queue.Enqueue | rtc/src/rtc_worker.c:71-78 | appends to the linked queue |
| TaskQueue.Queue.Dequeue | rtc/src/rtc_worker.c:80-88 | takes the first of the linked queue, or nothing |
| WorkerProtocol.InvKept | rtc/src/rtc_worker.c:92-158 | every step of invokers, posters, loop and closing thread keeps the protocol's invariant |
| WorkerProtocol.RunOnceInOrder | rtc/src/rtc_worker.c:92-111 | in every interleaving what was enqueued runs in order and at most once, and all of it by the time the loop has exited with an empty queue |
| WorkerProtocol.NoUseAfterReturn | rtc/src/rtc_worker.c:335-363 | whenever the loop is about to touch a stack-allocated item, its invoker is still waiting |
| WorkerProtocol.NobodyLeftWaiting | rtc/src/rtc_worker.c:113-158 | once the loop has exited no invoker waits for a flag that will not be set |
| WorkerProtocol.Finish | rtc/src/rtc_worker.c:233-251 | after close the loop's own steps run everything enqueued, release every waiting invoker and reach the exit |
| WorkerProtocol.Approaches | rtc/src/rtc_worker.c:113-158 | after close, whatever step any thread takes, the loop's bring its exit nearer, the others do not take it further away, and until then the loop can step |
| WorkerProtocol.LoopExits | rtc/src/rtc_worker.c:113-158 | in every interleaving the loop takes at most as many steps after close as it was away from its exit, and having taken them has exited with everything run |
| WorkerProtocol.EveryTaskRuns | rtc/src/rtc_worker.c:113-158 | in every interleaving, closed or not: once the loop has taken more than three steps for each task up to a given one that had not run yet, that task has run in its place, and its invoker, if it has one, no longer waits |
| WorkerProtocol.HandedOverRuns | rtc/src/rtc_worker.c:313-363 | what is posted or invoked before close runs within that many steps of the loop, in its turn; what is invoked after close is left to its caller |
| WorkerProtocol.LoopCanStep | rtc/src/rtc_worker.c:113-158 | only a close in progress holds the loop up, and that close can go on |
| WorkerProtocol.InvokedOnce | rtc/src/rtc_worker.c:335-363 | in every interleaving an invoke that has returned has had its function run exactly once, on the loop or in the caller |
| WorkerProtocol.OneAtATime | rtc/src/rtc_worker.c:350-354 | functions handed to the worker overlap only once it is closed, and then one of them runs in its caller |
| WorkerProtocol.ClosedOverlap | rtc/src/rtc_worker.c:350-354 | an interleaving in which they do |
| Transports.SendCheckKeeps | rtc/src/rtc_transport.c:177-203 | a new check replaces the transaction route and leaves no old one behind |
| Transports.OnPacketKeeps | rtc/src/rtc_transport.c:369-429 | a packet of any kind keeps routes and timers in agreement with the transport's fields and adds none for others |
| Transports.OnTimerKeeps | rtc/src/rtc_transport.c:217-259 | so does each timer callback |
| Transports.OperateKeeps | rtc/src/rtc_transport.c:507-640 | so does each control operation |
| Transports.EnableTwccKeeps | rtc/src/rtc_transport.c:915-941 | enabling feedback arms at most one timer, recorded in the transport |
| Transports.TeardownCleans | rtc/src/rtc_transport.c:687-715 | after the teardown no route and no timer names the transport, even if it shared keys with others |
| Transports.StepKeeps | rtc/src/rtc_transport.c:717-735 | a step keeps every route and timer on an existing transport that agrees with it, exactly unless it is a control operation that brings a route or timer back to a torn-down transport, or a destroy of one that is still named |
| Transports.DestroyExactly | rtc/src/rtc_transport.c:717-735 | freeing a transport leaves nothing dangling exactly if nothing named it |
| Transports.DestroyedTooEarly | rtc/src/rtc_transport.c:717-735 | create, another thread's raised flag, destroy: a route to freed memory stays |
| Transports.NoDangling | rtc/src/rtc_listener.c:841-870 | in every run of disciplined steps each route and each pending timer names a transport that exists, is not torn down, and whose current fields say the same |
| Transports.CarefulNoDangling | rtc/src/rtc_transport.c:717-735 | so in every run whose callers destroy a transport only after its teardown and do not restart, start or ask for feedback on one that is torn down |
| Transports.TouchedWhileOpen | rtc/src/rtc_listener.c:469-521 | in every such run from the start, every packet handled and every timer fired touches an existing transport that is not torn down |
| Transports.ReopenedExactly | rtc/src/rtc_transport.c:507-518 | a torn-down transport stays free of routes and timers through a step exactly if the step is not a restart, a start of ICE or an enabling of feedback that goes through |
| Transports.RestartAfterClose | rtc/src/rtc_transport.c:507-518 | restarting ICE after the teardown and then destroying leaves a route to nothing |
| Transports.ClosedReached | rtc/src/rtc_transport.c:717-727 | such a state is reached by creating and closing |
| TransportRoutes.RequestSelects | rtc/src/rtc_transport.c:400-408 | the first binding request selects its sender and routes that address to the transport; nothing else changes |
| TransportRoutes.ResponseSelects | rtc/src/rtc_transport.c:384-398 | so does the response to the check under way, which leaves no route for its transaction and no ICE timer |
| TransportRoutes.OthersLeave | rtc/src/rtc_transport.c:369-414 | no other STUN packet moves the address; a closed transport and a response to anything else change nothing |
| TransportRoutes.CheckWaits | rtc/src/rtc_transport.c:177-215 | a check that could be sent has its transaction routed in place of the one before and a timer pending |
| TransportRoutes.IceStarts | rtc/src/rtc_transport.c:526-620 | starting ICE after the remote parameters were set leaves a check that is waited for exactly if a remote candidate could be added, now or before |
| TransportProgress.ProgressReady | rtc/src/rtc_transport.c:261-300 | keys are there exactly if they were before or the handshake has just been completed and they could be exported; a failed export fails the handshake |
| TransportRoutes.TeardownTakes | rtc/src/rtc_transport.c:687-715 | the teardown takes the transport's own routes and no other, and its keys |
| TransportRoutes.StepRoutes | rtc/src/rtc_transport.c:369-640 | a step leaves every transport that is not torn down reachable under its fragment, its registered transaction and its selected address exactly unless a route could not be registered, there was no new fragment, or the key is another transport's |
| TransportRoutes.RunRoutes | rtc/src/rtc_listener.c:841-870 | so over runs: all are reachable all the time exactly if no step loses a route in one of these ways |
| TransportRoutes.StepArms | rtc/src/rtc_transport.c:205-259 | whatever happens, every timer handle a transport holds is that of a pending timer of its own |
| TransportRoutes.OpenIsReached | rtc/src/rtc_listener.c:469-521 | in every run from the start that loses no route, a packet for one of these keys comes to the transport that has it, and a timer of its handles fires on it |
| TransportRoutes.SharedFragment | rtc/src/rtc_listener.c:841-870 | two transports that draw the same fragment: the first can no longer be reached |
| TransportProgress.StepTicks | rtc/src/rtc_transport.c:205-259 | an open transport whose handshake is under way keeps its retransmission timer, and one that sends feedback its feedback timer, exactly unless a timer that was needed was refused |
| TransportProgress.RunTicks | rtc/src/rtc_transport.c:205-259 | so in every run in which none is refused such a timer is pending |
| TransportProgress.EffectsHaveCauses | rtc/src/rtc_transport.c:261-300 | in every run from the start: no transport has keys unless a handshake was completed with them, none sends feedback unless asked to, and no transaction is routed unless remote parameters and a remote candidate were given |
| TwccFormat.TimesAccurate | rtc/src/rtc_twcc_receiver.c:101-127 | every packet reported as received was received, less than a tick from the time reconstructed; the error does not accumulate |
| TwccFormat.SteadyReported | rtc/src/rtc_twcc_receiver.c:101-127 | packets at most about eight seconds apart are reported as received exactly if they were |
| TwccFormat.MarksReported | rtc/src/rtc_twcc_receiver.c:96-127 | the same for a window whose first arrival is below 2^24 times 64 ms |
| TwccFormat.ReportedExactly | rtc/src/rtc_twcc_receiver.c:101-127 | every packet is reported as received or not as it was, exactly if each received one is between 8.192249 s before and 8.191999 s after the reconstructed time of the one before it |
| TwccFormat.SeenExactly | rtc/src/rtc_twcc_receiver.c:150-184 | the status chunks keep every status exactly if no vector chunk spans a large delta |
| TwccFormat.RoundTrip | rtc/src/rtc_rtcp.c:610-693 | parsing the feedback built for a window gives back sender, media, base, counter, which packets were received, and arrival times within a tick, exactly if no vector chunk spans a large delta and every received packet is in that range |
| TwccFormat.SteadyRoundTrip | rtc/src/rtc_rtcp.c:610-693 | below 2^24 times 64 ms and with gaps of at most 8.1915 s only the vector chunks matter |
| TwccFormat.WrappedLost | rtc/src/rtc_twcc_receiver.c:96-99 | a window whose first arrival is at or beyond 2^24 times 64 ms never comes back |
| TwccFormat.FarApartLost | rtc/src/rtc_twcc_receiver.c:119-123 | two packets ten seconds apart do not come back, though no vector chunk spans a large delta |
| TwccFormat.SmallThenLargeLost | rtc/src/rtc_twcc_receiver.c:161-171 | two packets 100 ms apart do not come back |
| TwccFormat.FeedbackSize | rtc/src/rtc_twcc_receiver.c:74-221 | the feedback for any window is at most 1044 bytes |
| TwccReceiver.ChunkAt | rtc/src/rtc_twcc_receiver.c:157-182 | the next status chunk and how many statuses it covers |
| TwccReceiver.WriteChunks | rtc/src/rtc_twcc_receiver.c:150-184 | all chunks after what was written before, or failure exactly if they do not fit |
| TwccReceiver.WriteDeltas | rtc/src/rtc_twcc_receiver.c:186-199 | all deltas in one or two bytes each, or failure exactly if they do not fit |
| TwccReceiver.WritePadding | rtc/src/rtc_twcc_receiver.c:201-206 | zeros up to a multiple of four, or failure exactly if they do not fit |
| TwccReceiver.MarkAll | rtc/src/rtc_twcc_receiver.c:101-127 | the quantising loop computes `Marks` |
| TwccReceiver.Receiver.OnPacket | rtc/src/rtc_twcc_receiver.c:33-56 | records an arrival in the window, drops what is before the base, beyond the window or repeated |
| TwccReceiver.WindowExactly | rtc/src/rtc_twcc_receiver.c:33-56 | after any run of packets entry k is the first arrival of number base + k |
| TwccReceiver.Receiver.BuildFeedback | rtc/src/rtc_twcc_receiver.c:74-221 | succeeds exactly if something was received and the buffer has 32 bytes and room; then holds the packet for the window and empties the window, otherwise keeps it |
| TwccParser.AddChunk | rtc/src/rtc_rtcp.c:642-664 | one chunk of any of the three kinds adds the statuses it stands for, up to the count |
| TwccParser.ReadStatuses | rtc/src/rtc_rtcp.c:634-665 | the chunk loop computes `ReadChunks` and fails with it |
| TwccParser.ReadDeltas | rtc/src/rtc_rtcp.c:667-690 | the delta loop computes `ReadItems` and fails with it |
| TwccParser.ParseFeedback | rtc/src/rtc_rtcp.c:610-693 | the parser computes `Parse`, field by field, and fails with it |
| TwccSymbols.SymbolsAdd | rtc/src/rtc_rtcp.c:655-661 | a chunk of seven two-bit symbols adds these symbols, as many as are still wanted |
| TwccSymbols.SymbolsRead | rtc/src/rtc_rtcp.c:634-665 | any statuses written seven to a chunk in this form are read back, large deltas included |
| NackFormat.SortSorts | rtc/src/rtc_rtcp.c:438-443 | sorted, and the same numbers as often |
| NackFormat.Coalesced | rtc/src/rtc_rtcp.c:445-469 | for distinct numbers the entries list exactly what they account for, in order |
| NackFormat.ReachAll | rtc/src/rtc_rtcp.c:453-469 | all numbers are accounted for exactly if 64 entries are enough |
| NackFormat.CoalescedMembers | rtc/src/rtc_rtcp.c:445-469 | for any numbers, repeated or not, the entries list those they account for and no others |
| NackFormat.EntriesBuilt | rtc/src/rtc_rtcp.c:453-469 | the entries built are as many as the numbers need, cut off at the limit |
| NackFormat.Fewest | rtc/src/rtc_rtcp.c:445-469 | no set of entries that covers the numbers without wrapping is smaller than what is built; if one fits the limit all numbers are accounted for |
| NackFormat.RoundTrip | rtc/src/rtc_rtcp.c:433-526 | distinct lost numbers come back sorted: all of them exactly if 64 entries are enough, otherwise a sorted prefix |
| NackFormat.AnyRoundTrip | rtc/src/rtc_rtcp.c:433-526 | any lost numbers come back as a set if 64 entries are enough |
| NackCodec.TakeEntry | rtc/src/rtc_rtcp.c:455-468 | one packet id with the bitmask of the numbers after it |
| NackCodec.CoalesceAll | rtc/src/rtc_rtcp.c:453-469 | the coalescing loop computes `Coalesce` |
| NackCodec.BuildNack | rtc/src/rtc_rtcp.c:433-493 | the packet for the first 1088 numbers; fails exactly for an empty list or a short buffer |
| NackCodec.ParseNack | rtc/src/rtc_rtcp.c:495-526 | the parser computes `Parse` |
| Rounding.NextPow2Least | rtc/src/rtc_nack_buf.c:9-18 | the bit trick gives the least power of two that is at least the request and at least 2 |
| RetransmitRing.Ring.constructor | rtc/src/rtc_nack_buf.c:20-37 | an empty ring of that capacity |
| RetransmitRing.Ring.Store | rtc/src/rtc_nack_buf.c:46-60 | puts a packet of valid length in the slot of its number |
| RetransmitRing.Ring.Get | rtc/src/rtc_nack_buf.c:62-79 | the packet of that number, if the slot still has it |
| RetransmitRing.Ring.Retransmit | rtc/src/rtc_nack_buf.c:81-110 | hands a packet out and counts, up to ten times |
| RetransmitRing.PlaceOf | rtc/src/rtc_nack_buf.c:51-52 | consecutive packets land in consecutive slots across the wrap of the 16-bit number |
| RetransmitRing.StoreHolds | rtc/src/rtc_nack_buf.c:46-60 | one more consecutive packet keeps every slot holding the last packet that lands in it |
| RetransmitRing.FoundExactly | rtc/src/rtc_nack_buf.c:62-79 | a number is found exactly if it is one of the last min(capacity, 65536) packets', and that packet is returned |
| RetransmitRing.RunHolds | rtc/src/rtc_nack_buf.c:46-110 | after any run of stores and requests the ring holds exactly the last packets, byte for byte, none handed out more than ten times |
| RetransmitRing.Replay | rtc/src/rtc_nack_buf.c:46-110 | on an empty ring: after any stores under consecutive numbers and any requests a number is found exactly if it is among the last that fit, with the packet stored under it |
| RetransmitRing.Play | rtc/src/rtc_nack_buf.c:20-110 | the same from the creation of a ring on, for the capacity asked for |
| Compound.SideBySide | rtc/src/rtc_media_session.c:239-254 | on any bytes the slices handed on are complete packets side by side from the start |
| Compound.CompoundWalked | rtc/src/rtc_media_session.c:239-254 | walking any packets joined together hands on each one's exact bytes, once and in order |
| Compound.HandleRtcp | rtc/src/rtc_media_session.c:239-254 | the loop computes `Walk` |
| RtcpPackets.ReportIs | rtc/src/rtc_rtcp.c:137-313 | sender and receiver reports say their own length |
| RtcpPackets.FeedbackIs | rtc/src/rtc_rtcp.c:529-586 | so do PLI and FIR |
| RtcpPackets.NackIs | rtc/src/rtc_rtcp.c:471-492 | so does every NACK |
| RtcpPackets.TwccIs | rtc/src/rtc_twcc_receiver.c:201-213 | so does every congestion control feedback |
| RtcpReports.ReportParsed | rtc/src/rtc_rtcp.c:314-398 | every field of a report with up to 31 blocks comes back, of the losses the 24 bits that are sent, with their sign |
| RtcpReports.BuiltReportParsed | rtc/src/rtc_rtcp.c:137-398 | what the library builds comes back unchanged exactly if the losses fit 24 bits with a sign |
| RtcpReports.ParseReport | rtc/src/rtc_rtcp.c:314-398 | the parser with its loop over the blocks computes `Parse` and fails with it |
| RtcpReports.PliParsed | rtc/src/rtc_rtcp.c:528-561 | sender and media source come back from a picture loss indication |
| RtcpReports.FirParsed | rtc/src/rtc_rtcp.c:562-602 | sender, media source and number come back from a full intra request |
| StunFormat.SeekPast | rtc/src/rtc_stun.c:366-399 | the verifier's walk passes over attributes of other kinds |
| StunFormat.SealVerifies | rtc/src/rtc_stun.c:356-401 | the verifier lands on MESSAGE-INTEGRITY where the builder put it, feeds identical bytes to the HMAC, and so accepts exactly the keys with the same HMAC |
| StunFormat.SealedFinds | rtc/src/rtc_stun.c:618-638 | lookup returns the first value appended for each kind and nothing for other kinds |
| StunFormat.SealKeepsAttrs | rtc/src/rtc_stun.c:577-638 | the seal neither hides nor adds an attribute of another kind, with or without a key |
| StunFormat.SealedFingerprint | rtc/src/rtc_stun.c:594-610 | the CRC over everything before FINGERPRINT, with the final length in the header, is what FINGERPRINT holds XORed with 0x5354554E |
| StunBuilder.Append | rtc/src/rtc_stun.c:113-131 | one padded attribute after what was written before, or failure exactly if it does not fit |
| StunBuilder.Seal | rtc/src/rtc_stun.c:577-610 | MESSAGE-INTEGRITY, FINGERPRINT and the lengths each is computed under; fails exactly if they do not fit |
| StunBuilder.BuildBindingRequest | rtc/src/rtc_stun.c:133-224 | the sealed request with its attributes in order; fails exactly if it does not fit. In the buffer a reader finds the header of the transaction, the user name given or none, the priority exactly if positive, USE-CANDIDATE exactly if nominating, the tie-breaker exactly if positive, under ICE-CONTROLLING or ICE-CONTROLLED as the role says; the fingerprint is the one a reader computes over what is before it, and the message verifies with the password it was built with |
| StunBuilder.VerifyIntegrity | rtc/src/rtc_stun.c:356-401 | the verifier's loop computes `Verify` |
| StunBuilder.FindAttr | rtc/src/rtc_stun.c:618-638 | the lookup loop computes `Find` |
| Vp8.Packetize | media/src/vp8_packetizer.c:9-52 | the fragments of a frame; fails exactly for an empty frame or too few payloads |
| Vp8.Completed | media/src/vp8_packetizer.c:61-147 | from any state the fragments of a frame that fits complete that frame at the last one and nothing before |
| Vp8.LayoutSkipped | media/src/vp8_packetizer.c:71-101 | after a descriptor of any shape (extension, short or long picture id, TL0PICIDX, TID or KEYIDX) exactly what follows it is taken as data, and the start and non-reference flags are read |
| Vp8.LayoutCut | media/src/vp8_packetizer.c:68-101 | a payload that ends within its descriptor is refused |
| Vp8.AcceptTracks | media/src/vp8_packetizer.c:102-146 | while collecting, the buffer is the concatenation of what was heard since the last start, all with one timestamp |
| Vp8.Emitted | media/src/vp8_packetizer.c:61-147 | over any run, every frame that comes out is the concatenation of the well-formed payloads since the last start, all with its timestamp, only the last with the marker |
| Vp8.Depacketizer.Depacketize | media/src/vp8_packetizer.c:61-147 | the in-place depacketizer computes `Accept` |
| RtpExt.BodyParsed | rtc/src/rtc_rtp_ext.c:8-73 | what is written as a block's body parses to the same entries |
| RtpExt.WriteBlock | rtc/src/rtc_rtp_ext.c:8-44 | the block, or failure exactly if an entry cannot be carried or the block does not fit |
| RtpExt.ParseExts | rtc/src/rtc_rtp_ext.c:46-73 | the parsing loop computes `ParseBody` and fails with it |
| Rtp.PacketParsed | rtc/src/rtc_rtp.c:16-133 | header fields, extensions and payload come back from a built packet |
| Rtp.Build | rtc/src/rtc_rtp.c:16-75 | the packet; fails exactly for a payload or extensions that do not fit |
| RtpForeign.ForeignParsed | rtc/src/rtc_rtp.c:77-133 | a packet of any sender, with up to fifteen contributing sources, an extension of any profile and the padding flag: fields, extension body and what follows come back |
| FramePipeline.FrameDelivered | rtc/src/rtc_rtp.c:77-133 | for every frame that fits and any prior state of the receiver, the last packet completes the same frame with the same key flag, no earlier one completes anything, and every packet has its extensions |
| DataChannels.Framed | client/src/rtc_data_channel.c:44-79 | decoding an encoded message gives it back |
| DataChannels.FrameLayout | client/src/rtc_data_channel.c:44-79 | a frame is the id, the type from 1 to 4, a reserved zero, the length and the payload |
| DataChannels.SendKeeps | client/src/rtc_data_channel.c:85-105 | data is sent only behind a message that opens the other end |
| DataChannels.HandleKeeps | client/src/rtc_data_channel.c:275-381 | each received message keeps both directions of its channel in order |
| DataChannels.DataKeeps | client/src/rtc_data_channel.c:353-361 | data always finds an open channel and is handed over |
| DataChannels.ActKeeps | client/src/rtc_data_channel.c:206-273 | so does every other action that neither closes the channel nor creates its id again in a way that cannot work |
| DataChannels.Delivered | client/src/rtc_data_channel.c:85-105 | in every run, on an id neither closed nor wrongly created again, what each end has sent is what the other has received followed by what is under way; drained, the byte counters agree; a remote channel has its creator's label |
| DataChannelOpening.ConnectOpens | client/src/rtc_data_channel.c:256-273 | connecting sends exactly one OPEN with its label for each channel of this end that waits, and nothing for any other |
| DataChannelOpening.SendsExactly | client/src/rtc_data_channel.c:85-105 | a payload goes out, once and counted, exactly if the channel is open and its length fits 16 bits |
| DataChannelOpening.AutomaticIds | client/src/rtc_data_channel.c:206-247 | channels that ask for no id get even numbers one after the other, under their own labels |
| DataChannelOpening.ActPromises | client/src/rtc_data_channel.c:206-381 | whatever an end does to a channel short of closing it, a waiting channel of a connected end has an OPEN under way or an answer on its way back, exactly unless connecting does not meet it or the only OPEN is refused |
| DataChannelOpening.OpensAtBothEnds | client/src/rtc_data_channel.c:206-381 | in every run without that: a channel created at a connected end, on an id neither closed nor wrongly created again, is open at both ends once nothing is under way for it, with its creator's label at the end that did not create it |
| DataChannelOpening.StrandedChannel | client/src/rtc_data_channel.c:305-309 | a run in which the other end has no memory, nothing is under way any more and the channel still waits |
| DataChannelOpening.CloseReachesBoth | client/src/rtc_data_channel.c:113-128 | an open channel is closed with no OPEN for it coming in: in every run after that in which nobody opens it again the closing end hands nothing over any more, and once nothing is under way both ends are closed |
| DataChannelOpening.RunStaysShut | client/src/rtc_data_channel.c:353-375 | then neither end's channel changes any more, so nothing is handed over |
| DataChannelOpening.LateOpenReopens | client/src/rtc_data_channel.c:292-300 | an OPEN that comes late opens a closed channel again |
| DataChannels.RecreateExactly | client/src/rtc_data_channel.c:206-247 | creating an id that is in use keeps the ordering invariant of both directions exactly if nothing has gone through the channel it replaces, all it has under way is the same opening message, and the other end will still open the new one before it sends data |
| DataChannels.FirstChannelsCollide | client/src/rtc_data_channel.c:194-247 | a run from the start without a close in which each end creates one channel with an automatic id, and a byte sent is neither received nor under way |
| DataChannels.AutomaticIdsCollide | client/src/rtc_data_channel.c:194-204 | the first automatic id of one end is that of the first channel the other end opens |
| Rooms.Server.Broadcast | signaling/server/meeting.c:87-93 | a notice reaches each member but the excluded one, once |
| Rooms.Server.RemovePeer | signaling/server/meeting.c:67-77 | the member goes and the last one takes its place |
| Rooms.Server.MaybeDestroy | signaling/server/meeting.c:79-85 | an empty room becomes inactive and leaves the index |
| Rooms.Server.FindOrCreate | signaling/server/meeting.c:44-65 | the room of that name, or a new one in the first free place |
| Rooms.Server.Leave | signaling/server/meeting.c:147-162 | keeps the server consistent: members and rooms agree both ways, active rooms are non-empty, every member's view is the other members |
| Rooms.Server.Join | signaling/server/meeting.c:95-145 | keeps the server consistent; the peer is in the listed room of that name or alone in a new one, and the name leads to it exactly if it has fewer than 64 bytes; says why a join fails, after which the peer is in no room; keeps the name index exact for such names |
| Rooms.Server.JoinBoth | signaling/server/meeting.c:95-145 | two peers that join under one name, with every room listed before, share a room exactly if the name has fewer than 64 bytes; with a longer one the second is alone |
| Rooms.FirstTwo | signaling/server/meeting.c:95-145 | the first two peers of a new server are let in under any name and meet exactly if it has fewer than 64 bytes |
| Rooms.Server.Serve | signaling/server/meeting.c:95-169 | over any run of arrivals, joins, leaves and departures on a new server: each member's room has the name it asked for, as far as it is stored; if all names have fewer than 64 bytes, members are together exactly if they asked for the same name |
| Rooms.Server.Destroy | signaling/server/meeting.c:164-169 | keeps the server consistent without the peer |
| Rooms.JoinViews | signaling/server/meeting.c:119-144 | after a join every member's view, rebuilt from its own notices, is the other members |
| Rooms.LeaveViews | signaling/server/meeting.c:151-161 | the same after a leave |
| Rooms.CreateIndexed | signaling/server/meeting.c:48-65 | creating a room keeps every active room listed under its stored name exactly if no room is listed under that name yet |

## Left out

- SRTCP: its index counter, replay window and formats.
- Key derivation, AES, HMAC, GCM and DTLS: OpenSSL calls.
- Sockets, poller, TURN, candidate gathering, SDP, signaling JSON: system calls and libraries not modelled here.
- Bandwidth estimation, rate control, jitter buffer, codecs and the media pipeline.
- The string map, the vector, the interceptor chain and the RTP demultiplexer: the string map is taken as a mathematical map, the rest would only add easy members.
- Transports and DataChannels are step functions on values: that their fields are updated in place, and callbacks that re-enter the library from inside a handler, are not captured. A channel that was replaced but is still held by the application cannot be used in the model.
- DataChannelOpening.OpensAtBothEnds: one way only, since a stranded channel still opens if its end is told a second time that it is connected.
- RtcpPackets.ReportIs: reports are functions of their field values; the statistics behind the fields and the writes into the buffer are not modelled.
- RtcpPackets.FeedbackIs: PLI and FIR are functions of their field values; capacity tests and writes into the buffer are not modelled.
- Rounding.NextPow2Least: requests above 2^30 are not modelled, since rounding them up overflows the signed integer, which C leaves undefined.
- RetransmitRing.Ring.constructor: requests above 2^30 likewise.
- StunBuilder.VerifyIntegrity: a MESSAGE-INTEGRITY value cut off by the end of the data does not verify, where the source compares bytes past the end, whose contents the model does not have.
- StunBuilder.Append: values of 65533 bytes and more, whose rounded length wraps so that the source writes past the buffer, cannot be appended in the model.
- StunBuilder.BuildBindingRequest: user names of that length likewise.
- DataChannels.RecreateExactly: exact for the invariant, not for delivery itself; a replacement with an acknowledgement under way and an opening message on the way back breaks the invariant, though its data would arrive.
- NackFormat.Fewest: encodings with an entry that wraps around from 65535 to 0 are not compared.
- TimerSched.Sched.PopDue: the source's loop is one pass in the model, since pruning leaves an active root.
- TwccReceiver.Receiver.BuildFeedback: the branch for a window in which nothing was received is not there, since a window with a base always has its first packet.
- Data channel callbacks, buffered amounts and the closing of a manager.
- Routing a message between two members of a room.
