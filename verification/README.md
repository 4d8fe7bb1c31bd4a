# LiveForge core: a Dafny model

A model of the concurrent heart of a live-media server, with proofs about whole runs and about all inputs.
Every lock-protected body of the program is one atomic step; goroutines that release a lock in between are cut into
several steps that interleave with everything else. Where the program updates an object in place, the model is a class
whose methods are proved against functions on values, and the theorems are about those functions.

| files | what they model |
|---|---|
| `Frames`, `GopPolicy`, `GopCache`, `RingBuffer` | frames, cache bounds, the five parallel GOP arrays, the ring buffer |
| `StreamModel`, `StreamSafety`, `StreamTheorems`, `Stream` | a stream: publisher generations, frame writes, startup snapshots |
| `PcmPipeline`, `TranscodeLoop`, `TranscodeProducer`, `TranscodeReader` | the shared transcode producer: its sample buffer, its loop, its epochs and records, its filtered readers |
| `MapSums`, `EventBusModel`, `EventBusSafety`, `EventBusTheorems`, `EventBusRefusals`, `EventBus` | lifecycle event lanes, admission and runners |
| `ConfigTree`, `ConfigDiff`, `ConfigModel`, `ConfigSafety`, `ConfigTheorems`, `ConfigManager`, `ConfigCallbacks` | runtime configuration: diff and apply, loads against writes, history, callbacks |
| `FlattenedKeys`, `YamlSearch` | documents from flattened keys; search in cyclic YAML |
| `LossTracker` | RTP loss accounting (appendices A.1 and A.3 of RFC 3550) |
| `SubscriberLeases`, `MuxerLeases`, `TrackLeases`, `SimulcastLeases` | counted leases |
| `DvrNames`, `DvrIndex` | DVR file names and the segment index |
| `Options` | a value that may be missing |

## What is assumed

- Content hashes are modelled by the content they stand for, random revision strings by tokens never used before.
- Clocks, timers, measured bitrates, storage faults, parsed documents, validation results and the apply hook are inputs
  that may take any value at any time.
- Codecs, resamplers and muxers are opaque. What they emit is attributed to source frames they were given.
- Two frames written to a stream are two objects, as Go pointers are; payload sums and cursors do not exceed 64 bits.
- Parsed configurations have the shape of the program's configuration record: every field that is not of restart class
  is present in every document. The optional fields of that record (`tls`, `skip_tracker`) are all of restart class.
- The library's sorting functions return sorted permutations.

## Where a promise does not hold

Each comes with an input that fails and with the exact condition under which the promise holds.

- After `Close` the ring refuses writes but `WriteFrame` still fills the GOP cache, so a snapshot may replay frames that
  were never written (`ClosedSnapshotCanLie`). `SnapshotExactIff` gives the exact condition. While the ring is open it
  always holds, and after `Close` it holds as long as no media frame is written (`QuietCloseIsExact`).
- A start event reserves room for its stop only if no terminal dispatch of the same lane is still pending
  (`StopIsAdmittedIff`). A session that is started, stopped and started again before its dispatches ran can lose the
  second stop to new sessions of its own kind, with the same hooks throughout (`RestartCanLoseItsStop`). A client ID
  used once is safe (`FirstUseIsAdmitted`).
- Checking neighbours of the sorted flattened keys misses a collision when another key sorts between parent and child,
  which takes a character below the dot, such as `-` (`NeighbourCheckIff`, `HiddenCollision`). What was accepted is then
  exact if and only if no two keys collide at any distance (`AcceptedIsExactIff`).
- Removing a subscriber by protocol name when only leases are left makes the protocol count too small
  (`OverdrawnCountIsTooSmall`, `ExactIff`).
- The 64-bit segment number of a DVR session wraps, after which the index is out of order (`NearlyFullDisk`). The next
  `n` numbers are safe, over any sequence of sessions, if and only if the last of them does not pass the largest one
  (`RecordingIsOrderedIff`).

## Model

| member | source | states |
|---|---|---|
| GopPolicy.DtsSpanMillis | core/stream.go:841-849 | the saturating span is the true difference, capped at the largest 64-bit number, for all timestamps |
| GopPolicy.SaturationIsExact | core/stream.go:827-849 | comparing the saturated span with any limit gives the same answer as unbounded subtraction |
| GopPolicy.LongestIsUnique | core/stream.go:871-943 | at most one prefix is the longest that all bounds admit |
| GopPolicy.AdmittedFits | core/stream.go:811-849 | an admitted prefix meets the frame, byte and duration bounds, except that a lone keyframe may exceed the byte bound |
| GopCache.NarrowingPasses | core/stream.go:871-943 | the three successive narrowing passes compute exactly the longest keyframe-led prefix admitted by all bounds |
| GopCache.StartedIsBounded | core/stream.go:718-737 | starting a GOP leaves at most the configured number of GOPs, each within the bounds |
| GopCache.JoinedIsBounded | core/stream.go:777-825 | appending, or refusing to append, keeps every GOP within the bounds |
| GopCache.TrimmedIsBounded | core/stream.go:853-947 | after a trim under any new policy every GOP is within that policy |
| GopCache.GopArrays.StartGop | core/stream.go:718-737 | the five parallel arrays stay of equal length and exact while a GOP starts and old ones leave |
| GopCache.GopArrays.AppendFrame | core/stream.go:777-809 | a joining frame updates frames, bytes and DTS extremes together, or seals the GOP |
| GopCache.GopArrays.Trim | core/stream.go:853-947 | the in-place trim of the arrays equals cutting each GOP to its longest admitted prefix, and clears the seal |
| RingBuffer.ReadAt | pkg/util/ringbuffer.go:305-347 | a read returns the value logged at the position it consumes and counts exactly the positions skipped |
| RingBuffer.Ring.Write | pkg/util/ringbuffer.go:54-89 | a write appends to the log and keeps every retained slot, and does nothing once closed |
| RingBuffer.Ring.TryRead | pkg/util/ringbuffer.go:305-347 | the slot arithmetic refines reading from the log |
| RingBuffer.Ring.TryReadAgainstWriter | pkg/util/ringbuffer.go:305-347 | against a running writer the retry never returns a newer value for an older position |
| StreamSafety.InitialInv | core/stream.go:164-183 | a new stream satisfies the invariant |
| StreamSafety.ApplyInv | core/stream.go:289-475 | every step of every actor keeps the invariant: the cache is a subsequence of the log within its bounds, generations own disjoint intervals, epochs start at one and name one codec |
| StreamTheorems.OpenSnapshotIsExact | core/stream.go:980-1046 | in every reachable state with an open ring, the replay is the log from source to live cursor minus headers, keyframe-led and within the generation |
| StreamTheorems.SnapshotExactIff | core/stream.go:980-1046 | in every state the snapshot is exact if and only if all cached frames reached the ring or the ring is re-read |
| StreamTheorems.ClosedSnapshotCanLie | core/stream.go:630-638 | a keyframe written after close is replayed although it was never logged |
| StreamTheorems.NewStreamCanBeClosed | core/stream.go:567-603 | closing any new stream reaches such a state |
| StreamTheorems.QuietCloseIsExact | core/stream.go:567-603 | the snapshot stays exact after close under headers, reloads, resets and timers, as long as no media frame is written |
| StreamTheorems.ReplayThenLive | core/stream.go:950-1017 | replay followed by live reading is the log from the source cursor on, without gap or duplicate, whatever happens later |
| StreamTheorems.BoundariesAreFixedOnce | core/stream.go:462-475 | no later step moves a generation's start, owner or, once set, its end |
| StreamTheorems.GenerationsAreDisjoint | core/stream.go:289-475 | over every run, every generation but the last has ended, at or before the start of each later one, whether or not anything was written in it |
| StreamTheorems.AcceptedFramesStay | core/stream.go:640-656 | a frame accepted for a publisher is for ever the frame logged at its position, inside a generation of that publisher and no other |
| StreamTheorems.EpochsStartAtOne | core/stream.go:670-716 | over every run no logged audio frame carries epoch zero |
| StreamTheorems.ReplacedPublisherIsPowerless | core/stream.go:424-447 | a replaced publisher with a stable ID can never again write, act or remove its replacement |
| StreamTheorems.DestroyingIsFinal | core/stream.go:567-603 | destroying is absorbing and never holds an open generation |
| Stream.Stream.constructor | core/stream.go:164-183 | a new stream is the initial state |
| Stream.Stream.CloseGeneration | core/stream.go:462-475 | the end of the open generation becomes the write cursor, once |
| Stream.Stream.SetPublisher | core/stream.go:289-368 | the object refines the step that starts a generation, or refuses |
| Stream.Stream.RemovePublisher | core/stream.go:392-422 | the object refines the step that detaches the publisher |
| Stream.Stream.RemovePublisherIf | core/stream.go:380-390 | only the matching publisher is removed |
| Stream.Stream.Close | core/stream.go:567-603 | the object refines the closing step |
| Stream.Stream.NoPublisherTimeout | core/stream.go:392-422 | the timer destroys the stream only while it has no publisher |
| Stream.Stream.IdleTimeout | core/stream.go:1364-1391 | the timer destroys the stream only without publisher and subscribers |
| Stream.Stream.UpdatePolicy | core/stream.go:221-280 | a hot reload replaces the policy and trims the cache to it |
| Stream.Stream.WriteFrame | core/stream.go:670-750 | the object refines the write step: epoch stamp, cache, ring |
| Stream.Stream.WriteFrameForPublisher | core/stream.go:640-656 | only the active publisher's frame is written |
| Stream.Stream.RetainedReplay | core/stream.go:1019-1047 | the loop finds the oldest cached keyframe still in the ring and copies everything from there |
| Stream.Stream.StartupSnapshot | core/stream.go:980-1017 | the object takes the snapshot the theorems speak about |
| Stream.Stream.ResetVideo | core/simulcast.go:189-200 | waking a layer empties its GOP cache |
| PcmPipeline.SpanQueue.Append | core/transcode_manager.go:554-560 | samples with a valid origin are queued, others are not |
| PcmPipeline.SpanQueue.Consume | core/transcode_manager.go:562-585 | the first samples leave the queue and the result is the smallest interval covering their origins; too few give an invalid result |
| PcmPipeline.Pipeline.EncodePcm | core/transcode_manager.go:776-813 | everything that came in was submitted, dropped or is buffered, in order; each block is attributed to the hull of its own samples; less than a frame stays; nothing is dropped below the buffer bound |
| PcmPipeline.Pipeline.DropExcess | core/transcode_manager.go:799-805 | exactly the oldest whole sample frames beyond the bound are dropped, with their origins |
| PcmPipeline.Pipeline.Finalize | core/transcode_manager.go:708-735 | both queues end empty and nothing is truncated: all input is in the submitted or dropped blocks |
| PcmPipeline.CountsAddUp | core/transcode_manager.go:776-813 | samples in equal samples submitted plus dropped plus retained |
| PcmPipeline.HullIsUnique | pkg/audiocodec/codec.go:20-33 | the attribution of a block is determined by its origins |
| TranscodeLoop.StreamMoves | core/stream.go:462-475 | whatever the stream does, the write cursor only grows and a generation that ends does so at or after the cursor seen before |
| TranscodeLoop.OutputsStayInGeneration | core/transcode_manager.go:896-1010 | in every interleaving no output's span begins before the track's start or ends past its generation |
| TranscodeLoop.SnapshotTrackStaysInGeneration | core/transcode_manager.go:254-268 | a track started from a snapshot of the current generation, taken at any earlier time, never carries another generation's media |
| TranscodeLoop.CompletionIsTotal | core/transcode_manager.go:904-916 | completion means every position from start to end was consumed once and in order |
| TranscodeLoop.EarlyStopHasCause | core/transcode_manager.go:918-942 | a track stops early only when cancelled, closed or overwritten |
| TranscodeLoop.ReportedCursorIsExact | core/transcode_manager.go:412-421 | the published cursor is exactly the consumed prefix |
| TranscodeLoop.DrainCompletes | core/transcode_manager.go:896-942 | once its generation is over, in every run without a cancel and whatever the stream does, the track takes at most a known number of its own steps; it has stopped exactly when it has no step left, and then it is complete, or overwritten with the missing position gone from the ring |
| TranscodeLoop.DrainIsNeverStuck | core/transcode_manager.go:918-933 | until it has stopped some step of the loop is always possible without waiting |
| TranscodeLoop.Feed | core/transcode_manager.go:737-813 | what the sample buffer passes on for a frame is attributed to hulls of positions fed to the pipeline, as the loop's work step says |
| TranscodeLoop.Flush | core/transcode_manager.go:708-735 | so is what it passes on at the end |
| TranscodeReader.HeaderCache.Store | core/transcode_manager.go:82-99 | the in-place update equals the cache as a function of everything ever stored |
| TranscodeReader.CacheAfterIsOk | core/transcode_manager.go:82-99 | after any stores the cache holds at most eight records, one per epoch, each the newest ever stored for its epoch |
| TranscodeReader.HeaderCache.Lookup | core/transcode_manager.go:101-110 | what is found is a configuration record, the newest ever stored for the epoch; nothing is found exactly when the epoch is not cached |
| TranscodeReader.Bridge | core/transcode_manager.go:452-494 | beside a producer that goes on storing records, the loop delivers the outputs filtered with the answers of that cache, up to the first output without a valid span |
| TranscodeReader.ItemsAreOk | core/transcode_manager.go:101-110 | whatever is stored meanwhile, the cache only ever answers with a record of the epoch asked for |
| TranscodeReader.FilteredIsOk | core/transcode_manager.go:452-494 | deliveries are a subsequence above the floors plus records of permitted epochs, and nothing else is withheld |
| TranscodeReader.ConfiguredIff | core/transcode_manager.go:480-491 | for AAC the last record before a delivered audio frame is of its epoch if and only if the epoch is not zero or some record was delivered before |
| TranscodeProducer.ProduceOk | core/transcode_manager.go:857-1010 | from stamped frames no audio output has epoch zero, and a pipeline only emits once the record of its epoch is in the shared output |
| TranscodeProducer.SubscriberAudioIsConfigured | core/transcode_manager.go:452-494 | from every run of a stream through producer, cache and reader to the subscriber: the last record before each AAC audio frame is of that frame's epoch |
| EventBusSafety.EveryRunIsSafe | core/event_bus.go:275-382 | in every interleaving, with hooks that may change between any two emissions: at most one runner per lane, a runner wherever work waits, first-in first-out, bounded queues and lanes, exact pending count, idle channel closed exactly at zero |
| EventBusSafety.CompletionNeverPanics | core/event_bus.go:192-204 | whoever completes finds the count positive and the idle channel open |
| EventBusTheorems.FirstStopIsAdmitted | core/event_bus.go:258-357 | after an admitted start of a session with no terminal dispatch pending on its stop lanes, the first stop is admitted whatever load other lanes carry |
| EventBusRefusals.StopIsAdmittedIff | core/event_bus.go:258-380 | after an admitted start every continuation with the same hooks admits the first stop if and only if no terminal dispatch was pending on a lane the stop needs, for any number of lanes to a session |
| EventBusRefusals.RestartCanLoseItsStop | core/event_bus.go:376-380 | from an idle bus, for every set of hooks with a stop hook and room for two rounds: start, stop, an admitted restart, and a continuation of named sessions with the same hooks in which the second stop is refused |
| EventBusRefusals.WholeSessionFits | core/event_bus.go:323-327 | the room that `StopIsAdmittedIff` asks for is there whenever all lanes of the session are pending, as with one lane to a session |
| EventBusRefusals.FillLanes | core/event_bus.go:323-357 | new sessions can fill all 4096 lanes exactly, whatever number of lanes each takes |
| EventBusTheorems.FirstUseIsAdmitted | core/event_bus.go:227-357 | from an idle bus: after any run without this client ID, an admitted start guarantees its first stop against any load on other lanes |
| EventBus.EventBus.BeginAsync | core/event_bus.go:164-174 | the counter grows and the idle channel reopens from zero |
| EventBus.EventBus.TryBeginAsync | core/event_bus.go:176-190 | admission of untracked hooks within the bound |
| EventBus.EventBus.CompleteAsync | core/event_bus.go:192-199 | the counter falls and the idle channel closes at zero |
| EventBus.EventBus.CheckRoom | core/event_bus.go:300-327 | the loop over touched lanes decides admission exactly |
| EventBus.EventBus.EnqueueLifecycle | core/event_bus.go:275-357 | all or nothing: admitted work is queued everywhere, a refused emission changes nothing |
| EventBus.EventBus.LaneTop | core/event_bus.go:361-373 | a runner leaves and may close its lane, or takes the oldest dispatch |
| EventBus.EventBus.LaneDone | core/event_bus.go:375-376 | a finished dispatch is no longer pending |
| EventBus.EventBus.LaneMark | core/event_bus.go:376-380 | after a terminal dispatch the lane will close when empty |
| ConfigTree.NoDifferenceIsEqual | config/runtime/parser.go:160-190 | documents without differing paths are equal |
| ConfigTree.ApplyHotExact | config/runtime/parser.go:192-222 | applying changes alters exactly the listed hot paths and succeeds |
| ConfigTree.ApplyOrderIrrelevant | config/runtime/parser.go:204-216 | the order of the changes does not matter |
| ConfigTree.HotStep | config/runtime/parser.go:142-312 | applying the hot part of a difference leaves only restart-class differences and touches hot paths only |
| ConfigTree.SetLeaf | config/runtime/parser.go:243-257 | replacing a leaf changes that path and no other |
| ConfigDiff.SplitJoin | config/runtime/parser.go:208 | splitting a dotted path gives back the keys it was joined from |
| ConfigDiff.DiffMaps | config/runtime/parser.go:160-190 | the recursion lists every differing path exactly once, with its text and class, and nothing else |
| ConfigDiff.MapPathValue | config/runtime/parser.go:224-241 | the walk finds what stands at the path, or nothing |
| ConfigDiff.ApplyHotChanges | config/runtime/parser.go:192-222 | the loop over change texts equals applying the paths, including where it fails |
| ConfigSafety.EvictIsLongest | config/runtime/history.go:43-47 | eviction keeps the longest run of newest entries within both bounds |
| ConfigSafety.NewestIsKept | config/runtime/history.go:34-47 | an entry that fits on its own is never evicted by its own arrival |
| ConfigSafety.StepInv | config/runtime/manager.go:201-361 | every step keeps effective, desired, loaded and pending configurations related |
| ConfigTheorems.EffectiveFollowsDesired | config/runtime/manager.go:252-361 | over every run, without a pending write effective and desired differ exactly at the reported restart paths, all of restart class |
| ConfigTheorems.LoadSettlesWrite | config/runtime/manager.go:260-354 | a load that read the written configuration, and is not refused, clears the pending write and keeps it as desired |
| ConfigTheorems.EffectiveChangesAreHot | config/runtime/manager.go:295-316 | the effective configuration ever changes at hot paths only |
| ConfigTheorems.OneWritePerRevision | config/runtime/manager.go:438-470 | of the writes conditional on one revision at most one changes the document |
| ConfigTheorems.StaleLoadIsHarmless | config/runtime/manager.go:212-258 | a load that read before a write completed publishes nothing after it |
| ConfigTheorems.RevisionNamesDocument | config/runtime/history.go:28-72 | a revision names one document for ever, in the snapshot and in the history |
| ConfigTheorems.HistoryIsBounded | config/runtime/history.go:9-48 | the history never exceeds 32 entries or 16 MiB and is ordered |
| ConfigManager.Manager.constructor | config/runtime/manager.go:107-127 | a new manager, with or without bootstrap configuration |
| ConfigManager.Manager.Trim | config/runtime/history.go:43-47 | the loop keeps the byte count exact while it evicts |
| ConfigManager.Manager.Store | config/runtime/history.go:28-48 | the same document keeps its revision; another one gets a new one and is remembered |
| ConfigManager.Manager.WriteIfRevision | config/runtime/manager.go:438-474 | a conflicting or refused write changes nothing; another is pending and visible as desired |
| ConfigManager.Manager.FinishLoad | config/runtime/manager.go:252-361 | the critical section refines the step: stale, waiting, unchanged, rejected or replaced |
| ConfigManager.ServerNameIsFixed | config/runtime/parser.go:259-262 | the server name in effect never changes |
| ConfigCallbacks.NewestIsDelivered | config/runtime/manager.go:526-558 | sets are delivered in order and at most once, every set is delivered, dropped or waiting, and no wake-up is lost |
| FlattenedKeys.NeighbourCheckIff | config/runtime/source.go:73-87 | the neighbour check rejects exactly the duplicates and the parents with nothing sorting between them and their children |
| FlattenedKeys.NeighbourCheckIsComplete | config/runtime/source.go:73-87 | without characters below the dot the check finds every collision |
| FlattenedKeys.HiddenCollision | config/runtime/source.go:79-104 | three keys that collide, pass the check and lose a value |
| FlattenedKeys.CollideIsPrefix | config/runtime/source.go:84 | canonical keys collide exactly when one path is a prefix of the other |
| FlattenedKeys.BuildIsExact | config/runtime/source.go:88-104 | without collisions the tree holds each value at its own path and nothing else |
| FlattenedKeys.CollisionIsNeverExact | config/runtime/source.go:88-104 | no tree can hold both of two colliding values |
| FlattenedKeys.FromSorted | config/runtime/source.go:79-104 | the loops reject exactly the exposed collisions and oversized input, and build the tree of the rest; without characters below the dot that tree is exact |
| FlattenedKeys.AcceptedIsExactIff | config/runtime/source.go:57-104 | what passed the neighbour check is exact at every path if and only if no two keys collide, at whatever distance |
| FlattenedKeys.PlainKeysAreExact | config/runtime/source.go:57-104 | without characters below the dot, passing the check is enough |
| YamlSearch.DerefCorrect | config/loader.go:148-158 | following aliases ends on every graph and gives the node they lead to, or none for a cycle |
| YamlSearch.Dereference | config/loader.go:148-158 | the loop with its seen set computes this |
| YamlSearch.ClosedNeverReaches | config/loader.go:66-141 | negative results that are closed under the search edges reach no goal, even if recorded while an ancestor was active |
| YamlSearch.MappingContainsPath | config/loader.go:62-141 | on any cyclic alias and merge graph the memoised search ends and its answer is plain reachability |
| LossTracker.AdvanceIsExact | module/cluster/transport_rtp.go:66-98 | the 16-bit difference is the true one within half the number space |
| LossTracker.TrackerIsExact | module/cluster/transport_rtp.go:54-98 | for any arrivals within half the number space of the running maximum: expected spans first to highest, no number is counted twice, and each window bit says whether its number was counted |
| LossTracker.ReceivedIsBounded | module/cluster/transport_rtp.go:66-105 | for the same arrivals received exceeds expected by at most 63, and the ratio lies in [0,1) |
| LossTracker.SequenceLossTracker.Observe | module/cluster/transport_rtp.go:66-98 | the object refines the tracker |
| SubscriberLeases.SubscribersAreConserved | core/stream.go:1249-1339 | over every run the total is the sum of the protocol counts, and each generation's count is its outstanding leases; protocol counts are exact if nobody overdraws |
| SubscriberLeases.ExactIff | core/stream.go:1326-1339 | a step keeps the protocol counts exact if and only if it does not remove by name what only leases hold |
| SubscriberLeases.OverdrawnCountIsTooSmall | core/stream.go:1326-1339 | a lease is taken, the protocol is removed by name: the lease is out and nobody is counted |
| SubscriberLeases.StaleReleaseIsHarmless | core/stream.go:1301-1324 | over every run in which only other generations' leases are taken and given back, stale ones included, a generation's counts stay as they are and equal its outstanding leases |
| SubscriberLeases.ReleaseUndoesAcquire | core/stream.go:1277-1324 | giving back what was just taken restores all counts |
| SubscriberLeases.Subscribers.AddSubscriber | core/stream.go:1249-1275 | admission below the limit; a refusal changes nothing |
| SubscriberLeases.Subscribers.AddForGeneration | core/stream.go:1277-1299 | admission for the active generation only |
| SubscriberLeases.Subscribers.RemoveForGeneration | core/stream.go:1301-1324 | a release touches only its own generation's count |
| SubscriberLeases.Subscribers.RemoveSubscriber | core/stream.go:1326-1339 | removal by protocol name |
| MuxerLeases.MuxerManager.GetOrCreate | core/muxer_manager.go:97-127 | one live instance per format and generation; use counts equal outstanding leases; a replaced instance is closed |
| MuxerLeases.MuxerManager.Release | core/muxer_manager.go:129-145 | a release never removes or changes a replacement, and does nothing without a lease |
| TrackLeases.Tracks.Acquire | core/transcode_manager.go:322-378 | a current track's count is exactly its open leases |
| TrackLeases.Tracks.Release | core/transcode_manager.go:505-523 | a stale or repeated release changes no current track |
| TrackLeases.Tracks.Reset | core/transcode_manager.go:1012-1030 | the table empties; only tracks whose generation has not ended are cancelled |
| SimulcastLeases.Family.constructor | core/simulcast.go:66-90 | a family without subscribers satisfies the invariant: a layer's user count is the number of subscriptions seated on it, and each subscription has the bookings its stage calls for |
| SimulcastLeases.Family.Reserve | core/simulcast.go:140-155 | the parent's budget is reserved exactly when the layer is known and the parent admits |
| SimulcastLeases.Family.Test | core/simulcast.go:156-162 | a family that ended meanwhile turns the subscription back |
| SimulcastLeases.Family.Seat | core/simulcast.go:163-175 | the layer is entered, and woken by its first user, exactly when it admits; a refusal changes nothing |
| SimulcastLeases.Family.Quit | core/simulcast.go:178-181 | the layer loses one user |
| SimulcastLeases.Family.ReturnChild | core/simulcast.go:182 | the layer's booking is given back |
| SimulcastLeases.Family.ReturnParent | core/simulcast.go:183 | the parent's booking is given back, by a release or a failed acquisition |
| SimulcastLeases.Family.Interleave | core/simulcast.go:138-187 | any number of subscriptions in any interleaving of these steps, with the end of the generation and other users of the parent at any time, keep the invariant; once all are done no layer has users |
| SimulcastLeases.Family.Acquire | core/simulcast.go:138-187 | uninterrupted: success exactly when the family is open, the layer known and both budgets admit; it takes one lease on each and wakes the layer; a failure leaves both books, the layer and the other subscriptions as before; other layers are not touched |
| SimulcastLeases.Family.Release | core/simulcast.go:176-186 | uninterrupted: a subscription gives up exactly what it took, once |
| SimulcastLeases.Family.SubscribeAndLeave | core/simulcast.go:138-187 | subscribing and leaving restores both books and the user count, whatever else is open |
| SimulcastLeases.RetainedVideoIsRefused | core/simulcast.go:207-224 | video kept across a suspension is never accepted afterwards |
| DvrNames.ParseOfName | module/dvr/handler.go:244-263 | parsing undoes naming for every number from zero to the largest, and refuses the names of all others |
| DvrNames.NameOfParse | module/dvr/handler.go:244-263 | every accepted name is the name of its number |
| DvrNames.NamesAreDistinct | module/dvr/session.go:474 | different numbers, negative ones included, have different names |
| DvrIndex.CleanupKeepsOrder | module/dvr/segment_index.go:86-112 | cleanup keeps the order and exactly the young and the stuck segments |
| DvrIndex.SegmentIndex.Find | module/dvr/segment_index.go:55-67 | on an ordered index binary search finds a segment exactly when it is present |
| DvrIndex.SegmentIndex.CleanBefore | module/dvr/segment_index.go:86-112 | the loop splits the index into kept and removed, with exact failure and byte counts |
| DvrIndex.BuildRetained | module/dvr/session.go:748-780 | the loop with its seen set, and the sort, compute the scan |
| DvrIndex.ScanIsExact | module/dvr/session.go:748-780 | the scanned index is ordered and holds exactly the numbers named on disk; all are below the next number if and only if none is the largest |
| DvrIndex.RecordingIsOrderedIff | module/dvr/session.go:473-582 | from an ordered index, all ways to use or pass over n further numbers, with cleanup and hand-over to new sessions in between, keep the order if and only if the last of them does not pass the largest, counted from the next number or from zero if that is higher |
| DvrIndex.RecordingAfterScanIff | module/dvr/session.go:720-780 | after a scan of any directory, n further numbers are safe if and only if n is zero, or the largest number is not on disk and the last of them does not pass it |
| DvrIndex.NearlyFullDisk | module/dvr/session.go:580 | with only the last number but one on disk the first recording is in order and the second is not |
| DvrIndex.Session.TakeOver | module/dvr/module.go:319-329 | the session refines the recorder's hand-over: from the number after the last segment, with its wrap, or from zero on an emptied index |
| DvrIndex.Session.FromDisk | module/dvr/session.go:720-746 | for any directory the session starts as the scan of it |
| DvrIndex.Session.OpenSegment | module/dvr/session.go:473-521 | passes over exactly taken names, up to a free or an unreadable one; a segment is begun exactly when the name is free and nothing fails |
| DvrIndex.Session.CloseSegment | module/dvr/session.go:523-582 | refines the recorder: a good segment is indexed last under its number, a failed one only uses up its number, with its wrap |
| DvrIndex.Session.Clean | module/dvr/cleanup.go:40-81 | retention beside recording refines the recorder's cleanup and keeps the next number |

## Left out

- Stream: sequence headers, media info, statistics, bitrate measurement and startup readiness are not part of the state; a refusal by the bitrate limit is an input.
- Stream: subscribers live in a model of their own, and the idle timer is given the total it would see.
- GopCache: the running sums of the source are 64-bit; the model sums without bound.
- SimulcastLeases: the best layer is the parent itself and has no user count in the model, because the source never changes that count.
- TranscodeProducer: timestamps, payloads and the failure of codecs are inputs; a pipeline that is closed on a change of codec emits nothing.
- TranscodeLoop: the loop is a state machine on values rather than an object, and codec output is any output attributed to fed frames.
- TranscodeLoop.SnapshotTrackStaysInGeneration: the lower bound holds for snapshot-bound readers only, because other readers sample the write cursor before taking locks.
- PcmPipeline: closing a pipeline on a codec change discards its buffer; this is not modelled.
- EventBusTheorems.FirstUseIsAdmitted: the hooks of the client's own start and stop events are the same, because room is reserved for the stop hooks known at the start.
- EventBusRefusals.StopIsAdmittedIff: assumes that another session of the same kind fits once the pending lanes are closed. `WholeSessionFits` says when it does; on a bus more crowded than that only the half that `FirstStopIsAdmitted` states is proved.
- EventBus: the order of hooks with equal priority, panics inside hooks and `Drain` are not modelled.
- ConfigDiff: nested mappings are values, so updating a shared mapping in place is not modelled; `diffMaps` visits keys in any order.
- ConfigManager: YAML parsing, environment expansion and normalisation are inputs; status counters and key bindings are not modelled.
- FlattenedKeys: the whole-document keys, scalar parsing and the size of the marshalled result are not modelled.
- FlattenedKeys.FromSorted: takes the entries already sorted, because sorting is the library's.
- YamlSearch: whether a key is a merge key is part of the graph.
- LossTracker: the 64-bit counters do not overflow in the model.
- MuxerLeases: the start callback and the shared buffers are not modelled; a release names the format of its instance.
- DvrIndex.Session.OpenSegment: the directory holds fewer than 2 to the 64 files, so that some name is free.
- DvrIndex.SegmentIndex.Find: on an index out of order, which a wrapped number can give, only that what is found is there and has the number asked for.
- DvrIndex: orphaned partial files, durations and directory handling are not modelled.
- Network transports, signalling, HTTP handlers, authentication, local file storage and configuration source clients are not part of this model.
