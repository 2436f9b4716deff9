# Signal and image pipeline model

A Dafny model of the parts of the logic-analyzer repository whose behaviour is
hardest to see from one function: a streaming demultiplexer, a cancellable
worker protocol with its browser host, the reconstruction of colour images from
an interleaved CCD capture, a trace summary and a background scan.

`dafny verify dfyconfig.toml` checks everything. Code that works by updating
state is a class or a method with loops, tied by its postconditions to pure
specification functions; the theorems are about those functions and about whole
runs of them.

| module | what it holds |
|---|---|
| `Acquisition`, `AcquisitionTheorems` | `Demux` turns arbitrarily cut chunks of an interleaved bit stream into edges and packed blocks; what it produces depends only on the bits |
| `GraphWorker`, `GraphWorkerTheorems` | the bounded start/cancel/publish/take/fail protocol and what holds after every call sequence |
| `BrowserHost` | the pump, the inbound batches and the disconnect guard around that client, over every interleaving |
| `CcdGeometry`, `CcdSampling`, `CcdPreview` | lane layouts, overlaps, the affine sub-row sampler, the full-resolution decode and the preview planes |
| `CcdViewer`, `ViewerImage`, `ViewerDecode` | the viewer's report rules, its simpler sampler, its cached decode, and its agreement with the analyzer |
| `Chroma` | the reversible colour transform and the in-place chroma median |
| `Combinations`, `SpectralGroups`, `GroupSearch` | exhaustive enumeration of lane partitions and the best two of them |
| `Registration` | the shift searches over evidence tables |
| `Impulse` | the top-k impulse corrector |
| `MetalTrace` | the interval-union sweep, wall-time split and reference resolution |
| `SigrokCatalog` | the generation-tagged scan |
| `Common`, `Arithmetic`, `Sorting` | shared helpers |

Six promises hold only under a condition, and the model says which:

- Edge streams can be read back by time exactly when no change falls within one
  timestamp (`EdgeStreamRecoversSamples`). All captures of n samples can be
  exactly when the rate is at most 10^9 Hz and no product but possibly the last
  saturates (`TimeRecoversIff`); from the first saturated position on time
  stands still (`TimestampSaturates`).
- The analyzer takes lane 0's width for all lanes. All pixels read existing lane
  columns exactly when every lane has the last column of the area
  (`PixelsInsideIff`); thirteen words are a failing input (`ThirteenWords`). The
  viewer rounds the width down instead, and its guard against partial columns
  only covers the mode it starts in (examples/ccd_viewer.rs:1027), so its image
  can be narrower than the analyzer's (`ViewerDecode.SameArea`).
- The sub-row overlap of an empty image can be one row
  (`CcdGeometry.SubrowOverlapEmpty`); `SubrowOverlapExact` gives the exact
  condition. The loaders produce at least one row interval.
- Where the first of two interpolated words is missing, the viewer shows nothing
  while the analyzer treats it as zero and may still blend in the second;
  `ViewerAgreesWithAnalyzer` states when the two still coincide, and
  `ShortRowDiffers` is an input at which they do not.
- The scan generation is 64 bits wide; `FreshIffBounded` shows that stale
  reports are excluded for exactly the runs of at most 2^64 scans.
- A failed scan keeps showing what an older scan found (`FailedScanShowsOld`);
  `ShowsNewestIff` states exactly when what is shown is the newest scan's.

## Model

| member | source | states |
|---|---|---|
| `Acquisition.FlattenIndex` | crates/logic_analyzer_acquisition/src/driver.rs:536-541 | bit `i * channels + c` of the interleaved stream is sample `i` of channel `c` |
| `Acquisition.FeedAppends` | crates/logic_analyzer_acquisition/src/driver.rs:536-560 | feeding bits one at a time appends them to the stream, keeps every complete frame and leaves fewer than `channels` bits pending |
| `Acquisition.PackSnocPacks` | crates/logic_analyzer_acquisition/src/driver.rs:549-555 | setting one bit in place keeps the packed bytes equal to the samples, least significant bit first, in ceil(n/8) bytes with zero padding |
| `Acquisition.TilesUnpack` | crates/logic_analyzer_acquisition/src/driver.rs:561-573 | blocks that tile a channel unpack, concatenated, to exactly its samples |
| `Acquisition.ChannelSoundAfterPush` | crates/logic_analyzer_acquisition/src/driver.rs:561-573 | after a push each channel's blocks still tile all its samples; a push that completes no sample adds no block |
| `Acquisition.Demux.constructor` | crates/logic_analyzer_acquisition/src/driver.rs:480-494 | a fresh demultiplexer has consumed the empty stream and satisfies the invariant |
| `Acquisition.Demux.New` | crates/logic_analyzer_acquisition/src/driver.rs:480-494 | a zero sample rate is refused, every other rate gives a valid fresh demultiplexer |
| `Acquisition.Demux.EmitSample` | crates/logic_analyzer_acquisition/src/driver.rs:541-557 | one complete frame updates every channel's last value, edge log and packed bytes, and no other channel's |
| `Acquisition.Demux.EmitBlocks` | crates/logic_analyzer_acquisition/src/driver.rs:561-573 | each connected channel, and no other, receives one block with the shared start and count |
| `Acquisition.Demux.PushBit` | crates/logic_analyzer_acquisition/src/driver.rs:536-560 | one bit advances the stream split into frames and pending bits by that bit, with all reports up to date |
| `Acquisition.Demux.ConsumeBits` | crates/logic_analyzer_acquisition/src/driver.rs:536-560 | the bit loop advances the carry by exactly the chunk's bits; the sample counter never overflows |
| `Acquisition.Demux.Accept` | crates/logic_analyzer_acquisition/src/driver.rs:536-574 | an admissible chunk appends exactly its bits to the consumed stream and keeps the invariant |
| `Acquisition.Demux.Push` | crates/logic_analyzer_acquisition/src/driver.rs:496-574 | the refusal reason is the first failed check; a refused chunk changes nothing; an accepted one appends its bits and moves the expected position |
| `Acquisition.Demux.Finish` | crates/logic_analyzer_acquisition/src/driver.rs:576-582 | every connected edge stream that has a sample gets one closing sample at the end position, the others nothing |
| `Acquisition.Demux.Drain` | crates/logic_analyzer_acquisition/src/driver.rs:325-352 | the capture loop consumes exactly the bits, records exactly the raw chunks and stops with exactly the failure that the list of fetches determines |
| `Acquisition.Demux.Run` | crates/logic_analyzer_acquisition/src/driver.rs:315-361 | a whole capture ends with closed edge streams and sound blocks, or with the first failure and the invariant intact |
| `AcquisitionTheorems.CarryUnique` | crates/logic_analyzer_acquisition/src/driver.rs:470-477 | a stream determines its split into complete frames and pending bits |
| `AcquisitionTheorems.SamplesAreStreamBits` | crates/logic_analyzer_acquisition/src/driver.rs:536-560 | `position * channels + pending bits` is the number of bits consumed, and each sample is its own bit of the stream |
| `AcquisitionTheorems.BlocksUnpackToSamples` | crates/logic_analyzer_acquisition/src/driver.rs:561-573 | the blocks of a connected channel unpack to its samples, and all connected channels share starts and counts |
| `AcquisitionTheorems.ChunkingIndependence` | crates/logic_analyzer_acquisition/src/driver.rs:496-574 | two demultiplexers that consumed the same bits, however cut, have the same state and edge streams, and blocks that unpack to the same samples |
| `AcquisitionTheorems.EdgesAlternate` | crates/logic_analyzer_acquisition/src/driver.rs:541-548 | change positions start at the first sample, move strictly forward and alternate in value |
| `AcquisitionTheorems.EmittedEdgesOrdered` | crates/logic_analyzer_acquisition/src/driver.rs:541-548 | at any point of a run every connected channel's emitted edges open with its first sample at time zero, alternate in value and never go back in time |
| `AcquisitionTheorems.ClosedStreamOrdered` | crates/logic_analyzer_acquisition/src/driver.rs:576-582 | a finished stream alternates up to its closing sample, which repeats the last value at the end position, and its timestamps never decrease |
| `AcquisitionTheorems.HoldingRecovers` | crates/logic_analyzer_acquisition/src/driver.rs:541-548 | holding each edge's value until the next recovers every sample under any clock that never runs backwards and moves at every change |
| `AcquisitionTheorems.RecoversIff` | crates/logic_analyzer_acquisition/src/driver.rs:541-548 | and under no other such clock: recovery holds if and only if no change falls within one tick |
| `AcquisitionTheorems.ClosedRecoversIff` | crates/logic_analyzer_acquisition/src/driver.rs:576-582 | the closing sample leaves that condition as it is, also when it shares its timestamp with earlier samples |
| `AcquisitionTheorems.AllRecoverIff` | crates/logic_analyzer_acquisition/src/driver.rs:541-548 | all sample lists of length n are recoverable if and only if the clock moves at every position; a repeated tick has a list that is not |
| `AcquisitionTheorems.TimestampMonotone` | crates/logic_analyzer_acquisition/src/driver.rs:584-586 | timestamps never decrease, saturated or not, and stay in 64 bits |
| `AcquisitionTheorems.TimestampStrict` | crates/logic_analyzer_acquisition/src/driver.rs:584-586 | below saturation and at no more than 10^9 samples per second they strictly increase |
| `AcquisitionTheorems.TimestampCollides` | crates/logic_analyzer_acquisition/src/driver.rs:584-586 | at any faster rate the first two samples share a timestamp |
| `AcquisitionTheorems.TimestampSaturates` | crates/logic_analyzer_acquisition/src/driver.rs:584-586 | from the first saturated position on every timestamp is the same |
| `AcquisitionTheorems.TicksIff` | crates/logic_analyzer_acquisition/src/driver.rs:584-586 | the timestamps of n positions are distinct if and only if the rate is at most 10^9 and at most the last product saturates, while still reaching a later nanosecond |
| `AcquisitionTheorems.TimeRecoversIff` | crates/logic_analyzer_acquisition/src/driver.rs:541-586 | every capture of n samples can be read back by time if and only if that arithmetic condition on rate and n holds |
| `AcquisitionTheorems.SaturatedExample` | crates/logic_analyzer_acquisition/src/driver.rs:584-586 | at 100 MHz all samples from number 18446744074 on share one timestamp, so longer captures fail the condition |
| `AcquisitionTheorems.EdgeStreamRecoversSamples` | crates/logic_analyzer_acquisition/src/driver.rs:541-586 | for every run, of any length and rate, a connected channel's edge stream, open or closed, gives back every sample by time if and only if no change falls within one timestamp |
| `AcquisitionTheorems.GaplessChunksAccepted` | crates/logic_analyzer_acquisition/src/driver.rs:325-352 | every gapless list of chunks, of any sizes and bit offsets, is consumed completely and in order without failure |
| `AcquisitionTheorems.BitWeights` | crates/logic_analyzer_acquisition/src/driver.rs:170-180 | bit k of a byte is the one of weight 2^k |
| `AcquisitionTheorems.ChunkHoldsPacked` | crates/logic_analyzer_acquisition/src/driver.rs:170-180 | bytes that pack as much padding as the bit offset, then samples, make a chunk in bounds that holds exactly those samples |
| `AcquisitionTheorems.InBoundsIff` | crates/logic_analyzer_acquisition/src/driver.rs:502-510 | a span is in bounds if and only if its offset is inside a byte and every one of its bits is inside the data |
| `AcquisitionTheorems.RefusalReasons` | crates/logic_analyzer_acquisition/src/driver.rs:502-535 | each refusal reason is given if and only if its check is the first to fail; a chunk is taken if and only if all hold |
| `AcquisitionTheorems.EmptyChunksIgnored` | crates/logic_analyzer_acquisition/src/driver.rs:325-352 | dropping every empty chunk from the fetches changes neither bits, raw chunks nor failure |
| `AcquisitionTheorems.OpaqueChunksAside` | crates/logic_analyzer_acquisition/src/driver.rs:325-352 | opaque chunks add nothing to the stream and fail nothing |
| `AcquisitionTheorems.RawSeesArrivals` | crates/logic_analyzer_acquisition/src/driver.rs:325-352 | the raw port sees every nonempty chunk in order, up to and including a refused one |
| `AcquisitionTheorems.TimestampExact` | crates/logic_analyzer_acquisition/src/driver.rs:584-586 | below saturation a timestamp is the exact time rounded down to nanoseconds |
| `AcquisitionTheorems.BlockPeriods` | crates/logic_analyzer_acquisition/src/driver.rs:561-573 | every emitted block carries the sample period rounded down to nanoseconds |
| `AcquisitionTheorems.FinishedAlike` | crates/logic_analyzer_acquisition/src/driver.rs:315-361 | two finished captures of the same bits have the same position, pending bits and closed edge streams, and blocks that unpack to the same samples |
| `AcquisitionTheorems.Capture` | crates/logic_analyzer_acquisition/src/driver.rs:315-361 | a whole run over any gapless list of chunks finishes without failure, having consumed exactly the joined bits |
| `AcquisitionTheorems.CapturesAgree` | crates/logic_analyzer_acquisition/src/driver.rs:315-361 | whole runs over two gapless lists that join to the same bits end alike, whatever the cuts and bit offsets |
| `AcquisitionTheorems.CaptureFrames` | crates/logic_analyzer_acquisition/src/driver.rs:315-361 | frames of any number of channels, packed behind any bit offset, come out of the block and edge ports as the channels' own samples |
| `GraphWorker.GraphWorkerClient.New` | crates/logic_analyzer_graph_orchestration/src/worker_client.rs:36-48 | a zero bound is refused, any other gives an empty client |
| `GraphWorker.GraphWorkerClient.StartRun` | crates/logic_analyzer_graph_orchestration/src/worker_client.rs:56-90 | refuses when disconnected, full or out of sequence numbers, without any change; otherwise admits the next number and queues its start |
| `GraphWorker.GraphWorkerClient.CancelRun` | crates/logic_analyzer_graph_orchestration/src/worker_client.rs:93-104 | acknowledges exactly pending runs; a second cancellation queues nothing |
| `GraphWorker.GraphWorkerClient.DrainRequests` | crates/logic_analyzer_graph_orchestration/src/worker_client.rs:107-109 | hands out the whole outbound queue in order and empties it |
| `GraphWorker.GraphWorkerClient.ApplyEvents` | crates/logic_analyzer_graph_orchestration/src/worker_client.rs:128-135 | applies artifact events in order up to the first the receiver refuses |
| `GraphWorker.GraphWorkerClient.Publish` | crates/logic_analyzer_graph_orchestration/src/worker_client.rs:112-147 | one inbound message is rejected, dropped because its run is cancelled, or applied and queued; a terminal message ends its run |
| `GraphWorker.GraphWorkerClient.TakeUpdates` | crates/logic_analyzer_graph_orchestration/src/worker_client.rs:153-161 | removes one run's messages in order and leaves the others queued in order |
| `GraphWorker.GraphWorkerClient.FailAll` | crates/logic_analyzer_graph_orchestration/src/worker_client.rs:167-183 | clears pending, cancelled and outbound, and queues one failure per pending run |
| `GraphWorkerTheorems.StartKeeps` | crates/logic_analyzer_graph_orchestration/src/worker_client.rs:56-90 | starting keeps the whole protocol invariant |
| `GraphWorkerTheorems.CancelKeeps` | crates/logic_analyzer_graph_orchestration/src/worker_client.rs:93-104 | cancelling keeps it |
| `GraphWorkerTheorems.DrainKeeps` | crates/logic_analyzer_graph_orchestration/src/worker_client.rs:107-109 | draining keeps it |
| `GraphWorkerTheorems.ApplyKeeps` | crates/logic_analyzer_graph_orchestration/src/worker_client.rs:128-135 | applying events for a live run keeps it, touches only the log and, if complete, records every event in order |
| `GraphWorkerTheorems.DeliverKeeps` | crates/logic_analyzer_graph_orchestration/src/worker_client.rs:136-146 | queueing a message for a pending run keeps it, provided only a terminal one follows a cancellation |
| `GraphWorkerTheorems.PublishKeeps` | crates/logic_analyzer_graph_orchestration/src/worker_client.rs:112-147 | publishing any message, valid or not, keeps it |
| `GraphWorkerTheorems.TakeKeeps` | crates/logic_analyzer_graph_orchestration/src/worker_client.rs:153-161 | taking updates keeps it |
| `GraphWorkerTheorems.FailEachDelivers` | crates/logic_analyzer_graph_orchestration/src/worker_client.rs:167-183 | clearing first and then failing each run gives the same result as delivering one terminal failure to each run |
| `GraphWorkerTheorems.FailAllKeeps` | crates/logic_analyzer_graph_orchestration/src/worker_client.rs:167-183 | failing all runs keeps the invariant and leaves nothing pending |
| `GraphWorkerTheorems.RunInv` | crates/logic_analyzer_graph_orchestration/src/worker_client.rs:56-183 | the invariant holds after every sequence of calls |
| `GraphWorkerTheorems.RunGrows` | crates/logic_analyzer_graph_orchestration/src/worker_client.rs:56-183 | a longer call sequence extends the history of a shorter one |
| `GraphWorkerTheorems.TerminalIsLast` | crates/logic_analyzer_graph_orchestration/src/worker_client.rs:112-183 | over every call sequence a terminal message is the last update ever queued for its run, hence the only terminal one |
| `GraphWorkerTheorems.ArtifactsPrecedeTerminal` | crates/logic_analyzer_graph_orchestration/src/worker_client.rs:112-147 | all events of a queued artifact message were applied, contiguously and in order, before its run's terminal message was queued |
| `GraphWorkerTheorems.CancelledRunStaysSilent` | crates/logic_analyzer_graph_orchestration/src/worker_client.rs:93-147 | once a cancellation is acknowledged, no continuation queues a start, progress or artifact message for that run or applies an event of it |
| `GraphWorkerTheorems.RunGuarantees` | crates/logic_analyzer_graph_orchestration/src/worker_client.rs:56-183 | after every call sequence: pending within its bound, cancelled inside pending, `next_sequence` = pending + terminal messages, sequence numbers 1, 2, 3, ... without reuse, requests start-then-at-most-one-cancel, taken + waiting = queued, and a run has ended exactly when it was admitted and is no longer pending |
| `GraphWorkerTheorems.ApplyCompletesIff` | crates/logic_analyzer_graph_orchestration/src/worker_client.rs:128-135 | applying completes if and only if the receiver takes each event after all before it, and then exactly those events were applied |
| `GraphWorkerTheorems.PublishDelivers` | crates/logic_analyzer_graph_orchestration/src/worker_client.rs:112-147 | an admissible message is answered Ok, appended to its own run's queue and to no other, and ends the run if and only if it is terminal |
| `GraphWorkerTheorems.PublishWithholds` | crates/logic_analyzer_graph_orchestration/src/worker_client.rs:112-147 | any other message queues nothing: unknown runs are refused, silenced messages dropped, refused events reported |
| `GraphWorkerTheorems.StartAnswers` | crates/logic_analyzer_graph_orchestration/src/worker_client.rs:56-90 | a start succeeds if and only if no limit is reached; it gets the next unused number and its request waits last, with the caller's run; a refusal names the limit reached |
| `GraphWorkerTheorems.CancelAnswers` | crates/logic_analyzer_graph_orchestration/src/worker_client.rs:93-104 | a cancellation is acknowledged if and only if the run is pending, and adds one request the first time only |
| `GraphWorkerTheorems.TakeHandsOut` | crates/logic_analyzer_graph_orchestration/src/worker_client.rs:153-161 | a take hands out exactly what was queued for the run and not yet taken, and touches no other run |
| `GraphWorkerTheorems.FailAllAnswers` | crates/logic_analyzer_graph_orchestration/src/worker_client.rs:167-183 | each pending run gets exactly one transport failure appended, every other run nothing |
| `GraphWorkerTheorems.TerminalEndsRun` | crates/logic_analyzer_graph_orchestration/src/worker_client.rs:112-161 | after any calls, a finished, failed or cancelled message for a pending run ends it and frees its place, and the next take hands it out last |
| `BrowserHost.BrowserWorkerHost.DisconnectGraph` | crates/app_web/src/web_capture_worker.rs:736-773 | the guard flag lets only the first disconnect reach the graph client |
| `BrowserHost.BrowserWorkerHost.PostGraphRequests` | crates/app_web/src/web_capture_worker.rs:195-205 | posts drained requests in order until one fails, which disconnects |
| `BrowserHost.BrowserWorkerHost.Pump` | crates/app_web/src/web_capture_worker.rs:180-206 | a tick before readiness or after a disconnect does nothing; otherwise the capture loop may fail first and the graph loop still drains |
| `BrowserHost.BrowserWorkerHost.HandleGraphMessages` | crates/app_web/src/web_capture_worker.rs:322-343 | publishes a batch up to the first refused message, which disconnects |
| `BrowserHost.DisconnectKeeps` | crates/app_web/src/web_capture_worker.rs:736-773 | disconnecting establishes the host invariant and posts nothing |
| `BrowserHost.PostKeeps` | crates/app_web/src/web_capture_worker.rs:180-206 | posting keeps the invariant, and after a disconnect it posts nothing although it still drains |
| `BrowserHost.BatchKeeps` | crates/app_web/src/web_capture_worker.rs:322-343 | an inbound batch keeps the invariant, also when it stops half-way |
| `BrowserHost.HostRunInv` | crates/app_web/src/web_capture_worker.rs:154-343 | the host invariant holds for every interleaving of ticks, batches, failures and interface calls |
| `BrowserHost.FailAllOnce` | crates/app_web/src/web_capture_worker.rs:736-773 | `fail_all` reaches the graph client at most once, and exactly when the host is disconnected |
| `BrowserHost.DisconnectEndsEveryRun` | crates/app_web/src/web_capture_worker.rs:736-773 | after a disconnect every run ever started, posted, drained or still queued, has exactly one terminal message and it is the last |
| `BrowserHost.CaptureFailurePostsNothing` | crates/app_web/src/web_capture_worker.rs:180-206 | a tick whose capture loop fails first posts no graph request |
| `BrowserHost.LateBatchRejected` | crates/app_web/src/web_capture_worker.rs:322-343 | a batch that arrives after the disconnect changes nothing at all |
| `BrowserHost.NothingAfterDisconnect` | crates/app_web/src/web_capture_worker.rs:154-343 | in every continuation after a disconnect no request is posted, no message is queued and no run is admitted |
| `BrowserHost.PumpPosts` | crates/app_web/src/web_capture_worker.rs:180-206 | a ready tick posts everything that waits in order, or what posts before the failure that disconnects |
| `BrowserHost.PumpIdle` | crates/app_web/src/web_capture_worker.rs:181-183 | before readiness and after a disconnect a tick changes nothing |
| `BrowserHost.StartIsPosted` | crates/app_web/src/web_capture_worker.rs:195-205 | a run started on a ready host is posted by the next tick that can post, after what waited before it |
| `BrowserHost.BatchPublishes` | crates/app_web/src/web_capture_worker.rs:322-343 | a batch without errors is the publication of its messages one by one, and it disconnects if and only if one is answered by an error |
| `CcdGeometry.StrideCount` | examples/ccd_layout_analyzer.rs:134-157 | the ceiling count of a lane's strided positions is exact, for totals smaller than the lane index as well |
| `CcdGeometry.RawPositionLocates` | examples/ccd_layout_analyzer.rs:134-165 | for each axis, modulus, width and row count a lane cell maps to a raw cell from which it can be found again |
| `CcdGeometry.LocateIsPosition` | examples/ccd_layout_analyzer.rs:134-165 | every raw cell is the position of some lane cell; with the previous row, `raw_position` is a bijection |
| `CcdGeometry.EvenLanes` | examples/ccd_viewer.rs:1027 | with a word count divisible by twelve every lane has lane 0's dimensions |
| `CcdGeometry.WordsDisjoint` | examples/ccd_layout_analyzer.rs:175-187 | with sorted line starts, words read from distinct cells are disjoint byte pairs, each inside its own interval |
| `CcdGeometry.WordsReadBack` | examples/ccd_layout_analyzer.rs:175-187 | words written low byte first from the offset position of an interval are read back |
| `CcdGeometry.CommonOverlapExact` | examples/ccd_layout_analyzer.rs:3137-3155 | the overlap is exactly the set of positions for which every shifted position is inside |
| `CcdGeometry.SubrowEnds` | examples/ccd_layout_analyzer.rs:3322-3343 | the Euclidean start and end bounds hold for a row exactly when every offset fits in sub-row units |
| `CcdGeometry.SubrowOverlapPositive` | examples/ccd_layout_analyzer.rs:3322-3343 | for a nonempty image the overlap is exactly the set of rows at which every offset fits |
| `CcdGeometry.SubrowOverlapEmpty` | examples/ccd_layout_analyzer.rs:3322-3343 | for an empty image the function reports one row unless some offset is positive |
| `CcdGeometry.SubrowOverlapExact` | examples/ccd_layout_analyzer.rs:3322-3343 | the overlap is exact for all rows if and only if the offset list is nonempty and either the image is nonempty or some offset is positive, or both list and image are empty |
| `CcdSampling.Interpolate` | examples/ccd_layout_analyzer.rs:3318-3320 | an interpolated value lies between its two samples and fits in 16 bits |
| `CcdSampling.InterpolationNearest` | examples/ccd_layout_analyzer.rs:3318-3320 | it is within half a unit of the mean that gives the second sample the fraction's share |
| `CcdSampling.RowUnitsBlend` | examples/ccd_layout_analyzer.rs:3851-3855 | the skewed row position is the weighted blend of the two skew end positions |
| `CcdSampling.RowPosition` | examples/ccd_layout_analyzer.rs:3851-3855 | the skew is spread over width - 1 steps: the row position in exact terms, with the last column at offset plus skew |
| `CcdSampling.SampleBlends` | examples/ccd_layout_analyzer.rs:3858-3866 | between two present rows the sample is nearest to their mean, weighted by how far the position has moved from the first |
| `CcdSampling.SamplerInside` | examples/ccd_layout_analyzer.rs:3250-3311 | if both skew ends fit at a row, every column of any width reads a row inside the image, and interpolation has a next row |
| `CcdSampling.RenderedIsSampled` | examples/ccd_layout_analyzer.rs:3285-3305 | the sampler inlined in the plane renderer and the separate one give the same word |
| `CcdSampling.PixelReads` | examples/ccd_layout_analyzer.rs:3759-3837 | for every word count a pixel of the image area reads existing rows and no negative column; it reads existing cells exactly when its own lane has the column |
| `CcdSampling.PixelReadsInside` | examples/ccd_layout_analyzer.rs:3759-3837 | if every lane has the area's last column, every pixel reads existing lane cells only, for any skews, offsets and column offsets |
| `CcdSampling.PixelsInsideIff` | examples/ccd_layout_analyzer.rs:3759-3837 | on a nonempty area, all pixels of all groups read existing cells if and only if every lane has the area's last column |
| `CcdSampling.WholeColumnsInside` | examples/ccd_layout_analyzer.rs:3770-3778 | whole twelve-word columns suffice for that, and without column shifts they are necessary |
| `CcdSampling.ThirteenWords` | examples/ccd_layout_analyzer.rs:3770-3778 | with thirteen words lane 0 has two columns and lane 1 one, and a pixel of the decode reads past its lane |
| `CcdSampling.DecodeFullResolution` | examples/ccd_layout_analyzer.rs:3759-3837 | for every word count the decode is refused exactly when the lanes share no area; otherwise every pixel of the full area is its specified sample |
| `CcdSampling.PixelShowsWords` | examples/ccd_layout_analyzer.rs:3796-3821 | for lanes shifted by whole rows, colour i of a pixel is the word of lane g + 3t of its column, calibrated for that lane and column, where g is the group assigned to i |
| `CcdPreview.ProportionalMidpoint` | examples/ccd_layout_analyzer.rs:2671-2677 | the picked index is where the sample's midpoint falls, so the final clamp never takes effect |
| `CcdPreview.ProportionalMonotone` | examples/ccd_layout_analyzer.rs:2671-2677 | later samples never pick earlier sources |
| `CcdPreview.ProportionalIdentity` | examples/ccd_layout_analyzer.rs:2671-2677 | with as many samples as sources each picks its own |
| `CcdPreview.ProportionalCovers` | examples/ccd_layout_analyzer.rs:2671-2677 | with at least as many samples as sources none is skipped |
| `CcdPreview.PreviewReadsInside` | examples/ccd_layout_analyzer.rs:3275-3299 | for every preview size the picked row and column lie in the image area, and they read existing cells under the same condition as the decode |
| `CcdPreview.NativePreview` | examples/ccd_layout_analyzer.rs:3250-3311 | a preview of the image's own size is the full-resolution decode |
| `CcdPreview.PreviewIsDecoded` | examples/ccd_layout_analyzer.rs:3275-3305 | on a common image area each preview word is the full-resolution word at the picked row and column |
| `CcdPreview.PreviewRowsBelowTop` | examples/ccd_layout_analyzer.rs:3262-3291 | for registrations with no common area as well, no read is above the image unless an offset exceeds the image height |
| `CcdSampling.RowAboveIsAbsent` | examples/ccd_layout_analyzer.rs:3290-3292 | a negative row, converted to an unsigned index, is past every row and reads as absent |
| `CcdPreview.RenderPlanes` | examples/ccd_layout_analyzer.rs:3250-3311 | for every registration, with a common area or not, each plane has the requested size and its word at each position is the inlined sampler's at the picked pixel |
| `CcdViewer.CheckAssignment` | examples/ccd_viewer.rs:604-618 | accepts exactly three distinct groups in range |
| `CcdViewer.GroupOffsets` | examples/ccd_viewer.rs:656-667 | succeeds exactly when all lanes of each group agree, and then returns every lane's offset; a failure names a group that is split |
| `CcdViewer.LoadGeometry` | examples/ccd_viewer.rs:561-674 | accepts exactly the representable reports; a refusal names a rule the report breaks; accepted sub-row offsets equal the group offset for all twelve lanes |
| `CcdViewer.AcceptableIff` | examples/ccd_viewer.rs:569-668 | a report is acceptable if and only if it breaks none of the rules a refusal can name |
| `CcdViewer.CalibrationKeepsOrder` | examples/ccd_viewer.rs:831-845 | calibration never inverts two values, and with a usable span maps the references to the two ends of the range |
| `CcdViewer.CalibrationExact` | examples/ccd_viewer.rs:831-845 | calibration is linear between the references, rounded down, clamped outside them, and off for narrow spans |
| `CcdViewer.ChannelWordMeans` | examples/ccd_viewer.rs:784-829 | on a whole row a channel shows its lane's own calibrated word, between rows the nearest blend of two |
| `CcdViewer.InterpolateScales` | examples/ccd_viewer.rs:784-825 | scaling fraction and scale by any width factor leaves the rounded blend unchanged |
| `CcdViewer.UnskewedRow` | examples/ccd_viewer.rs:784-825 | without skew the affine row position has the quarter-row position's row and a scaled fraction |
| `CcdViewer.ViewerAgreesWithAnalyzer` | examples/ccd_viewer.rs:784-829 | at every width the viewer shows a word exactly when the first source word is present, and it is then the analyzer's sample; when it is absent the analyzer's sample is zero under an exact condition |
| `CcdViewer.ShortRowDiffers` | examples/ccd_viewer.rs:784-825 | a capture whose first row is too short for a word that its second row has: the viewer shows nothing and the analyzer's sample is not zero |
| `CcdViewer.LanePosition` | examples/ccd_viewer.rs:827-829 | the viewer's word index is the analyzer's raw position of the same lane cell |
| `CcdViewer.AcceptedReportsAgree` | examples/ccd_viewer.rs:619-668 | for every accepted report with sub-row data the viewer's uncalibrated word equals the analyzer's affine sample of that report wherever the first word is present |
| `Chroma.RgbPixel` | examples/ccd_viewer.rs:882-884 | the three components can be read back from the packed pixel |
| `Chroma.ColourRoundTrip` | examples/ccd_viewer.rs:886-903 | the colour transform round-trips exactly for every pixel, up to the unused top byte |
| `Chroma.TransformValues` | examples/ccd_viewer.rs:886-895 | the transform in closed form: co = r - b, cg = g - mean(r, b), y = mean of that mean and g, means rounded down |
| `Chroma.LumaKeptIffUnclamped` | examples/ccd_viewer.rs:897-903 | luma and chroma survive the way back if and only if no component is clamped |
| `Chroma.BordersUntouched` | examples/ccd_viewer.rs:905-936 | borders, images smaller than 3x3 and anything past the image are unchanged |
| `Chroma.UniformChromaFixed` | examples/ccd_viewer.rs:905-936 | a pixel whose 3x3 neighbourhood has one chroma is a fixed point |
| `Chroma.FilterTakesMedian` | examples/ccd_viewer.rs:912-929 | an interior pixel keeps its luma and takes, for each chroma difference, a value of its nine original pixels with five of them no greater and five no smaller |
| `Chroma.FilterRow` | examples/ccd_viewer.rs:913-929 | one row written in place from three saved rows keeps the rest of the image as it was |
| `Chroma.MedianFilterChroma` | examples/ccd_viewer.rs:905-936 | for every image size the in-place filter equals the out-of-place one that reads only original pixels |
| `ViewerImage.ChannelInside` | examples/ccd_viewer.rs:304-424 | inside the decoded geometry every channel reads a non-negative row position and an existing lane column |
| `ViewerImage.Reconstruct` | examples/ccd_viewer.rs:343-382 | the pixel buffer holds the reconstructed colour of every position |
| `ViewerImage.MaskChannels` | examples/ccd_viewer.rs:386-393 | hidden channels are cleared in every pixel and shown ones kept |
| `ViewerImage.ReadGray` | examples/ccd_viewer.rs:407-422 | each gray position shows its own word, or zero where the word is absent |
| `ViewerImage.DecodedShowsChannels` | examples/ccd_viewer.rs:345-393 | an unfiltered decoded pixel carries its three channels' bytes in their own components, hidden ones as zero |
| `ViewerImage.FilterThenMask` | examples/ccd_viewer.rs:383-393 | with the chroma filter on, hidden channels are cleared after filtering |
| `ViewerImage.GrayShowsWords` | examples/ccd_viewer.rs:396-422 | a gray picture shows every word of a row, or every third one from the phase on |
| `ViewerImage.ShiftsUndo` | examples/ccd_viewer.rs:1255-1265 | a shift key moves its own channel only, and the opposite shift undoes it |
| `ViewerImage.TogglesUndo` | examples/ccd_viewer.rs:1266-1301 | toggles undo themselves |
| `ViewerImage.ModesCycle` | examples/ccd_viewer.rs:59-67 | a mode step changes only the mode, and five come round |
| `ViewerImage.DecodedImage.Update` | examples/ccd_viewer.rs:304-424 | equal parameters leave the image alone, others replace it by a fresh decode: reconstruct, chroma filter, channel masks |
| `ViewerImage.DecodedImage.Get` | examples/ccd_viewer.rs:426-435 | inside the picture the stored colour, outside the background |
| `ViewerImage.Viewer.constructor` | examples/ccd_viewer.rs:1187-1206 | the first decode shows the initial settings |
| `ViewerImage.Viewer.Press` | examples/ccd_viewer.rs:1240-1345 | a key changes the settings and keeps the cache sound; if no decode is due, the cached parameters are the current ones |
| `ViewerImage.Viewer.Frame` | examples/ccd_viewer.rs:1237-1369 | after any keys the shown image equals a fresh decode of the current settings, although calibration is not part of the cache key |
| `ViewerDecode.SameMembersSameOverlap` | examples/ccd_viewer.rs:737-762 | the overlap depends only on which offsets occur, not on order or repetition |
| `ViewerDecode.SameArea` | examples/ccd_viewer.rs:317-342 | for matching settings the viewer's image area is the analyzer's up to the last whole lane column, and the whole of it if and only if the word count is divisible by twelve |
| `ViewerDecode.ChannelShowsAnalyzerWord` | examples/ccd_viewer.rs:784-829 | for every word count every channel byte of the viewer's image is the display value of the analyzer's decoded word for that pixel wherever the first word is present, and zero elsewhere |
| `Combinations.CombosSound` | examples/ccd_layout_analyzer.rs:2907-2932 | every visited selection is strictly increasing, in range and of the requested size |
| `Combinations.CombosComplete` | examples/ccd_layout_analyzer.rs:2907-2932 | every such selection is visited |
| `Combinations.CombosSorted` | examples/ccd_layout_analyzer.rs:2907-2932 | selections are visited in strict lexicographic order |
| `Combinations.SortedHasNoDuplicates` | examples/ccd_layout_analyzer.rs:2907-2932 | hence none is visited twice |
| `Combinations.Visitor.Visit` | examples/ccd_layout_analyzer.rs:2911-2930 | the push-recurse-pop walk restores its buffer and calls back with exactly the remaining selections in order |
| `Combinations.ForEachCombination` | examples/ccd_layout_analyzer.rs:2907-2932 | the calls are exactly the selections of the values, in that order; it terminates |
| `SpectralGroups.ExaminedSound` | examples/ccd_layout_analyzer.rs:2862-2905 | every examined candidate is a partition of the lanes into three equal sorted groups ordered by first lane |
| `SpectralGroups.ExaminedComplete` | examples/ccd_layout_analyzer.rs:2862-2905 | every such canonical triple is examined |
| `SpectralGroups.EveryPartitionExamined` | examples/ccd_layout_analyzer.rs:2862-2905 | every unordered partition of the lanes into three equal groups is examined |
| `SpectralGroups.BlocksDetermine` | examples/ccd_layout_analyzer.rs:2862-2905 | an unordered partition has only one canonical triple |
| `SpectralGroups.NoPartitionTwice` | examples/ccd_layout_analyzer.rs:2862-2905 | no unordered partition is examined twice |
| `GroupSearch.FourLaneScore` | examples/ccd_layout_analyzer.rs:2888-2894 | for groups of four the score is the mean over the eighteen in-group pairs |
| `GroupSearch.RankStep` | examples/ccd_layout_analyzer.rs:2895-2901 | replacing best and runner-up keeps them the two largest scores of the multiset seen so far, with the best at its first occurrence |
| `GroupSearch.BestThreeGroups` | examples/ccd_layout_analyzer.rs:2862-2905 | for any number of lanes 3(m+1) the result is the first best of all examined partitions, with the second largest score as runner-up |
| `GroupSearch.BestThreeGroupsOfFour` | examples/ccd_layout_analyzer.rs:2862-2905 | the returned partition is maximal over all 4+4+4 partitions of the twelve lanes and the first such one examined, and the runner-up is attained by another partition and bounds all others |
| `GroupSearch.RunnerUpExists` | examples/ccd_layout_analyzer.rs:2862-2905 | the runner-up score is attained by a different partition |
| `Registration.BestJointPhaseShifts` | examples/ccd_layout_analyzer.rs:2485-2528 | None exactly when no pair meets the separation limits; otherwise a feasible pair maximal in (minimum correlation, total support), the first in search order; every lookup is in its table |
| `Registration.JointStep` | examples/ccd_layout_analyzer.rs:2500-2524 | comparing one more pair keeps the best of the pairs before it |
| `Registration.FitOrder` | examples/ccd_layout_analyzer.rs:2308-2312 | the evidence order is a strict weak order |
| `Registration.FitPitch` | examples/ccd_layout_analyzer.rs:1668-1692 | the pitch is the first lexicographic optimum of the whole range; every lookup is in its table |
| `Registration.FitOffset` | examples/ccd_layout_analyzer.rs:1695-1718 | the offset of a colour is the first optimum over the shifts whose four taps stay in range |
| `Registration.FitTwelveLineOffsets` | examples/ccd_layout_analyzer.rs:1661-1721 | None exactly for ranges below two; otherwise the best pitch and then, for that pitch, the best offsets |
| `Registration.FeasibleIff` | examples/ccd_layout_analyzer.rs:2496-2506 | a pair is feasible if and only if the three lines are pairwise separated within the limits |
| `Registration.PitchIff` | examples/ccd_layout_analyzer.rs:1670-1673 | a pitch is searched if and only if it is not zero and twice it stays in range |
| `Registration.OffsetIff` | examples/ccd_layout_analyzer.rs:1698-1704 | an offset is searched if and only if all four lines stay in range |
| `Registration.NotBetterMeans` | examples/ccd_layout_analyzer.rs:2308-2312 | nothing better: a smaller total, or equal with less support, or equal with no larger least correlation |
| `Registration.LookupFinds` | examples/ccd_layout_analyzer.rs:2481-2483 | a shift is looked up where its evidence was put |
| `Registration.JointScoreIs` | examples/ccd_layout_analyzer.rs:2507-2519 | the joint score is the least of the three correlations at the two shifts and their difference, with the total support |
| `Registration.OffsetFitIs` | examples/ccd_layout_analyzer.rs:1705-1712 | the offset fit totals exactly the colour's four lanes at spacings 0, 2, -1 and 1, and keeps the least |
| `Registration.PitchFitIs` | examples/ccd_layout_analyzer.rs:1674-1686 | the pitch fit totals exactly the later taps of each colour at spacings 2, -1 and 1, and keeps the least |
| `Impulse.CandidateMedian` | examples/ccd_layout_analyzer.rs:3368-3392 | a candidate carries its eight neighbours' median, and that differs from the pixel |
| `Impulse.MedianIsMiddle` | examples/ccd_layout_analyzer.rs:3378-3382 | the median is the rounded-down mean of the two middle values by rank |
| `Impulse.MedianBalances` | examples/ccd_layout_analyzer.rs:3378-3382 | at least four neighbours are at most the median and at least four are at least it |
| `Impulse.NeighborsAre` | examples/ccd_layout_analyzer.rs:3368-3377 | the eight neighbours are the plane's values one row and one column away at most, the pixel left out |
| `Impulse.CandidateIff` | examples/ccd_layout_analyzer.rs:3379-3392 | a pixel is a candidate if and only if no two neighbours are more than 4096 apart and it lies at least the threshold from their median; the threshold is eight times the middle distance, between 2048 and 65535 |
| `Impulse.Collect` | examples/ccd_layout_analyzer.rs:3365-3394 | the scan collects exactly the interior positions that exceed their threshold, once each, in order |
| `Impulse.TruncatedSortIsWorst` | examples/ccd_layout_analyzer.rs:3395-3396 | sorting by excess and truncating keeps the worst candidates, at most the limit |
| `Impulse.Apply` | examples/ccd_layout_analyzer.rs:3397-3399 | chosen positions take their replacement, all others keep their value |
| `Impulse.CorrectPlane` | examples/ccd_layout_analyzer.rs:3345-3405 | exactly the reported number of pixels changes, at most max(1, w*h/100), interior ones only, each to the median of its original neighbours, and no candidate left alone exceeds its threshold by more than a corrected one |
| `Impulse.CorrectIsolatedImpulses` | examples/ccd_layout_analyzer.rs:3345-3405 | the same for every plane; planes smaller than 3x3 are unchanged |
| `MetalTrace.CoveredIff` | scripts/summarize_metal_trace.py:69-77 | the covered set is the set of integer instants inside some half-open interval |
| `MetalTrace.CoveredPermuted` | scripts/summarize_metal_trace.py:69-77 | it does not depend on the input order |
| `MetalTrace.SweepStep` | scripts/summarize_metal_trace.py:69-77 | one more interval in sorted order adds exactly the instants past the running end |
| `MetalTrace.UnionNs` | scripts/summarize_metal_trace.py:69-77 | an error exactly for a malformed interval; otherwise the number of covered instants |
| `MetalTrace.ClippedInside` | scripts/summarize_metal_trace.py:206-208 | clipped waits are well formed and cover exactly the instants of the encoding spent waiting on its thread |
| `MetalTrace.SplitWallTime` | scripts/summarize_metal_trace.py:199-211 | the overlap is the number of waiting instants, and overlap plus a non-negative remainder is the wall time |
| `MetalTrace.CycleNeverResolves` | scripts/summarize_metal_trace.py:34-44 | a reference chain that repeats never reaches a definition |
| `MetalTrace.Resolve` | scripts/summarize_metal_trace.py:34-44 | terminates on every table and returns the first definition on the chain, or nothing exactly when the chain has none |
| `SigrokCatalog.SigrokDirectoryCatalog.constructor` | crates/app_native/src/sigrok_catalog.rs:72-103 | the catalog starts with its first scan running |
| `SigrokCatalog.SigrokDirectoryCatalog.StartScan` | crates/app_native/src/sigrok_catalog.rs:105-119 | a scan takes the next generation, wrapping, and the current directory list |
| `SigrokCatalog.SigrokDirectoryCatalog.Poll` | crates/app_native/src/sigrok_catalog.rs:121-142 | receives all delivered reports in order and keeps those of the current generation |
| `SigrokCatalog.SigrokDirectoryCatalog.AddDirectory` | crates/app_native/src/sigrok_catalog.rs:175-187 | a cancelled choice or a listed directory changes nothing; a new one is appended and scanned |
| `SigrokCatalog.SigrokDirectoryCatalog.RemoveDirectory` | crates/app_native/src/sigrok_catalog.rs:189-195 | an index past the end changes nothing; otherwise that directory goes and a scan starts |
| `SigrokCatalog.SigrokDirectoryCatalog.TakeTemplates` | crates/app_native/src/sigrok_catalog.rs:201-204 | polls, then hands the templates out once |
| `SigrokCatalog.ReceiveKeeps` | crates/app_native/src/sigrok_catalog.rs:121-142 | receiving one report, current or stale, keeps the invariant |
| `SigrokCatalog.PollKeeps` | crates/app_native/src/sigrok_catalog.rs:121-142 | polling keeps the invariant and empties the channel |
| `SigrokCatalog.RunInv` | crates/app_native/src/sigrok_catalog.rs:105-204 | the invariant holds for every interleaving of edits, rescans, task ends and polls of at most 2^64 scans |
| `SigrokCatalog.ScanGuarantees` | crates/app_native/src/sigrok_catalog.rs:105-204 | an accepted report was computed from the directory list current at that moment, no scan is accepted twice, and `scanning` is false exactly when the newest scan's report has been accepted |
| `SigrokCatalog.RunShows` | crates/app_native/src/sigrok_catalog.rs:121-204 | over every run, of any number of scans, the count and the untaken templates are those of the last accepted find, and the diagnostics those of the last accepted report |
| `SigrokCatalog.ShowsNewestIff` | crates/app_native/src/sigrok_catalog.rs:121-204 | what is shown was found by the newest scan, from the current directory list, if and only if no scan is under way and the last accepted report is not a failure |
| `SigrokCatalog.FailedScanShowsOld` | crates/app_native/src/sigrok_catalog.rs:121-204 | after a find, an added directory and a failed scan no scan is under way, yet the old list's entries are still counted and handed out |
| `SigrokCatalog.RemoveDrops` | crates/app_native/src/sigrok_catalog.rs:189-195 | removing drops exactly the indexed directory, keeps the others in order and scans what is left |
| `SigrokCatalog.RemoveUndoesAdd` | crates/app_native/src/sigrok_catalog.rs:175-195 | an unlisted directory is appended and scanned, and removing it there restores the list |
| `SigrokCatalog.RunDistinct` | crates/app_native/src/sigrok_catalog.rs:175-195 | no run lists a directory twice unless the list started that way |
| `SigrokCatalog.TakenOnce` | crates/app_native/src/sigrok_catalog.rs:201-204 | templates are handed out once |
| `SigrokCatalog.LateReportAccepted` | crates/app_native/src/sigrok_catalog.rs:105-142 | a concrete run past 2^64 scans in which the first scan's late report is accepted for a different directory list |
| `SigrokCatalog.FreshIffBounded` | crates/app_native/src/sigrok_catalog.rs:105-142 | stale reports are excluded for runs of n scans if and only if n is at most 2^64 |

## Left out

- Graph lowering, the runtime, decoders, the wire codec, sample-block internals and the capture worker client are not part of this model.
- The artifact receiver is an abstract predicate over the events applied so far; an event it refuses is taken to have had no effect.
- Graph documents, progress values, artifacts, files and failure texts are opaque values; attachments, downloads and the capture client's own queues are not modelled.
- Posting, decoding, the capture loop and the worker are environment: each host event carries what they answered. Locks, timers and JavaScript objects are not modelled.
- Failed sends on disconnected ports are not distinguished from successful ones, as the demultiplexer ignores them; the raw port is always recorded.
- The number of backing bits of a chunk is computed without 64-bit overflow, which a buffer below 2^61 bytes cannot cause.
- Row, column and offset arithmetic of the CCD programs is on unbounded integers: overflow of 32- and 64-bit intermediate values, including the negation of the least 32-bit offset, is not modelled.
- Correlations and scores are exact reals; rounding, infinities and not-a-number are not modelled, and how evidence is computed from pixels is not modelled.
- The display value of a word (gain and gamma) is an arbitrary function of the word and the settings; gain is an arbitrary number.
- Plane calibration, flat-field correction, percentiles, blitting, zooming and scrolling are not modelled.
- Calibration agreement between the analyzer and the viewer: the viewer calibrates before interpolating and the analyzer after, so they differ in general.
- The evidence lookup at examples/ccd_layout_analyzer.rs:1202-1213 has no guard like those of the fitted searches and is not modelled.
- DecodeFullResolution: requires at least one row interval, as the loader guarantees. The calibration is a total function of word, lane and column; the program's table lookup fails for a column its lane does not have, which `ColumnsInside` excludes.
- RenderPlanes: a row index converted from a negative number wraps as in a build without overflow checks; a build with them stops when such an index is -1 and the next row is read.
- ForEachCombination: excludes a positive count on an empty list of values, where the program would index out of range.
- UnionNs: instants are integers from zero on, as in the trace; a malformed interval is the raised error.
- Press: one frame's keys are a list of abstract key events; which physical keys and modifiers produce them is not modelled.
- AddDirectory: the folder dialog's answer is a parameter; saving and loading the directory list is not modelled.
- Reading and writing of XML, JSON, CSV, BMP and PPM files, argument parsing, memory mapping, windows and USB transport are not modelled.
