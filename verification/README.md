# Verified models of the monitoring agent's stream processing

The agent watches hosts: it reassembles captured HTTP traffic, streams a remote desktop, injects
remote input, walks SNMP tables and aggregates NetFlow records. This project models the parts
of it in which state, wrap-around arithmetic and arrival order interact, and proves what those
parts are for. `dafny verify dfyconfig.toml` checks all of it.

Code that changes state is modelled by classes and loops (`DirStream`, `Reassembler`,
`DeskInputPump`, `FlowAggregator`, `Receiver`, `DeskTiler`, `EncoderLoop`, and the loops over
rectangles, chunks, counters and table columns). Each such method is proved against a function
or relation on plain values, and the results about whole runs are lemmas about those. Where the
program iterates over a map, the model leaves the order open.

## Content reassembly

| file | subject |
|---|---|
| `SeqSpace.dfy` | 32-bit sequence numbers and the window in which comparing them is faithful |
| `DirStream.dfy` | one direction of a TCP connection: the stream object and its memory bound |
| `StreamOrder.dfy` | the same machine on absolute stream offsets, and the refinement between the two |
| `StreamRuns.dfy` | runs: what is kept, completeness, independence of order |
| `ByteSearch.dfy`, `ChunkSizes.dfy`, `Chunked.dfy`, `HttpFraming.dfy` | message framing over a growing buffer |
| `ConnTable.dfy`, `Reassembly.dfy` | the connection table and the reassembler that changes it |
| `Sharding.dfy` | packets spread over independent reassemblers |
| `AuditEvents.dfy` | what a reported event says about the two byte streams |
| `Directions.dfy` | which stream a packet feeds, from ports, payload and ends |
| `Reporting.dfy` | when a connection reports, and what |
| `StuckConns.dfy` | connections that can never report |

A stream is given by its bytes and an initial sequence number; a segment is an offset and a
length. The order results are for streams shorter than 2^31 bytes, the window in which
`ComparisonFaithful` shows the code's comparisons to be right, and no wider one. The memory
bound needs no window.

Two properties hold only in a weaker form than one would expect, and are stated exactly:

* A complete request without `Content-Length` and without chunked coding, and an event-stream
  response without either, take every later byte as body. `ReqStable` and `RespStable` say what
  each later parse returns; it is the same as before in all other cases.
* A negative chunk size makes the decoder slice out of range. The model has an outcome of its
  own for it (`Crash`); `CrashExactly` says which inputs lead there and `MinusOneCrashes` gives
  one. The worker's recovery is modelled: the packet has then changed the stream but reports
  nothing. The connection stays so: `StuckForGood` shows that it never reports again and leaves
  the table only by eviction, as long as no segment arrives for bytes before those buffered.

`ReportsExactly` puts the parts together: it says of every packet of a connection, from what its
two ends have sent so far, whether it makes the connection report, and what.

The sharding results are for runs without eviction (`Free`), since eviction depends on which
connections share a table. A single reassembler's run is exactly the sum of the workers' runs
(`OneAsShards`, `ShardsAsOne`).

## Remote desktop

| file | subject |
|---|---|
| `Frames.dfy` | frames and nearest-neighbour scaling |
| `TileMerge.dfy` | merging dirty tiles into rectangles |
| `DeskTiles.dfy` | the tiler: checksums per tile and what a report means |
| `DeskReports.dfy` | which changes are sent as rectangles and which ask for a whole frame |
| `TileCodec.dfy` | the rectangle message and the browser's parser |
| `DeskCanvas.dfy` | painting in the browser |
| `DeskEncoder.dfy` | the encoder loop: skip, rectangles, key frame, failure, soft and hard size limits |
| `DeskLimits.dfy` | sizes and qualities of whole frames |
| `DeskSession.dfy` | runs of the loop with a canvas: no mixed picture |
| `DeskSqueeze.dfy` | the sizes that can break this, exactly |
| `DeskSwitch.dfy` | switching rectangles off and on again |
| `DeskKeyFrames.dfy` | whole frames that follow rectangles |
| `InputPump.dfy` | the input queue |

`AllToldApart` says that the checksum tells apart the tiles that a run compares, each frame with
the one remembered at that time, and `Lossless` that decoding a picture gives back its pixels. The canvas results are for messages that are delivered
and painted in order.

Three results go against what the code or its comments suggest:

* The live view keeps its canvas when a whole frame differs from it by at most two pixels each
  way, and stretches the frame. If the soft size limit makes the loop shrink the frame by no more
  than that, the canvas has the tiler's frame size without its picture. Whether this can happen
  depends on sizes only (`CanSqueeze`): `NoMixedPicture` holds for all other sizes,
  `StepSafeExactly` and `KeyHealsExactly` show that the condition is exact, and
  `LargeScreenBreaks` gives an instance, a screen of 7680 by 4320 pixels at scale 0.3002 whose
  first attempt at a smaller picture fits. With the exact sizes that the player of recordings uses, it cannot happen (`NoMixedPictureExactSize`).
* Switching rectangles off and on again leaves the tiler with an old frame.
  `DeskSwitch.OffStepExactly` says which iterations do harm, `OffAndOnLeavesStale` shows runs
  after which the canvas is wrong and stays so while the screen does not change, and
  `OffAndOnHappens` gives one.
* The comments of the input pump call the oldest queued move obsolete when the queue is full
  (cmd/agent/desktop_input_pump.go:57-59, 141). It never is: another event depends on it.
  `OverflowExactly` gives the condition under which dropping it is harmless,
  `RunEffectsExactly` lifts it to runs, and `OverflowMisplaces` shows that it need not hold.

## SNMP and NetFlow

| file | subject |
|---|---|
| `OidOrder.dfy`, `SnmpWalk.dfy` | reading table columns with GETBULK, against any agent |
| `SnmpExact.dfy` | the same against an agent that answers as section 4.2.3 of RFC 3416 says |
| `CounterRates.dfy` | counter differences and rates across wraps |
| `PacketFilter.dfy` | the socket filter program and the frames it accepts |
| `BigEndian.dfy`, `NetflowV9.dfy`, `NetflowRoundTrip.dfy` | the NetFlow v9 decoder |
| `FlowAggregation.dfy` | the flow aggregator |

The aggregation window can outgrow its limit. Eviction looks for an entry below 2^64 - 1 bytes;
if all entries are at that count it deletes the zero key instead, which is nothing unless that
flow is resident. `RunWithinLimitExactly` gives the condition for a run, `RunWithinLimit` the
usual case, and `SaturatedOutgrows` an instance.

The filter accepts exactly what its author lists, but the link-layer parser behind it can also read
frames with two tags or an 802.1ad tag; `FilterAgainstParser` says which of the parser's frames
are lost.

`Base.dfy` holds machine integers and sums over maps.

## Model

| member | source | states |
|---|---|---|
| SeqSpace.ComparisonFaithful | cmd/agent/content_reassembly.go:22-23 | `seqLT` and `seqLE` agree with the order of stream offsets exactly when the offsets are less than 2^31 apart |
| SeqSpace.InWindow | cmd/agent/content_reassembly.go:22-23 | in one window shorter than 2^31, comparison, equality and difference of sequence numbers are those of offsets, wherever the numbers wrap |
| DirStreams.DirStream.AppendContiguous | cmd/agent/content_reassembly.go:103-117 | stores what the budget allows, moves `nextSeq` past all of it and marks a cut exactly when something was left out |
| DirStreams.DirStream.Prepend | cmd/agent/content_reassembly.go:119-136 | keeps the end of the earlier bytes that fits, and reports how much |
| DirStreams.DirStream.StorePending | cmd/agent/content_reassembly.go:138-161 | one waiting segment per sequence number, the longer one kept, the budget respected, the byte count exact |
| DirStreams.DirStream.DrainPending | cmd/agent/content_reassembly.go:163-188 | ends in a state in which no waiting segment is ready, reached by absorbing or deleting ready segments in some order |
| DirStreams.DirStream.AppendSeg | cmd/agent/content_reassembly.go:51-101 | one segment through every branch, for any map order, keeping the byte budget |
| DirStreams.DrainTerminates | cmd/agent/content_reassembly.go:163-188 | from every state draining has an end |
| DirStreams.DrainedBounded | cmd/agent/content_reassembly.go:163-188 | draining keeps the budget, never cuts, and leaves nothing ready |
| DirStreams.FedBounded | cmd/agent/content_reassembly.go:51-188 | buffered plus waiting bytes never exceed the capacity and `pendingLen` is the exact sum, for every segment, in or out of the window, cut or not; a cut is never forgotten |
| StreamOrder.DrainedShows | cmd/agent/content_reassembly.go:163-188 | every order of draining ends in the same state: the contiguous part extended as far as the waiting segments reach |
| StreamOrder.FedShows | cmd/agent/content_reassembly.go:51-188 | one segment on sequence numbers is one segment on absolute offsets; the call does not fail |
| StreamRuns.RunShows | cmd/agent/content_reassembly.go:51-188 | every run of the stream object is the one deterministic run on offsets |
| StreamRuns.RunInvariant | cmd/agent/content_reassembly.go:40-188 | in every reachable state the buffer is a strictly increasing selection of stream offsets and every waiting segment is true and starts after `nextSeq`; without a cut `nextSeq` is `startSeq` plus the buffer's length |
| StreamRuns.RunHolds | cmd/agent/content_reassembly.go:51-188 | only bytes that were fed are held, and without a cut all of them are, in the buffer or waiting |
| StreamRuns.BufferDetermined | cmd/agent/content_reassembly.go:51-188 | without a cut the buffer is the stream from the least fed offset to the first gap |
| StreamRuns.CompleteInterval | cmd/agent/content_reassembly.go:51-188 | segments that cover exactly an interval, in any order and with any overlap, give exactly that part of the stream and leave nothing waiting |
| StreamRuns.OrderIndependent | cmd/agent/content_reassembly.go:51-188 | two runs fed the same bytes in any two ways end with the same buffer |
| StreamRuns.EnoughRoom | cmd/agent/content_reassembly.go:51-188 | a run that starts with its least offset and has room for every fed byte is never cut |
| StreamRuns.Reassembles | cmd/agent/content_reassembly.go:51-188 | such a run reassembles its interval completely, with no condition on the outcome |
| ChunkSizes.ParseHexExactly | cmd/agent/content_reassembly.go:493-496 | a size is read exactly from an optional sign and the number in base 16, of either case, within 64 bits |
| ChunkSizes.HexRoundTrip | cmd/agent/content_reassembly.go:493-496 | a number written in base 16, in either case, is read back |
| ChunkSizes.Trimmed | cmd/agent/content_reassembly.go:493 | trimming takes all Unicode white space, and only that, from both ends |
| ChunkSizes.ChunkSizeExactly | cmd/agent/content_reassembly.go:485-496 | a line gives a chunk's size if and only if it is a numeral between white space, perhaps with an extension behind it |
| Chunked.Dechunk | cmd/agent/content_reassembly.go:482-511 | the decoding loop computes the recursive decoding, crash on a negative size included |
| Chunked.DechunkedExtend | cmd/agent/content_reassembly.go:482-511 | more bytes never change a finished decoding, only extend an unfinished one |
| Chunked.DechunkedCoding | cmd/agent/content_reassembly.go:482-511 | decoding inverts every chunked coding of a body: sizes in base 16 in any spelling and between any white space, with extensions and with line ends inside the data |
| Chunked.NotDoneBefore | cmd/agent/content_reassembly.go:482-511 | before the zero-size line is complete the decoder is not done and does not crash |
| Chunked.DechunkedPrefix | cmd/agent/content_reassembly.go:482-511 | on every prefix the result is a prefix of the body, and done if and only if the zero-size line is in |
| Chunked.CrashExactly | cmd/agent/content_reassembly.go:482-511 | the decoder runs a slice out of range if and only if the input is whole chunks, each with or without its line end, followed by a complete line with a negative size |
| Chunked.MinusOneCrashes | cmd/agent/content_reassembly.go:482-511 | one such input: the line `-1` |
| HttpFraming.ReqStable | cmd/agent/content_reassembly.go:381-416 | a complete request stays complete on every extension and reports the same, or, with neither length nor chunks, the longer body |
| HttpFraming.RespStable | cmd/agent/content_reassembly.go:418-467 | the same for responses, past any number of interim responses |
| HttpFraming.ReqCompleteExactly | cmd/agent/content_reassembly.go:381-416 | with a declared length, a prefix is complete if and only if it reaches the last body byte, and the body is exact |
| HttpFraming.RespCompleteExactly | cmd/agent/content_reassembly.go:418-467 | the same for a final response |
| HttpFraming.ChunkedRespCompleteExactly | cmd/agent/content_reassembly.go:418-511 | a chunked response is complete if and only if the zero-size line is in; before that its body is a prefix of the true one |
| HttpFraming.ChunkedReqCompleteExactly | cmd/agent/content_reassembly.go:381-404 | the same for a chunked request |
| HttpFraming.OpenReqExactly | cmd/agent/content_reassembly.go:405-409 | a request with neither a length nor chunks is complete with its head |
| HttpFraming.BodilessCompleteExactly | cmd/agent/content_reassembly.go:439-441 | a 101, 204 or 304 response is complete if and only if its head is in, and has no body |
| HttpFraming.InterimSkipped | cmd/agent/content_reassembly.go:432-437 | an interim response says nothing itself; what follows it is parsed as if it were not there |
| HttpFraming.OpenRespExactly | cmd/agent/content_reassembly.go:460-467 | a response with neither carries all there is, and is complete if and only if it is an event stream with the text "[DONE]" in its body |
| HttpFraming.NoRequest | cmd/agent/content_reassembly.go:382-393 | bytes without a method, the end of a head or a proper first line are no request, complete or not |
| HttpFraming.NoResponse | cmd/agent/content_reassembly.go:419-425 | the same for responses |
| HttpFraming.PayloadExactly | cmd/agent/content_audit.go:15-28 | requests are told by the seven methods, written out, and responses by "HTTP/" |
| ConnTable.KeyIdentifiesConnection | cmd/agent/content_reassembly.go:26-38 | two packets have one key exactly when they have the same two ends, in either order |
| ConnTable.FinExactly | cmd/agent/content_reassembly.go:289-290 | a packet ends its connection if and only if its FIN or its RST bit is set |
| ConnTable.TableStepBounded | cmd/agent/content_reassembly.go:242-293 | every packet keeps the table within `maxConn` connections, each within its byte budgets |
| ConnTable.EvictsOldest | cmd/agent/content_reassembly.go:268-271 | the one connection that makes room for a new one has been silent for longest; all others stay as they are |
| Reassembly.Reassembler.EvictOldest | cmd/agent/content_reassembly.go:338-347 | exactly one connection goes, and none has been silent for longer |
| Reassembly.Reassembler.Classify | cmd/agent/content_reassembly.go:243-266 | the direction from known endpoints, ports and the look of the payload |
| Reassembly.Reassembler.EmitIfDone | cmd/agent/content_reassembly.go:296-325 | report and forget, forget only, or keep, with the events in order |
| Reassembly.Reassembler.Take | cmd/agent/content_reassembly.go:276-286 | the packet's bytes go to one stream of the connection, within its budget |
| Reassembly.Reassembler.Feed | cmd/agent/content_reassembly.go:242-293 | one packet is one step of the table: its own connection, at most one eviction, its events appended |
| Sharding.MixText | cmd/agent/collector_sni_linux.go:204-209 | the hash loop over a text, in 32 bits |
| Sharding.RouteWorker | cmd/agent/collector_sni_linux.go:202-220 | a worker below `n`, determined by the connection key for TCP and by the source otherwise |
| Sharding.DirectionsMeet | cmd/agent/collector_sni_linux.go:200-220 | both directions of a TCP connection go to one worker |
| Sharding.SourcesMeet | cmd/agent/collector_sni_linux.go:216-218 | packets of other protocols from one source go to one worker |
| Sharding.Project | cmd/agent/content_reassembly.go:242-293 | in every run without eviction a connection's state and events are those of a run on its own packets only |
| Sharding.RoomForAll | cmd/agent/content_reassembly.go:268-271 | a run with room for every connection of its trace evicts nothing |
| Sharding.ReachedBounded | cmd/agent/content_reassembly.go:242-347 | in every reachable state the table is within its limit |
| Sharding.MemoryBound | cmd/agent/content_reassembly.go:103-188 | all bytes held at any time are at most `maxConn` times the two budgets |
| Sharding.RoutedOnly | cmd/agent/collector_sni_linux.go:191-198 | a worker sees all packets of its connections, in order, and none of the others' |
| Sharding.ShardsAsOne | cmd/agent/collector_sni_linux.go:103-143 | whatever n workers do without eviction, one reassembler with the room of all of them does with the whole trace: the workers' tables and logs are the parts of its own |
| Sharding.SplitByConnection | cmd/agent/collector_sni_linux.go:200-220 | in such a split every connection has its state and its events, in order, at its own worker |
| Sharding.OneAsShards | cmd/agent/collector_sni_linux.go:103-143 | what one reassembler does with a trace without eviction, each worker does with its share: it ends with exactly its part of the table and reports exactly its part of the events, in the same order |
| AuditEvents.EventIsTrue | cmd/agent/content_reassembly.go:296-325 | if a connection's two streams are runs over pieces of two byte streams, every report, at the end of the connection or before, is what the parsers say about the bytes received, and what they say about the whole streams where a complete message is not framed by the end |
| AuditEvents.HistoryOf | cmd/agent/content_reassembly.go:242-293 | what a connection can reach in the reassembler, it reaches by a history of packets, states and events |
| AuditEvents.Lived | cmd/agent/content_reassembly.go:242-293 | while a connection lives, each of its streams has run over exactly what the packets of its direction gave it |
| AuditEvents.ReportIsTrue | cmd/agent/content_reassembly.go:242-325 | from the packets to the report, FIN and RST included: if the packets taken in each direction are pieces of a byte stream and nothing was cut off, the event is what the bytes received say, and the whole streams where messages are complete, whatever the arrival order |
| Directions.FirstPacket | cmd/agent/content_reassembly.go:243-286 | the first packet of a connection leaves its bytes in the request stream if it goes to an audited port, in the response stream if it comes from one, by its payload if both are audited, and nowhere otherwise; the other stream stays new, and the ends are noted as client and server |
| Directions.FirstInTable | cmd/agent/content_reassembly.go:242-293 | the same for the table, with or without an eviction |
| Directions.EndsStay | cmd/agent/content_reassembly.go:249-256 | while a connection lives, its client and its server are those of its first packet |
| Directions.EachEndFeedsItsStream | cmd/agent/content_reassembly.go:249-286 | the request stream is given exactly what the client sent, and the response stream exactly what the server sent |
| Reporting.ReportsExactly | cmd/agent/content_reassembly.go:242-325 | from the packets of the two ends alone: with nothing cut off, a packet finishes with its connection if and only if both parts received are complete messages, or it ends the connection and they can be parsed; it then reports exactly one event, for these ends and with what they say, unless there is neither a method nor a status |
| Reporting.HistoryInTable | cmd/agent/content_reassembly.go:242-293 | each connection's part of a run of the whole reassembler without eviction is a history of that kind |
| Reporting.RoomUncut | cmd/agent/content_reassembly.go:103-161 | nothing is cut off if the budget is no less than what is sent and the first segment starts before the others |
| StuckConns.StuckForGood | cmd/agent/content_reassembly.go:296-325 | once a parse of a connection fails, no later packet makes it report or deletes it, unless a segment arrives for bytes before those buffered |
| StuckConns.StuckInTable | cmd/agent/content_reassembly.go:242-325 | in every run of the whole reassembler without eviction such a connection is still in the table and has added no event |
| InputPump.DeskInputPump.Push | cmd/agent/desktop_input_pump.go:128-153 | coalesce, drop the oldest move, or append; nothing after closing |
| InputPump.DeskInputPump.InjectNext | cmd/agent/desktop_input_pump.go:92-126 | the oldest operation moves from the queue to what was injected |
| InputPump.DeskInputPump.CloseAndDrain | cmd/agent/desktop_input_pump.go:189-200 | when closing returns everything queued has been injected, in order |
| InputPump.AcceptedExactly | cmd/agent/desktop_input_pump.go:128-153 | in every run exactly what was pushed before closing is accepted, in order |
| InputPump.RunShaped | cmd/agent/desktop_input_pump.go:128-153 | moves are never adjacent in the queue, and a queue over its limit holds at most one |
| InputPump.RunKeepsOrder | cmd/agent/desktop_input_pump.go:92-153 | in every interleaving the injected and queued events are the pushed ones with only moves deleted, in order |
| InputPump.RunKeepsEffects | cmd/agent/desktop_input_pump.go:128-153 | while no push meets a full queue, every other event takes effect at the pointer position it was meant for |
| InputPump.OverflowExactly | cmd/agent/desktop_input_pump.go:138-151 | a push onto a full queue keeps all effects if and only if no move is queued or the dropped one repeats the position in force; otherwise an effect is misplaced for good |
| InputPump.MisplacedStays | cmd/agent/desktop_input_pump.go:92-153 | no later push or injection puts a misplaced effect right |
| InputPump.RunEffectsExactly | cmd/agent/desktop_input_pump.go:92-153 | over every run all effects are as meant if and only if every push that met a full queue was harmless |
| InputPump.Reachable | cmd/agent/desktop_input_pump.go:128-153 | every queue of the right shape occurs |
| InputPump.OverflowMisplaces | cmd/agent/desktop_input_pump.go:138-151 | a run in which a dropped move misplaces an event |
| Frames.ScaleImageNN | cmd/agent/desktop_stream.go:1124-1153 | each pixel of the result is the source pixel on which it falls |
| Frames.ScaleFrame | cmd/agent/desktop_stream.go:1109-1120 | the scaled frame, or the frame itself for a scale near one or a tiny result |
| Frames.ScaleImageExactly | cmd/agent/desktop_stream.go:1109-1153 | a scale below 0.99 that leaves eight pixels each way gives the scaled size, rounded down, in which every pixel is the source pixel on which it falls; any other gives the frame itself |
| Frames.OneScaling | cmd/agent/desktop_stream.go:1124-1153 | a source and a size allow one such picture only |
| Frames.SizeDetermines | cmd/agent/desktop_stream.go:1109-1153 | two scalings of one frame with the same size have the same pixels |
| TileMerge.ScanRow | cmd/agent/desktop_tiles.go:149-174 | one row: its runs with their rectangles, and what of the row above they do not continue |
| TileMerge.MergeDeskTiles | cmd/agent/desktop_tiles.go:145-183 | the rectangles are those of the maximal blocks of equal runs, each once, and partition the dirty pixels |
| TileMerge.BlocksPartition | cmd/agent/desktop_tiles.go:145-183 | for every grid and frame size the blocks' rectangles are non-empty, inside the frame, disjoint, and cover exactly the pixels of dirty tiles, clipped at the edges |
| DeskTiles.DeskTiler.HashInto | cmd/agent/desktop_tiles.go:125-141 | one checksum per tile over its clipped rows |
| DeskTiles.DeskTiler.Changed | cmd/agent/desktop_tiles.go:77-121 | geometry change, nothing, too much, too many, or the merged rectangles; the memory is then that of this frame |
| DeskTiles.DeskTiler.Reset | cmd/agent/desktop_tiles.go:58-61 | only the readiness is lost |
| DeskTiles.DirtyExactly | cmd/agent/desktop_tiles.go:97-105 | with a separating checksum a tile is dirty if and only if one of its pixels changed |
| DeskTiles.TileSumExactly | cmd/agent/desktop_tiles.go:125-141 | a tile's checksum is that of all its pixels, row by row |
| DeskTiles.ReportInside | cmd/agent/desktop_tiles.go:77-121 | at most 96 rectangles, all inside the frame, whatever was compared |
| DeskTiles.ChangedExactly | cmd/agent/desktop_tiles.go:77-121 | a report covers exactly the tiles that changed, without overlap |
| DeskReports.ReportExactly | cmd/agent/desktop_tiles.go:77-121 | nothing is reported if and only if no tile changed, a whole frame if and only if more than 55 percent of the tiles changed or they form more than 96 rectangles, and the exact rectangles otherwise; a change of up to 96 tiles is never too fragmented |
| DeskReports.FirstIsWhole | cmd/agent/desktop_tiles.go:77-95 | the first frame, one of another size and one after a reset are asked for whole |
| TileCodec.EncodeDeskTiles | cmd/agent/desktop_tiles.go:185-217 | head and rectangles in order, or nothing if one cannot be coded |
| TileCodec.ParseJobs | cmd/server/web/js/desktop.js:477-501 | the browser's reading loop, stopping at the first incomplete or empty rectangle |
| TileCodec.MessageReadBack | cmd/agent/desktop_tiles.go:185-217 | size, every rectangle in order and every picture are read back, and the message is used up exactly |
| DeskCanvas.TilesRepaint | cmd/server/web/js/desktop.js:477-512 | painting the message of an exact difference turns the old frame into the new one, and leaves a canvas of another size alone |
| DeskEncoder.EncoderLoop.Look | cmd/agent/desktop_stream.go:753-760 | a change of scale makes the tiler forget before it compares |
| DeskEncoder.EncoderLoop.Shrink | cmd/agent/desktop_stream.go:805-851 | the attempts at a smaller picture in order, stopping below the soft limit |
| DeskEncoder.ShrunkIsLeast | cmd/agent/desktop_stream.go:805-851 | shrinking never lengthens a picture, and misses the soft limit only if every attempt does; the result is then the shortest |
| DeskEncoder.EncoderLoop.SendWhole | cmd/agent/desktop_stream.go:791-860 | a whole frame, or nothing and a tiler that has forgotten |
| DeskLimits.SentAsIs | cmd/agent/desktop_stream.go:797-805 | a picture within 1.4 MiB, or 1.8 MiB while somebody is typing, is sent as it is |
| DeskLimits.WholeFailsExactly | cmd/agent/desktop_stream.go:791-860 | no whole frame is sent if and only if it cannot be coded, or its picture and those of all attempts are over 4 MiB or missing |
| DeskLimits.AttemptsExactly | cmd/agent/desktop_stream.go:810-841 | the attempts stay above scale 0.3 and quality 36; while somebody is typing they are at most two and gentle, otherwise their quality falls from 78 at most |
| DeskEncoder.EncoderLoop.SendChanges | cmd/agent/desktop_stream.go:763-789 | nothing, rectangles, or the whole frame, with the key frame interval |
| DeskEncoder.EncoderLoop.Iterate | cmd/agent/desktop_stream.go:742-860 | one iteration is a step of the encoder |
| DeskReports.SmallChangeSent | cmd/agent/desktop_stream.go:753-785 | while no key frame is due, an unchanged frame sends nothing and a small change sends the rectangles of exactly the tiles that changed |
| DeskSession.WholeIsPicture | cmd/agent/desktop_stream.go:791-860 | whatever whole frame is sent is the scaled frame or that of one of the attempts at a smaller one |
| DeskSession.StepAgrees | cmd/agent/desktop_stream.go:753-860 | every kind of iteration keeps the canvas, if it has the tiler's size, equal to the frame the checksums describe, unless the sizes allow a squeeze |
| DeskSession.NoMixedPicture | cmd/agent/desktop_stream.go:742-860 | over every run of frames whose sizes do not allow a squeeze, with a checksum that tells apart the tiles it compares, the canvas shows one whole captured frame, and the tiler's own when it has its size |
| DeskSession.NoMixedPictureExactSize | cmd/server/web/js/desktop.js:1735-1755 | with exact canvas sizes the same holds without a further condition, pixel for pixel |
| DeskSqueeze.StepSafeExactly | cmd/server/web/js/desktop.js:605-616 | an iteration is safe on every lossless platform and from every agreeing state if and only if its sizes do not allow a squeeze |
| DeskSqueeze.KeyHealsExactly | cmd/server/web/js/desktop.js:605-616 | a delivered whole frame restores the agreement on every lossless platform and from every canvas, lost messages included, if and only if its sizes do not allow a squeeze |
| DeskSqueeze.ExactSizeNeverSqueezes | cmd/server/web/js/desktop.js:1735-1755 | a canvas that takes on every size allows none |
| DeskSqueeze.LargeScreenCanSqueeze | cmd/agent/desktop_stream.go:805-822 | every screen of 7680 by 4320 pixels shown at scale 0.3002 allows one, by the first attempt: 2305 by 1296 pixels against 2304 by 1296 |
| DeskSqueeze.FirstAttemptSent | cmd/agent/desktop_stream.go:805-851 | where the first attempt is the first picture within the soft limit, it is what is sent |
| DeskSqueeze.LargeScreenBreaks | cmd/agent/desktop_stream.go:753-860 | that screen breaks the agreement on every lossless platform whose picture of it is over the soft limit and whose picture of the first attempt is not, unless stretching restores the frame |
| DeskSqueeze.LargeScreenHappens | cmd/agent/desktop_stream.go:753-860 | whatever that screen shows, a lossless platform and a session exist on which the agreement breaks |
| DeskSwitch.OffStepExactly | cmd/agent/desktop_stream.go:753-860 | an iteration without rectangles, on a canvas of any slack that takes on its size, keeps the agreement if and only if its frame does not replace the one remembered |
| DeskSwitch.OffStepKeeps | cmd/agent/desktop_stream.go:753-860 | the same for frames that may be shrunk, one way |
| DeskSwitch.StaleStays | cmd/agent/desktop_stream.go:753-776 | on an unchanged screen nothing is sent, whatever the canvas shows |
| DeskSwitch.OffAndOnLeavesStale | cmd/agent/desktop_stream.go:753-860 | after off and on again the canvas can be wrong for good, in the live view as well |
| DeskSwitch.OffAndOnHappens | cmd/agent/desktop_stream.go:753-860 | one such session, for every checksum and every slack |
| DeskKeyFrames.KeyFollows | cmd/agent/desktop_stream.go:753-860 | in every run, after rectangles the first later iteration past the interval that can send a whole frame sends one, failures in between included |
| SnmpWalk.TakeAll | cmd/agent/collector_snmp.go:283-300 | the bindings of one response, dealt out to the columns that were asked for |
| SnmpWalk.WalkColumns | cmd/agent/collector_snmp.go:245-311 | the walking loop, errors and halved repetitions included |
| SnmpWalk.WalkGenuine | cmd/agent/collector_snmp.go:245-311 | against any responses the walk ends and every value in its table is one that this walk received under the right column and index |
| SnmpWalk.WalkEndsExactly | cmd/agent/collector_snmp.go:245-311 | a walk makes at most 512 requests and fails if and only if its last answer was a failure, an error or "too big" for one repetition; without failure and with requests left, no column goes on |
| SnmpExact.RoundKeeps | cmd/agent/collector_snmp.go:256-309 | a round with at least one full repetition keeps what is known of each column, and every column that goes on has gained a row |
| SnmpExact.WalkExact | cmd/agent/collector_snmp.go:245-311 | against a conforming agent a walk without error returns exactly the agent's table, if the rows and the "too big" answers it gets fit 512 rounds |
| SnmpExact.WalkExactAtOnce | cmd/agent/collector_snmp.go:245-311 | an agent that is never too big has its table read exactly and without error up to the full 512 rows |
| SnmpExact.RetriesBound | cmd/agent/collector_snmp.go:276-282 | there are no more retries than halvings of the repetition count |
| CounterRates.DeltaExactly | cmd/agent/collector_snmp.go:351-367 | for counters of 32 and of 64 bits the true increment is returned if and only if the counter came round less than once and, where the reading fell, it is a 32-bit counter with a plausible increment |
| CounterRates.IntervalExactly | cmd/agent/collector_snmp.go:370-410 | an interval is reported with its true octet rates in both directions if and only if both counters stayed readable, for either width |
| CounterRates.RunExact | cmd/agent/collector_snmp.go:351-410 | over every run of polls of either width no interval is discarded and the reported octets add up to the true totals in both directions |
| CounterRates.WideRunExact | cmd/agent/collector_snmp.go:351-410 | for 64-bit counters every run is exact, however fast they count |
| CounterRates.OtherRatesExactly | cmd/agent/collector_snmp.go:386-403 | a reported interval has the true rate of packets, errors and discards in each direction if and only if that counter could be followed |
| CounterRates.UtilisationExactly | cmd/agent/collector_snmp.go:370-410 | the utilisation is the rate's percentage of the link's speed, 0 if that is not known; an interval that is not valid reports nothing |
| PacketFilter.FilterExact | cmd/agent/collector_sni_linux.go:48-64 | the program accepts exactly IPv4 TCP and UDP and all IPv6, untagged or under one 802.1Q tag, for packets of every length |
| PacketFilter.FilterAgainstParser | cmd/agent/sni_parse.go:35-58 | which of the frames the parser can read the filter lets through |
| NetflowV9.Receiver.ParseTemplate | cmd/agent/collector_netflow.go:387-425 | the templates of a set are stored, within the limits on fields and templates |
| NetflowV9.Receiver.DecodeRecord | cmd/agent/collector_netflow.go:445-490 | the supported fields of one record |
| NetflowV9.Receiver.DecodeV9Data | cmd/agent/collector_netflow.go:429-498 | the records of a data set are added, in order |
| NetflowV9.Receiver.ParseV9 | cmd/agent/collector_netflow.go:354-385 | header and flow sets in order, stopping at a malformed length |
| NetflowRoundTrip.PacketKeepsCache | cmd/agent/collector_netflow.go:354-425 | for every packet the count stays the size of the cache and at most 4096 |
| NetflowRoundTrip.UintRoundTrip | cmd/agent/collector_netflow.go:500-519 | a number below 2^64 is read back from a field of any width |
| NetflowRoundTrip.RecordRoundTrip | cmd/agent/collector_netflow.go:445-490 | decoding an encoded record recovers every supported field and touches nothing else |
| NetflowRoundTrip.UnmentionedEmpty | cmd/agent/collector_netflow.go:437-490 | a recovered record has nothing in the fields its template does not mention, and its times are those of arrival |
| NetflowRoundTrip.DataRoundTrip | cmd/agent/collector_netflow.go:429-498 | an encoded data set yields exactly its records, then whatever its padding decodes to |
| NetflowRoundTrip.PaddingIgnored | cmd/agent/collector_netflow.go:429-498 | padding yields no record if and only if it is shorter than one |
| NetflowRoundTrip.TemplateRoundTrip | cmd/agent/collector_netflow.go:387-425 | a template set is parsed back into its template |
| NetflowRoundTrip.OthersPassedOver | cmd/agent/collector_netflow.go:372-383 | flow sets numbered 1 to 255, options templates among them, do nothing |
| NetflowRoundTrip.PacketRoundTrip | cmd/agent/collector_netflow.go:354-498 | a packet with a template and records under it, among any other flow sets, adds exactly those records and caches the template |
| FlowAggregation.FlowAggregator.Add | cmd/agent/collector_netflow.go:71-110 | merge or insert, evicting first when full |
| FlowAggregation.FlowAggregator.EvictMin | cmd/agent/collector_netflow.go:112-124 | one entry that no other undercuts in bytes goes and is counted |
| FlowAggregation.FlowAggregator.Flush | cmd/agent/collector_netflow.go:126-165 | every resident flow is reported once, and the window is empty |
| FlowAggregation.ReportsTotal | cmd/agent/collector_netflow.go:126-165 | the records handed out carry the bytes and packets of the window |
| FlowAggregation.BookedBalances | cmd/agent/collector_netflow.go:71-165 | in every step added equals reported, resident and evicted together, modulo 2^64 |
| FlowAggregation.RunConserves | cmd/agent/collector_netflow.go:71-165 | the same over every run, wrap-around included, and exactly while the total fits 64 bits |
| FlowAggregation.RunConservesExactly | cmd/agent/collector_netflow.go:71-165 | over every run added traffic is exactly what the records handed out carry, what is resident and what was evicted, if and only if no merge made a counter come round; it is never less |
| FlowAggregation.RunCountsEvictions | cmd/agent/collector_netflow.go:112-165 | `dropped` is the number of evictions since the last flush |
| FlowAggregation.VictimExactly | cmd/agent/collector_netflow.go:112-124 | what eviction deletes is an entry, and a byte-minimal one, if and only if an entry is not saturated or the zero key is there |
| FlowAggregation.AddExactly | cmd/agent/collector_netflow.go:71-124 | a full window keeps its size if there is something to evict, and otherwise outgrows its limit |
| FlowAggregation.RunWithinLimitExactly | cmd/agent/collector_netflow.go:71-124 | over every run the window stays within its limit if and only if it had something to evict whenever it was full |
| FlowAggregation.SaturatedOutgrows | cmd/agent/collector_netflow.go:71-124 | two saturated records outgrow a window of one |
| FlowAggregation.RunWithinLimit | cmd/agent/collector_netflow.go:71-124 | while no entry is saturated the window stays within its limit and each eviction takes a byte-minimal entry |
| FlowAggregation.WindowSummarises | cmd/agent/collector_netflow.go:71-110 | without evictions the window has exactly the added flows, each with its totals, first start, latest end, the union of its flags, and the systems and interfaces of its first record |
| FlowAggregation.RunReports | cmd/agent/collector_netflow.go:71-165 | in every run, a flush hands out exactly one record per flow added since the one before, which sums up its records field by field, unless some were evicted |

## Left out

- Streams of 2^31 bytes and more: the comparisons are then wrong (`ComparisonFaithful`), so only the memory bound is proved there; a slice out of range in the prepend branch is the outcome `ok == false`.
- Shared stream objects: the reassembler keeps connections as values in its table and loads a stream into a `DirStream` object for each packet, so the model does not show two names for one stream.
- Header text, `Content-Encoding`, decompression limits and UTF-8 cleaning are functions (`Headers`) that every result holds for.
- Sharding: runs with eviction, idle sweeps and packets dropped from a full worker queue; the workers' common order of events across connections.
- Idle sweeps: a stuck connection that has become idle also ends each sweep at its parse, which is not shown.
- Directions.EachEndFeedsItsStream: assumes that the two ends differ; of a socket connected to itself every later packet counts as the client's (`LaterDirection`).
- Reporting.ReportsExactly: for streams of which nothing is cut off; what a cut stream holds is `StreamRuns.RunInvariant`.
- Goroutines, locks, sockets, clocks and tickers: only the order of steps that they allow.
- The input pump's injection backend, and pauses between calls.
- Floating point: scales, rates and ratios are reals.
- JPEG, and the browser's drawing at another size, are functions; `Lossless` and `Draws` say what is assumed of them.
- Video codecs, the sparse key frames sent beside video, session ends on a failed write, and the fingerprint that skips identical frames before scaling.
- A missing frame (`nil`) given to the tiler, which the encoder loop never does.
- Messages lost or painted out of order: `KeyHealsExactly` covers recovery from them, not the picture in between.
- DeskSwitch.OffStepKeeps: one way only, because whether a frame is shrunk depends on the length of its picture.
- DeskCanvas.TilesRepaint: models `drawDeskTiles` with pictures decoded and painted in message order, as the code does when all have arrived.
- Parsing of IP and transport headers, DNS and TLS names: addresses are texts and `PacketFilter` models the link layer only.
- BER coding, SNMP authentication, and answers to GETBULK that skip or repeat variables: for those only `WalkGenuine` holds.
- SnmpExact.WalkExact: assumes single-index rows and at least one full repetition in each response.
- NetFlow v5, options templates, templates carried over from other exporters, and the reporting of aggregates.
- Templates whose fields are cut off are stored with the fields that are there, as the code does; records under them are not part of the round trip.
- CounterRates.RunExact: assumes that no counter is reset between polls.
- Redfish, storage, container, process and Hyper-V collectors, self-update, configuration and key maps: no invariant across steps.
