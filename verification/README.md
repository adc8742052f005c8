# FINS/TCP driver: a verified model

A Dafny model of an Omron FINS/TCP driver: the batch read planner, the stream reassembly and
response multiplexing of the transport, the PLC memory the mock server keeps, the frame, address
and value codecs, and the binary-coded decimal codec of the UDP driver. The layers compose: a point
written through the scheduler travels as bytes through both drain loops and the request handler, and
a batch read of it is proved to return what was written.

`dafny verify dfyconfig.toml` checks everything.

## How the files build on each other

| file | what it holds |
|---|---|
| `bytes.dfy`, `bits.dfy`, `areas.dfy`, `types.dfy` | bytes, big- and little-endian numbers, single bits, area codes, points and values |
| `protocol.dfy` | frames, headers, memory commands; encoders that fill a buffer, proved equal to byte functions |
| `stream.dfy` | the drain loop over an accumulator, chunking, resynchronisation |
| `plc.dfy` | five byte arrays with a word and a bit view, the request handler |
| `decoder.dfy`, `address.dfy`, `address_forms.dfy` | the value codec, the address grammar, and what every form of address text parses to |
| `greedy.dfy`, `planner.dfy`, `plan_laws.dfy`, `tie_order.dfy` | the grouping rule and its optimality, the planner's methods, what every plan keeps, and when ties in the sort matter |
| `exchange.dfy`, `scheduler.dfy` | one command through the wire; batch reads and point writes |
| `memory_laws.dfy`, `meaning.dfy` | what the memory commands and the points mean, by word number, bit number and byte position |
| `batch_laws.dfy`, `batch_limits.dfy` | batching refines single reads, and exactly for which points |
| `write_laws.dfy`, `point_laws.dfy` | what a successful write does, alone and to a later batch |
| `mux.dfy` | service ids, the channel map, dispatch and sweep as a step system and as methods |
| `session.dfy`, `session_limits.dfy`, `session_delivery.dfy`, `plc_session.dfy` | one whole connection, end-to-end matching, what goes wrong without the id discipline, when replies are lost, and matching with the PLC as server |
| `bcd.dfy`, `backoff.dfy`, `counters.dfy` | BCD fields, reconnect waits, request counters |

## Findings

Where the code does not do what one would expect, it is modelled as it is, a lemma gives the input,
and another says exactly when the expectation holds.

- A string-form address with a numeric data type is sized by the type in the planner and by its
  length in the decoder. In a batch it can then read text beyond its own words.
  `BatchLaws.BatchRefinesSingle` holds for every point that is `BatchSafe`;
  `BatchLimits.UnsafePointCanDiffer` builds, for every other point, a batch and a memory where it fails.
- Such a point, written as a number, never reads back as that number
  (`PointLaws.NumberReadsBackWhen`, an if-and-only-if).
- Text written to a plain address reads back as one word, with old memory showing through behind a
  text of fewer than two bytes (`PointLaws.PlainTextReadsBack`). It reads back as itself if and only
  if it has at most two bytes, no NUL, and a NUL behind it (`PointLaws.PlainTextReadsBackWhen`).
- The word count of a text is truncated to 16 bits. At a plain address all of it arrives if and only
  if it has at most 131070 bytes (`PointLaws.KeptWhole`), and a string field holds every text truncated
  to its length if and only if that length is at most 131070 (`WriteLaws.FieldHoldsTextWhen`). At 131071
  and 131072 bytes, and every 131072 on, the write reports success and stores nothing
  (`PointLaws.LostText`, `WriteLaws.LostField`).
- A service id that is drawn again while an earlier command with it has not written its request, or
  has it on the wire, lets a command return another command's response. Without such a draw every
  response is the command's own (`Session.EveryReplyIsTheCommandsOwn`); from every reachable
  connected world where the next draw would be one, a mismatch can follow
  (`SessionLimits.DisciplineIsNeeded`). `SessionLimits.StaleReply` and
  `PlcSession.ReadCanReturnAWrite` show that such worlds arise.
- A service id that is drawn again while an earlier command with it has not returned lets that
  command's deferred delete remove the new one's entry: never without such a draw
  (`Mux.NoStolenEntries`), always possible with one (`Mux.RedrawLosesEntry`).
- The BCD overflow check looks at `5 * x` after it may have wrapped, and so sees only the 65th bit of
  the number. Some numbers of `2^65` and more decode silently to their remainder
  (`Bcd.SilentOverflow`); `Bcd.DecodesWithoutErrorWhen` says exactly which.
- Responses can also be lost. In a session without a disconnect whose draws avoid the ids of commands
  that have not returned or are on the wire, the reader finds every command that still waits
  (`SessionDelivery.NoReplyIsLost`); from every reachable connected world where the next draw would not,
  it can drop the response a command waits for (`SessionDelivery.ReplyCanBeLost`).
- How the sort breaks ties can change the number of requests (`TieOrder.TiesCanMatter`). Longer points
  first is always best (`TieOrder.LongestFirstIsBest`), and an order is as good as any if and only if no
  group is led by a point within the limit at an address that also holds an oversized point
  (`TieOrder.BestWhenWellLed`).
- A statistics reset with requests in flight leaves the counters off by that number
  (`Counters.OffByTheDebt`, `Counters.ResetKeepsBalanceWhenIdle`).
- Doubling a retry interval wraps for intervals of `2^62` nanoseconds and more
  (`Backoff.WaitsAreIntendedWhen`).

## Preconditions

The code does not enforce these; the model states them where they are used.

- In batches, addresses, point sizes and the frame limit fit 16 bits (`Planner.Fits`, `limit < 65536`),
  because the planner truncates them to `uint16`. The laws about single writes do without.
- A frame's length fits its 32-bit length field (`Protocol.Sendable`, `Session.Fits`).
- A successful word response carries `2 * count` bytes (`Scheduler.Honest`). The PLC behind the wire
  does that for every request the planner makes (`BatchLaws.MemorySourceIsHonest`,
  `Scheduler.PlanIsAddressed`).
- Point ids are distinct where a law speaks about one point's result in a batch.

## Model

| member | source | states |
|---|---|---|
| `Session.EveryReplyIsTheCommandsOwn` | transport.go:229-372 | In every run of one connection, any interleaving, chunking, timeouts, lost connection and disconnect, in which no id is drawn while an earlier command with it is unwritten or on the wire, a returned response is the server's result for that very command, executed in its place in the order of writing. |
| `SessionLimits.RedrawCanMisdeliver` | transport.go:292-372 | The converse: from every reachable connected world where the next id is that of a command unwritten or on the wire, the draw can go on so that the new command returns the response to another command's request, its own never handled. |
| `SessionLimits.DisciplineIsNeeded` | transport.go:292-372 | The same in terms of the discipline: every draw that is not free can end in a mismatch. |
| `SessionDelivery.NoReplyIsLost` | transport.go:292-306 | In every run without a disconnect whose draws avoid ids of commands that have not returned or are on the wire, a response taken for a command that has not returned is held for that very command. |
| `SessionDelivery.ReplyCanBeLost` | transport.go:292-334 | The converse: from every reachable connected world where the next id is such a one, the draw can go on so that the reader drops the response the new command waits for. |
| `Session.ServerIsSequential` | mock_plc.go:83-131 | In every run, disciplined or not, the i-th request served is the i-th written, and its response is the handler's on the memory all earlier requests left. |
| `Session.WorldStep` | transport.go:229-372 | Every event keeps the session invariant: bytes under way are exactly the unserved requests and the unread responses. |
| `Session.LookUpIsRight` | transport.go:292-306 | The entry a response's id finds belongs to the command whose request it answers. |
| `Session.WindowIsEnough` | transport.go:308-316 | The id discipline holds as long as every command unwritten or on the wire is among the last 254 draws. |
| `SessionLimits.StaleReply` | transport.go:318-372 | Such worlds arise: for every handler and every two commands there is a run where the 256th command returns the response to the first, which timed out. |
| `PlcSession.ReadsSeeEarlierWrites` | mock_plc.go:133-172 | In a disciplined run a returned read gives the words, or the end code, of the memory that exactly the requests written before it left. |
| `PlcSession.ReadCanReturnAWrite` | transport.go:318-372 | Without the discipline a read can return the acknowledgement of a write. |
| `Mux.ChannelsAreOwned` | transport.go:292-306 | In every interleaving, collisions, several readers and sweeps included, a channel is sent to at most once or closed at most once, never both; no send meets a full or closed channel, and none is closed twice. |
| `Mux.NoLeakedEntries` | transport.go:325-334 | Every map entry belongs to a command that has not returned; with none in flight the map is empty. |
| `Mux.SidsRepeatEvery255` | transport.go:308-316 | Ids are never 0, and two draws share one if and only if 255 divides their distance. |
| `Mux.NoStolenEntries` | transport.go:325-334 | In every run whose draws avoid the ids of commands that have not returned, a registration overwrites nothing and a deferred delete removes at most the command's own entry. |
| `Mux.RedrawLosesEntry` | transport.go:325-334 | The converse: from every reachable state where the next id is that of a command that has not returned, the new command can register and lose its entry to the other's deferred delete. |
| `Mux.WindowKeepsEntries` | transport.go:308-334 | Entries are safe while all commands that have not returned are within 255 draws. |
| `Mux.EntryCanBeStolen` | transport.go:325-334 | Such states arise, by 255 draws during one command. |
| `Mux.InvStep` | transport.go:194-372 | Every step of every goroutine keeps the multiplexer invariant. |
| `Mux.StepProvenance` | transport.go:292-372 | A frame in a channel or a result was looked up for that command: no step moves a frame between commands. |
| `Mux.Transport.NextSID` | transport.go:308-316 | The 8-bit counter advances and skips 0. |
| `Mux.Transport.Begin` | transport.go:318-325 | A send draws an id and makes an empty channel: the draw step. |
| `Mux.Transport.RegisterChannel` | transport.go:326-328 | Puts the channel into the map under the id, replacing what is there. |
| `Mux.Transport.WriteFrame` | transport.go:336-351 | The request is written, or the command fails. |
| `Mux.Transport.Await` | transport.go:361-371 | The select: the buffered response, a closed channel, or a timeout. |
| `Mux.Transport.TakeEntry` | transport.go:292-299 | Under the lock, an entry for the frame's id is looked up and deleted. |
| `Mux.Transport.SendHeld` | transport.go:300-305 | A non-blocking send on the channel just looked up. |
| `Mux.Transport.Finish` | transport.go:330-334 | The deferred delete by id, then the return. |
| `Mux.Transport.CloseAll` | transport.go:215-220 | The disconnect loop closes every registered channel exactly once and empties the map, in any order. |
| `Mux.SweepWakes` | transport.go:215-220 | After a disconnect every command that had an entry, once waiting, receives that the connection is closed. |
| `Stream.ChunkingIndependence` | transport.go:229-290 | However the stream is cut into reads, pieces and leftover are those of draining it at once. |
| `Stream.StreamRoundTrip` | transport.go:258-288 | Noise without the magic followed by any encoded frames, in any chunking, gives exactly those frames; nothing is left over. |
| `Stream.DrainAccounts` | transport.go:261-287 | Skipped bytes, frames and leftover add up to the input, for every buffer. |
| `Stream.DrainLeftover` | transport.go:261-287 | The leftover is under 12 bytes or a magic-headed incomplete frame; every piece taken spans what its length field says. |
| `Stream.DispatchIsGenuine` | protocol.go:286-312 | A frame is dispatched if and only if its payload holds a FINS header, and its encoding is the payload. |
| `Stream.TurnStable` | transport.go:261-287 | A decision once taken does not depend on bytes that arrive later. |
| `Stream.FrameReader.Feed` | transport.go:258-288 | One read: the loop terminates on every buffer, dispatches the frames of accumulator plus chunk and keeps the leftover. |
| `Stream.FrameReader.ReadLoop` | transport.go:229-290 | A session of reads dispatches the frames of the whole stream. |
| `Greedy.GreedyIsOptimal` | scheduler.go:209-262 | No contiguous partition of the sorted spans under the gap and frame-limit rule has fewer groups, oversized points included. |
| `Greedy.GreedyIsPartition` | scheduler.go:209-262 | The greedy cuts are such a partition. |
| `Greedy.StaysAhead` | scheduler.go:209-262 | The stay-ahead induction: the greedy scan is never behind another partition. |
| `Greedy.GroupSize` | scheduler.go:226-258 | A group stays within the limit or is as long as its first point, and reads at most the sum of its points plus ten words a merge. |
| `Planner.ScanWords` | scheduler.go:209-262 | The scanning loop computes exactly the greedy groups. |
| `Planner.ScanPoint` | scheduler.go:213-257 | One turn of the loop opens, joins, or closes and opens, keeping the scan invariant. |
| `Planner.SortPoints` | scheduler.go:187-194 | The sort gives an ordered permutation; ties may fall either way. |
| `Planner.CollectLists` | scheduler.go:152-185 | The map holds, for every area and kind, the points of that key in input order, and no empty list. |
| `Planner.ListBits` | scheduler.go:196-207 | Every bit point becomes a request of its own. |
| `Planner.GroupPoints` | scheduler.go:146-266 | The result is a plan: some order of the keys, some sorted arrangement of each list, cut greedily. |
| `PlanLaws.PointsConserved` | scheduler.go:157-265 | The multiset of points over all groups is the multiset of parsed inputs. |
| `PlanLaws.PlanIsSound` | scheduler.go:196-261 | Every group holds one area and one kind, places each point at twice its distance from the start and inside its bytes, ends where its furthest point ends and keeps the size bounds. |
| `PlanLaws.PlanServes` | scheduler.go:157-265 | Every parsed point is in some group. |
| `PlanLaws.WordRequestsMinimal` | scheduler.go:209-262 | For each word list, in the order the sort gave it, no legal grouping uses fewer requests than the planner's. |
| `PlanLaws.TwoPoints` | scheduler.go:230-245 | Two points share a request if and only if the second starts at most ten words behind the first and ends within the limit. |
| `TieOrder.LongestFirstIsBest` | scheduler.go:187-262 | The sorted order with longer points first needs the fewest requests of all sorted orders of the same points, and another needs as few if and only if no group of it is led by a point within the limit at an address that also holds an oversized point. |
| `TieOrder.BestWhenWellLed` | scheduler.go:187-262 | However the sort broke ties, the number of requests is the least over all sorted orders if and only if all groups are so led. |
| `TieOrder.LongestOrder` | scheduler.go:187-194 | The longest-first order of any points exists. |
| `TieOrder.MinimalOverAllOrders` | scheduler.go:187-262 | For such a word list no legal grouping of any sorted order of the same points uses fewer requests than the planner. |
| `TieOrder.TiesDoNotMatter` | scheduler.go:187-262 | Two such orders make the same number of requests, in particular where no oversized point shares its address. |
| `TieOrder.TiesCanMatter` | scheduler.go:187-262 | Otherwise they need not: two points at one address, one over the limit, need two requests or one. |
| `BatchLaws.BatchRefinesSingle` | scheduler.go:64-144 | Over a fixed memory and under every plan, each Good result of a safe point is what reading it alone returns, and with all points in range every result is. |
| `BatchLaws.AloneIsABatchOfOne` | scheduler.go:64-144 | A batch of one gives the point's own reading under every plan. |
| `BatchLaws.DecodeShift` | scheduler.go:290-319 | Cutting a point out of the shared buffer is decoding its own words. |
| `BatchLimits.UnsafePointCanDiffer` | scheduler.go:217-224 | Every point that is not safe has a partner and a memory with which it reads as a different, longer text. |
| `Scheduler.ResultKeys` | scheduler.go:64-144 | The result's keys are exactly the input ids, whatever the group order and the read failures. |
| `Scheduler.CollectOrigin` | scheduler.go:96-141 | Each result comes from a group that holds its id; ids without one keep what they had. |
| `Scheduler.PlanIsAddressed` | scheduler.go:146-266 | Every request planned for points as the caller gives them is for bits or for words of a word area, and not empty. |
| `BatchLaws.MemorySourceIsHonest` | mock_plc.go:208-260 | The PLC behind a transparent link answers every such request with the bytes it asks for. |
| `Scheduler.NoPanic` | scheduler.go:290-319 | With sound groups and full responses no slice leaves the data. |
| `Scheduler.PointScheduler.ReadPoints` | scheduler.go:64-144 | A batch read returns the results of a plan for its points; the total grows by its requests, success by the number of those answered, failure by the number of those not. |
| `Scheduler.PointScheduler.ParseAll` | scheduler.go:71-92 | Every address is parsed and those that fail are Bad from the start. |
| `Scheduler.PointScheduler.ReadGroups` | scheduler.go:96-141 | The request loop: each answered request counts as a success, each other one as a failure. |
| `Scheduler.SuccessesCount` | scheduler.go:110-122 | The running count is the number of requests answered, and the rest are those not answered. |
| `Scheduler.PointScheduler.TakeGroup` | scheduler.go:112-140 | Stores a value for each point of one group, Bad for all of them after a failed read. |
| `Scheduler.PointScheduler.WritePoint` | scheduler.go:321-373 | The write's memory, error and counters: one total, and one success or one failure on every path. |
| `PointLaws.WriteThenBatchRead` | scheduler.go:321-373 | After a successful write over the wire a batch read of any in-range points, under every plan, returns the stored value for that point. |
| `PointLaws.WriteAndReadBack` | scheduler.go:64-373 | The scheduler's own write and batch read, one after the other over the wire: without an error from the write the batch returns the stored value, under the input ids, and every request is counted once. |
| `PointLaws.ValueThroughTheDriver` | scheduler.go:64-373 | Every well-formed address, word, bit or string field, in canonical text and with a type that goes with it, takes every value of that type if its place exists, and a read by that text returns what was stored. |
| `PointLaws.NumberThroughTheDriver` | scheduler.go:64-373 | For numbers that is the number itself. |
| `PointLaws.StoredAsIs` | decoder.go:142-394 | The stored value is the written one for bits, for integers and float patterns of the data type, and for text that fits without a NUL. |
| `PointLaws.OthersInBatchUnchanged` | scheduler.go:321-373 | Every point in other words reads in a batch as before the write. |
| `PointLaws.NumberReadsBackWhen` | scheduler.go:301-307 | A written number reads back as itself if and only if the address is not in string form. |
| `PointLaws.PlainTextReadsBack` | scheduler.go:354-368 | After every successful write of text to a plain address the point reads as the first word of what was kept of it, old memory showing behind a shorter text, cut at the first NUL; past the end of the area it reads as Bad. |
| `PointLaws.PlainTextReadsBackWhen` | scheduler.go:354-368 | It reads back as itself if and only if the word exists, the text has at most two bytes and no NUL, and a NUL follows a shorter text in memory. |
| `PointLaws.KeptWhole` | scheduler.go:354-356 | With the 16-bit word count, all of a plain text is sent to memory if and only if it has at most 131070 bytes. |
| `PointLaws.LostText` | scheduler.go:354-368 | A text whose word count wraps to zero is reported as written and changes nothing. |
| `WriteLaws.WrittenIsDirect` | scheduler.go:321-373 | A write succeeds if and only if the value suits the type and the area has the place; a failed write changes nothing. |
| `WriteLaws.BitReadsBack` | scheduler.go:338-353 | A written bit reads back. |
| `WriteLaws.NumberReadsBack` | scheduler.go:354-368 | A written number reads back as its conversion to the data type. |
| `WriteLaws.TypedValueReadsBack` | decoder.go:142-298 | Every typed integer and float bit pattern reads back as itself. |
| `WriteLaws.TextReadsBack` | scheduler.go:354-368 | After every successful write text in a string field reads back as the part of the padded field its 16-bit word count covers, cut at the first NUL. |
| `WriteLaws.FieldHoldsTextWhen` | scheduler.go:356-363 | That is every text truncated to the field length and cut at the first NUL if and only if the length is at most 131070. |
| `WriteLaws.LostField` | scheduler.go:356-368 | A field whose word count wraps to zero is reported as written, stored nowhere, and reads as empty text. |
| `WriteLaws.OthersUnchanged` | mock_plc.go:262-312 | After any write, failed or not, a point in other words reads as before. |
| `WriteLaws.OtherBitsUnchanged` | mock_plc.go:289-308 | A bit write leaves every other bit, of the same word too, as it was. |
| `WriteLaws.AloneIsDirect` | scheduler.go:268-319 | A single read through all layers is what the memory holds at the point's place. |
| `Exchange.TransactIsHandle` | transport.go:318-372 | Encoding, both drain loops and decoding are transparent: a command meets the handler and its response comes back. |
| `Exchange.WireIsTransparent` | transport.go:374-449 | The memory operations do to the memory what they say and report it. |
| `Exchange.RequestOfRead` | protocol.go:427-435 | A read command decodes on the server to its address and count. |
| `Exchange.RequestOfWrite` | protocol.go:437-444 | A write command decodes on the server to its address, count and data. |
| `Plc.ByteViewIsWordView` | mock_plc.go:236-256 | The byte and bit indices pick bit (pos mod 16) of the big-endian word (pos div 16). |
| `Meaning.BitIsOfItsWord` | mock_plc.go:236-250 | A bit point reads as the bit of that number of the word at its address. |
| `Meaning.BitIsStored` | mock_plc.go:289-308 | A bit write succeeds where the word exists, sets that bit of that word, and leaves every other bit of every word of every area. |
| `Meaning.BitsOfAWrittenNumber` | mock_plc.go:208-312 | A number written to a word shows in the bits read from it. |
| `MemoryLaws.BitReadLaw` | mock_plc.go:230-256 | A bit command returns the bits from bit `bitOffset` of the addressed word on, over word borders, or refuses with 1104 as a whole. |
| `MemoryLaws.BitWriteLaw` | mock_plc.go:283-309 | A bit write sets as many bits as it has data bytes, at most the count, and leaves every other bit of every area. |
| `MemoryLaws.WordReadLaw` | mock_plc.go:209-228 | A word command returns the addressed words, big end first, or refuses with 1104. |
| `MemoryLaws.WordWriteLaw` | mock_plc.go:266-281 | A word write stores as much of the data as the words hold and touches nothing else. |
| `MemoryLaws.UnknownAreaLaw` | mock_plc.go:208-312 | Areas the PLC does not keep are refused with 0402. |
| `MemoryLaws.OtherRequests` | mock_plc.go:133-172 | Short memory commands, status requests and unknown commands get their end codes and leave the memory as it is. |
| `MemoryLaws.ReadBitsLaw` | transport.go:406-425 | Bits read through the connection are the bits of the words, in order, for any count. |
| `MemoryLaws.WriteBitsIs` | transport.go:427-449 | Bits written through the connection are the server's bit write of one byte each. |
| `MemoryLaws.BitsReadBack` | transport.go:406-449 | Any number of bits just written come back. |
| `Plc.PutBitsReads` | mock_plc.go:289-308 | A bit write sets exactly the addressed bits and leaves all others. |
| `Plc.BitsDetermineArea` | mock_plc.go:236-256 | Two areas with the same bits are the same bytes: the views are one memory. |
| `Plc.MockPlc.ReadMemory` | mock_plc.go:208-260 | Reads the arrays as the memory function does. |
| `Plc.MockPlc.ReadBits` | mock_plc.go:236-256 | The bit loop stays in bounds and returns the bits of the word view. |
| `Plc.MockPlc.WriteMemory` | mock_plc.go:262-312 | Updates the arrays in place to the written memory. |
| `Plc.MockPlc.WriteWordArea` | mock_plc.go:265-281 | The word branch: the copy, or the end code of an unknown area or exceeded range. |
| `Plc.MockPlc.WriteBitArea` | mock_plc.go:283-309 | The bit branch with its own bounds check. |
| `Plc.MockPlc.WriteBits` | mock_plc.go:289-308 | The bit loop changes one array, to the memory with those bits put. |
| `Plc.MockPlc.HandleRequest` | mock_plc.go:133-172 | The response and the new arrays are those of the handler function. |
| `Protocol.TcpRoundTrip` | protocol.go:239-284 | A framed payload decodes to itself, whatever follows it. |
| `Protocol.FinsRoundTrip` | protocol.go:286-336 | Decoding an encoded frame gives the frame. |
| `Protocol.FinsRoundTripBack` | protocol.go:286-336 | Encoding a decoded frame gives the bytes. |
| `MemoryLaws.WireLayout` | protocol.go:271-336 | Every byte of a frame on the wire, by its position. |
| `MemoryLaws.CommandLayout` | protocol.go:427-444 | Every byte of the two memory commands. |
| `MemoryLaws.RepliesGoBack` | protocol.go:354-377 | A request goes from source to destination and its response the other way, under the same id and command code. |
| `Protocol.EncodeFinsTcpFrame` | protocol.go:271-284 | The buffer is filled with the header and payload bytes. |
| `Protocol.EncodeFinsFrame` | protocol.go:314-336 | The buffer is filled with header, command code, end code and data. |
| `Protocol.EncodeReadCommand` | protocol.go:427-435 | The buffer is filled with the read command. |
| `Protocol.EncodeWriteCommand` | protocol.go:437-444 | The buffer is filled with the write command and its data. |
| `Decoder.ValueRoundTrip` | decoder.go:142-394 | Every typed number survives encoding and decoding in either byte order, extra bytes or not. |
| `Meaning.NumberIsItsWords` | decoder.go:300-372 | A number of any type at a word address reads as the big-endian words at its address, signed types in two's complement, one-byte types from the high byte. |
| `Meaning.NumberIsStored` | decoder.go:142-280 | After a successful write those words hold the number, reduced to the width and sign of the type. |
| `Meaning.DecodedNumber` | decoder.go:300-372 | Outside the L order a number decodes from its bytes big end first. |
| `Meaning.LowOrderReverses` | decoder.go:154-157 | The L order of string-form addresses writes and reads the bytes reversed. |
| `Meaning.AcceptedWhenItSuits` | decoder.go:142-298 | A value is accepted if and only if it has the data type's Go type, or is a float64 for a numeric type. |
| `Meaning.Float64ReadsBack` | decoder.go:160-272 | A float64 written to a numeric point reads back as its conversion reduced to the width and sign of the type. |
| `Meaning.TextIsItsBytes` | decoder.go:374-383 | A string field reads as the bytes from the start of its word on, cut at the first NUL. |
| `Meaning.CutAtFirstNul` | decoder.go:379-382 | The cut keeps everything before the first NUL and nothing after. |
| `Meaning.OutOfRangeIsBad` | mock_plc.go:208-228 | A word point whose words do not all exist reads as Bad. |
| `Meaning.WriteErrors` | scheduler.go:321-341 | A write fails for its address exactly when that does not parse, and for its value exactly when that does not suit. |
| `Decoder.TextOfField` | decoder.go:281-292 | A text field decodes to the text truncated to the field and cut at the first NUL. |
| `Decoder.CutNulIdentity` | decoder.go:374-383 | Cutting changes a text if and only if it holds a NUL. |
| `Address.MatchIsThePattern` | decoder.go:64-76 | The scanner accepts exactly the texts of the address pattern. |
| `Address.ParseIsWellFormed` | decoder.go:66-140 | Every accepted text gives a word, a bit 0..15 or a string field of positive length, exclusively, with a word area code. |
| `Address.CanonicalRoundTrip` | decoder.go:66-140 | The canonical text of every such record parses back to it. |
| `AddressForms.WordForm` | decoder.go:95-111 | An area and a number in decimal are that word address, as long as the number fits an int. |
| `AddressForms.DotForm` | decoder.go:112-137 | A dot and a number up to 15 are a bit in every area; above 15 a string field in the low order in D and refused elsewhere. |
| `AddressForms.OrderForm` | decoder.go:112-126 | With H or L it is a string field of that length and order where the area holds strings and the length is positive, and refused otherwise. |
| `AddressForms.UnknownBank` | decoder.go:44-48 | EM banks above 15 are refused as unsupported. |
| `AddressForms.BareEMForm` | decoder.go:64-86 | Without W an EM address gives its last digit to the number. |
| `AddressForms.NotAnAddress` | decoder.go:69-72 | Any text that is no instance of the pattern is refused as invalid. |
| `AddressForms.CaseAndSpace` | decoder.go:67 | Lower case and surrounding spaces make no difference. |
| `AddressForms.AreaTable` | decoder.go:33-49 | The code of every area, its bit code, and the PLC memory each names. |
| `AddressForms.DigitWeights` | decoder.go:90-93 | Numbers are decimal: each digit weighs ten times the next. |
| `AddressForms.ExampleText` | decoder.go:64 | The text of the form with area D, number 0 and dot 20 is `D0.20`. |
| `Bcd.EncodeBcd` | udp/driver.go:142-163 | The encoder writes the packed decimal digits of its argument. |
| `Bcd.EncodedField` | udp/driver.go:142-163 | Byte by byte: the earlier of two decimal digits in the high half, the later in the low half, 0xf behind an odd last one. |
| `Bcd.DecodeBcd` | udp/driver.go:173-195 | The outcome in terms of the numbers the prefixes denote: the remainder if every digit is accepted, else the error of the first that is not. |
| `Bcd.BcdRoundTrip` | udp/driver.go:142-195 | Decoding an encoded number gives it back, for every 64-bit number. |
| `Bcd.FieldRoundTrip` | udp/driver.go:142-195 | Encoding a decoded field gives it back if and only if it has no superfluous leading zeros. |
| `Bcd.SmallValuesDecode` | udp/driver.go:173-195 | Every digit string of any length that denotes a number below 2^64 decodes to it. |
| `Bcd.DecodesWithoutErrorWhen` | udp/driver.go:173-195 | A decimal string decodes to its value's remainder by 2^64 if every prefix, and ten times every proper prefix, has an even quotient by 2^64, and is refused for overflow otherwise. |
| `Bcd.CheckSeesOneBit` | udp/driver.go:165-171 | The overflow check passes if and only if the 65th bit is clear both in 10x and in 10x plus the digit. |
| `Bcd.OddPrefixRefused` | udp/driver.go:173-195 | A prefix with an odd quotient by 2^64 is refused, whatever its size. |
| `Bcd.JustTooLarge` | udp/driver.go:165-171 | Numbers from 2^64 up to 2^65 are always refused. |
| `Bcd.StepIsExactWhen` | udp/driver.go:165-171 | One digit step is right if and only if 5x stays within 64 bits or the wrapped product still trips the check. |
| `Bcd.MissedOverflow` | udp/driver.go:165-171 | A digit slips through whenever 5x wrapped to something small. |
| `Bcd.SilentOverflow` | udp/driver.go:165-195 | A twenty-digit number that decodes to 8. |
| `Backoff.WaitsAreIntendedWhen` | transport.go:484-503 | Wait k is retryInterval for k = 0 and min(retryInterval * 2^k, maxBackoff) after, for every k, if and only if doubling cannot wrap. |
| `Backoff.TotalWait` | transport.go:484-503 | The waits add up to at most retryInterval + (maxRetries - 2) * maxBackoff. |
| `Backoff.Reconnector.Reconnect` | transport.go:480-506 | At most maxRetries connects, the waits in between, the first success ends the loop and is counted, and the last failure is not followed by a wait. |
| `Counters.CountersConserve` | scheduler.go:99-122 | With resets only when idle, every interleaving keeps total = success + failure + in flight outside a reset. |
| `Counters.OffByTheDebt` | scheduler.go:398-402 | With resets at any moment the counters are off by exactly the requests in flight at the reset less those it cleared afterwards. |
| `Counters.ResetKeepsBalanceWhenIdle` | scheduler.go:398-402 | An undisturbed reset keeps the balance if and only if nothing is in flight. |

## Left out

- Sockets, deadlines, contexts, timers, goroutine start-up and the heartbeat: a timeout is a step that may happen at any time.
- A request write that fails is taken to put no bytes on the wire; a partial write would desynchronise the server.
- Connected and closed flags across reconnects: an old reader shares them with a new one. Within a session a draw or a write may come after the connection is lost. Channel ownership is proved for any number of readers and sweeps, matching for one connection.
- Configuration loading, metrics, health, delegation in `fins.go` and the end-code texts: plumbing and tables.
- Conversion of a float64 to a narrower number: results outside the target range are open in the language, so it is a parameter; floats are bit patterns.
- Read-only areas, which writes never consult, and the F area, which the address pattern never produces.
- `SetWord` and `GetWord` of the mock PLC, whose 16-bit index wraps at the last DM word; memory laws are about `readMemory` and `writeMemory`.
- The UDP client and server other than their BCD codec, and the programs under `cmd/`.
- The minimum interval between requests and time stamps of values.
- Wrap-around of the 64-bit request counters, and two statistics resets at the same time: a reset starts when no other is under way.
- Unicode beyond what the address grammar can accept: upper-casing and trimming are modelled on the characters that can occur in an accepted text.
- Bit data types with word addresses: such a write is refused by the encoder; such a read asks for bit 255 of the word, and the model follows it.
- Planner.SortPoints: the library's choice among equal addresses is left open, so every law holds for all of them.
- Exchange.WireIsTransparent: covers the two memory commands; the status command is in the handler only.
