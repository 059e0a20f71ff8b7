# A Dafny model of spindly

spindly is a SPDY framing and multiplexing library without network I/O: the
application moves the bytes. This project models what the library keeps in
memory and proves what its parts promise each other.

| file | models |
|---|---|
| `Bytes.dfy`, `Status.dfy` | byte order (`src/spdy_bytes.h`), result codes (`include/spindly.h`) |
| `IntrusiveList.dfy`, `StreamHash.dfy` | the pointer list of `src/list.c`, the id table of `src/hash.c` |
| `NvFormat.dfy`, `NvLaws.dfy`, `CHeap.dfy`, `NvBlock.dfy` | name/value blocks (`src/spdy_nv_block.c`): format, laws, malloc and free, the code |
| `FrameFormat.dfy`, `FrameLaws.dfy`, `ResumeLaws.dfy`, `FrameParsers.dfy` | frames: format, printing against parsing, parsing in pieces, the code |
| `Reassembly.dfy`, `Interleaved.dfy`, `Receiver.dfy`, `AsWritten.dfy` | incoming chunks and demultiplexing: corrected, for data frames and for data frames mixed with SYN_STREAMs and SYN_REPLYs; corrected on the heap; and as the program stands |
| `Endpoint.dfy`, `EndpointLaws.dfy`, `Handshake.dfy` | one end on values, its runs, two ends and their handshake |
| `Inbound.dfy` | incoming chunks, their parsing and its dispatch to streams, together |
| `Sender.dfy`, `Streams.dfy`, `Connection.dfy` | the heap objects of one end: buffer pool, streams, the calls on them |

The code that works step by step is modelled by classes and methods over
pointers, arrays and fields. Each such method is proved to be one step of a
function on values, and the laws are lemmas about those functions: about every
input, every cut of a byte stream, and every run of calls. Throughout,
`Xyz.View()` is the value an object stands for.

Machine words carry explicit bounds; masks, shifts and 32-bit wrap-around are
written as `%` and `/`. `Abort` is not a result code: it stands for an `assert`
or a pointer that leads nowhere, which stop the program. Deflating and inflating are opaque: the deflated
empty name/value block, or the error, is an argument of the call that packs, and
how inflating ends is an argument of the call that parses.

## Where the program does not do what it is meant to

Each of these is proved, with the exact condition under which all is well.

- Demultiplexing (`src/spindly_phys.c:197-402`). `AsWritten.DemuxAsWritten` is
  the program as it stands. For a stream of data frames in non-empty chunks
  `AsWritten.AsWrittenIff` says exactly in which runs every call answers, and
  leaves the connection, as it is meant to, and frees each copied chunk it drops.
  `SecondMessageLost`, `SplitFrameFaults` and `FlagDecides` give inputs that
  fail; the last is a single frame in a single chunk, whose fate hangs on the
  `copied` flag that nobody assigns (`src/spindly_phys.c:165-183, 255-256`).
  The list node of a chunk is never freed: a call loses one exactly when it is
  done with a chunk, and a run one for each chunk that left the queue
  (`NodeLostIff`, `EveryNodeIsLost`).
  `Reassembly.Demux` and `Receiver.Receiver.Demux` carry these corrections:
  the merge buffer that `realloc` returns is kept (line 215 drops it, so
  `phys->parse` is never assigned); the merged length is what was unread plus the
  next chunk (line 211 adds `data->needed`); the first chunk is dropped on a
  merge only if the window still reads it (lines 231-232), and whenever it is
  used up, not only after a whole message (lines 290-293 read it again, 379-381
  may drop it twice); dropping a chunk frees no buffer of the application; an
  empty queue yields no message (line 293 dereferences it); the frame starts
  afresh after a message (373-383 leave it as it was).
- A data frame with stream id 0 cannot be interrupted after its header, because
  0 also means "header not read" (`ResumeLaws.ResumeDataIff`).
- A control frame whose name/value block inflates to too little answers that the
  window is too short, with the cursor past the fixed part; whatever follows is
  then read from the wrong place. A SYN_REPLY that declares no byte always does
  (`ResumeLaws.CutBlockAsksForMore`). Such a frame can be interrupted exactly
  before its block is reached (`ResumeLaws.ResumeControlIff`, `PiecesDoNotMatter`).
- The inflater is handed as many bytes as the whole frame declares, from after
  the fixed part on: they lie in the window exactly when as many bytes as the
  fixed part has follow the frame (`ResumeLaws.HandedInWindowIff`).
- A whole SYN_STREAM that declares fewer than 12 bytes, or a SYN_REPLY that
  declares fewer than 8, is not delivered until bytes of the next frame are there
  (`Interleaved.WholeFrameWaitsIff`).
- Printed data headers lose bits 28 to 30 of the id, and lengths above 24 bits
  (`FrameLaws.DataHeaderPrinted`); priorities lose their third bit, and a packed
  SYN_STREAM or SYN_REPLY declares length 10 whatever its block, so that the
  parser stops where the frame ends only for a block of 0 or 4 bytes
  (`FrameLaws.SynStreamCarried`, `SynReplyCarried`).
- An accepted SYN_STREAM that declares fewer than 10 bytes, or SYN_REPLY that
  declares fewer than 6, moves the cursor past the end of the window
  (`FrameLaws.ShortSynOverruns`). One is accepted when what it declares inflates
  to a whole block (`ShortStreamAccepted`, `ShortReplyAccepted`), and never when
  it declares nothing (`NothingDeclared`).
- A buffer whose deflated block does not fit is in no list any more
  (`EndpointLaws.OutgoingFidelity`); none is lost while blocks have at most 110
  bytes (`NoBufferLost`).
- Reporting 0 bytes sent with nothing outstanding stops the program
  (`EndpointLaws.ReportStopsIff`), and so does parsing a name/value block again
  after its array could not be allocated, as soon as a name is there
  (`NvBlock.Block.Parse`).
- The result of entering a stream in the id table is ignored, so a stream whose
  id is taken is listed but cannot be found (`EndpointLaws.RegistryIff`,
  `UnfairPeer`).
- A request accepted is followed by clearing a control frame on the stack whose
  type nobody assigned (`src/spindly_stream.c:80, 96, 168`); if that happens to be
  SYN_STREAM, pointers nobody assigned are freed (`EndpointLaws.UnassignedTypeIff`).
- The code of a failed dispatch is set and then dropped
  (`src/spindly_phys.c:319-323, 340, 383`): the application never hears of a reply
  for an unknown id (`EndpointLaws.DispatchErrorUnseen`, `UnknownIdUnseen`).
- Acknowledging a stream this side made sends a SYN_REPLY for id 0, which stops
  the peer (`Handshake.AckIff`, `ZeroReplyStops`).
- A name/value block round-trips exactly when its count and lengths fit 16 bits
  and it holds no NUL (`NvLaws.RoundTrip`), although the documentation of
  `struct spindly_header_pair` (`include/spindly.h:73-83`) allows NULs.
- The manual page (`doc/spindly_phys_outgoing.3:20`) promises data in priority
  order; the code hands out packets in the order they were packed, which is
  priority order exactly when streams were made in that order
  (`EndpointLaws.UrgentFirstIff`, `UrgentStreamWaits`).

## Model

| member | source | states |
|---|---|---|
| `IntrusiveList.ListHead.Add` | src/list.c:35-55 | appends the node at the end whatever its three link fields held, keeping first, last, next, prev and head consistent |
| `IntrusiveList.Remove` | src/list.c:76-87 | deletes the node at any position of the list its back-pointer names; the node's own links stay stale |
| `IntrusiveList.Undisturbed` | src/list.c:28-87 | a list none of whose nodes was written is intact, whatever happened to lists that share its node type |
| `StreamHash.TableCut` | src/hash.c:90-103 | unlinking the one node of an id deletes exactly that id from the map the list stands for |
| `StreamHash.TableSize` | src/hash.c:67-88 | one node per id: as many nodes as ids |
| `StreamHash.Hash.Get` | src/hash.c:51-65 | the scan finds the node of an id exactly when the map has it, with the map's pointer |
| `StreamHash.Hash.Store` | src/hash.c:67-88 | insert if absent; an id already there is refused and keeps its pointer |
| `StreamHash.Hash.Remove` | src/hash.c:90-103 | map deletion, refused for an absent id |
| `StreamHash.Hash.Destroy` | src/hash.c:105-116 | ends with no node and the empty map |
| `Bytes.BigEndian` | src/spdy_bytes.h:8-19 | a stored word is read off its bytes, the first the most significant |
| `NvLaws.ReadWritten` | src/spdy_nv_block.c:245-288 | reading a printed block with anything after it gives the pairs as printed and stops at the end of the block |
| `NvLaws.StringForm` | src/spdy_nv_block.c:278-281 | a printed string byte by byte: its length up to the first NUL, cut to 16 bits and the high byte first, and as many of its bytes |
| `NvLaws.BlockForm` | src/spdy_nv_block.c:269-286 | a printed block: the count, high byte first, then the pairs in order |
| `NvLaws.RoundTrip` | src/spdy_nv_block.c:94-196 | reading a printed block gives the block back if and only if count and lengths fit 16 bits and no string has a NUL |
| `NvLaws.SizePasses` | src/spdy_nv_block.c:250-258 | the size of the first pass is never too small, and equals the bytes of the second exactly when no length is cut to 16 bits |
| `NvLaws.Rewritten` | src/spdy_nv_block.c:269-286 | printing a block that was read reproduces the bytes it came from if and only if it holds no NUL |
| `NvLaws.StrictPrefix` | src/spdy_nv_block.c:132-195 | cut anywhere, a block reads as insufficient data with exactly the pairs that lie wholly before the cut |
| `NvLaws.ResumeMany` | src/spdy_nv_block.c:103-133 | any number of interruptions, each resumed at the first unfinished pair, gives the one-shot result |
| `NvBlock.Block.ParsePair` | src/spdy_nv_block.c:133-193 | one turn of the parser loop on bounded memory: the pair read, or nothing allocated; out of memory exactly when memory was refused |
| `NvBlock.Block.Parse` | src/spdy_nv_block.c:94-196 | reads only the given bytes and gives the format's result; out of memory exactly when memory was refused, and exactly when it stops the program; in every outcome the live allocations that are the block's are its array and both strings of each finished pair, and no other changed |
| `NvBlock.Block.Destroy` | src/spdy_nv_block.c:295-307 | frees each of those once and nothing else |
| `NvBlock.Block.Pack` | src/spdy_nv_block.c:245-288 | for any block whose pairs are filled in, by the parser or by hand: a buffer of the first pass's size whose front is the printed block; out of memory exactly when memory was refused |
| `NvBlock.Block.ParsedIsFilled` | src/spdy_nv_block.c:133-195 | a block parsed to its end is such a block, and its pairs are the pairs parsed |
| `FrameLaws.DataHeaderPrinted` | src/spdy_data_frame.c:95-109 | a printed data header reads back modulo 2^28 and 2^24, and whole exactly below those bounds |
| `FrameLaws.DataHeaderReprinted` | src/spdy_data_frame.c:29-50 | printing a header that was read gives its bytes again exactly when its top four bits were clear |
| `FrameLaws.ControlHeaderPrinted` | src/spdy_control_frame.c:144-161 | a printed control header reads back whole exactly for 15-bit versions and 24-bit lengths |
| `FrameLaws.ControlHeaderReprinted` | src/spdy_control_frame.c:34-60 | printing a header that was read gives its bytes again exactly when the type bit was set |
| `FrameLaws.PrintedDispatch` | src/spdy_frame.c:25-35 | a printed header is sent to the parser of its kind; for data, exactly for 31-bit ids |
| `FrameLaws.SynStreamCarried` | src/spdy_syn_stream.c:52-73 | a packed SYN_STREAM is parsed with 31-bit ids and the priority modulo 4, up to its end only for an empty block |
| `FrameLaws.SynReplyCarried` | src/spdy_syn_reply.c:27-42 | a packed SYN_REPLY is parsed with a 31-bit id, up to its end only for a block of four bytes |
| `FrameLaws.MadeBytes` | src/spdy_control_frame.c:255-291 | the frames this program makes, byte by byte: version 2, type, length 10, ids, two bits of priority, block |
| `FrameLaws.MadeFramesPack` | src/spdy_control_frame.c:180-207 | such a frame is packed exactly when the buffer holds 18 bytes and the block, and the code otherwise; a SYN_STREAM takes all of that, a SYN_REPLY four bytes less |
| `FrameLaws.PackedIff` | src/spdy_control_frame.c:173-211 | the same for any frame, with the sum that wraps at 2^32, and exactly when packing stops the program |
| `FrameLaws.RequestVerdict` | src/spdy_syn_stream.c:87-142 | a whole SYN_STREAM: the ids and priority bits read from its bytes, which of its faults is answered, and where the cursor is then |
| `FrameLaws.ReplyVerdict` | src/spdy_syn_reply.c:55-93 | a whole SYN_REPLY, likewise |
| `FrameLaws.OtherVerdict` | src/spdy_control_frame.c:95-132 | a frame of a type without a parser is accepted, its payload left unread |
| `FrameLaws.OpaqueVerdict` | src/spdy_control_frame.c:114-130 | RST_STREAM answers as its parser does and moves no cursor; HEADERS has one code for every fault |
| `FrameLaws.ShortSynOverruns` | src/spdy_syn_stream.c:139-141 | the cursor of an accepted SYN_STREAM or SYN_REPLY stays in the window exactly when the declared length covers the fixed part |
| `FrameLaws.NothingDeclared` | src/spdy_zlib.c:182-192 | a SYN_STREAM or SYN_REPLY that declares no byte is not accepted |
| `FrameLaws.ShortStreamAccepted` | src/spdy_syn_stream.c:98-141 | a SYN_STREAM that declares 9 bytes, and whose block inflates, is accepted with the cursor 2^32 bytes too far |
| `FrameLaws.ShortReplyAccepted` | src/spdy_syn_reply.c:63-92 | a SYN_REPLY that declares 5 bytes, likewise |
| `ResumeLaws.ResumeDataIff` | src/spdy_data_frame.c:29-84 | a complete data frame may be interrupted at a point exactly when that is before its header, after its end, or its id is not 0 |
| `ResumeLaws.ResumeControlIff` | src/spdy_control_frame.c:70-133 | a control frame may be interrupted at a point exactly when its block inflates to whole pairs or the first call does not get to inflating it |
| `ResumeLaws.CutBlockAsksForMore` | src/spdy_nv_block.c:199-230 | a SYN_REPLY that declares nothing, with all the parser insists on: whatever zlib does it asks for more, and cannot go on |
| `ResumeLaws.HandedInWindowIff` | src/spdy_syn_stream.c:130-133 | the bytes handed to the inflater lie in the window exactly when as many bytes as the fixed part follow the frame |
| `ResumeLaws.Resume` | src/spdy_frame.c:45-82 | short of that, stopping a frame of either kind at any point and going on with the unused bytes gives the one-shot result; a final answer stands when more bytes follow |
| `ResumeLaws.PiecesDoNotMatter` | src/spdy_frame.c:45-82 | for any list of pieces the last call answers as one call on all bytes so far would, exactly when no earlier piece got to inflating a block that is too short |
| `ResumeLaws.Gate` | src/spdy_control_frame.c:70-93 | until the declared bytes are there no payload field changes, `needed` is the exact shortfall, and fewer bytes change nothing |
| `ResumeLaws.ThreeCalls` | src/spdy_data_frame.c:59-84 | a caller that supplies just the bytes asked for has the frame within three calls and has supplied exactly the frame |
| `FrameParsers.Window.Use` | src/spdy_data.c:14-22 | the window is the given bytes, all unread |
| `FrameParsers.DataFrame.Parse` | src/spdy_data_frame.c:59-84 | one step of the data parser: code, fields, cursor and `needed` |
| `FrameParsers.DataFrame.PackHeader` | src/spdy_data_frame.c:95-109 | writes the eight header bytes and nothing else, or nothing |
| `FrameParsers.ControlFrame.ParseHeader` | src/spdy_control_frame.c:34-60 | one step of the control header parser; a header is decoded once |
| `FrameParsers.ControlFrame.ParseSynStream` | src/spdy_syn_stream.c:87-142 | one step: the length checks in order, the duplicate-id check, the cursor in 32-bit arithmetic |
| `FrameParsers.ControlFrame.ParseSynReply` | src/spdy_syn_reply.c:55-93 | one step, likewise |
| `FrameParsers.ControlFrame.Parse` | src/spdy_control_frame.c:70-133 | one step of the control parser with its dispatch on type |
| `FrameParsers.ControlFrame.PackHeader` | src/spdy_control_frame.c:144-161 | writes the eight header bytes and nothing else, or nothing |
| `FrameParsers.ControlFrame.PackBody` | src/spdy_syn_stream.c:147-182 | success exactly when ten bytes and the block fit; writes fixed part and block, never past the buffer |
| `FrameParsers.ControlFrame.Pack` | src/spdy_control_frame.c:173-211 | the code for every size and kind, in 32-bit arithmetic; on success exactly the packed frame is written, and never anything outside the buffer |
| `FrameParsers.SpdyFrame.Parse` | src/spdy_frame.c:45-82 | one step of the outer parser, which looks at the type bit once |
| `Reassembly.StepConserves` | src/spdy_data_frame.c:59-84 | a parser step on a data stream completes a frame and accounts for exactly its bytes, or keeps its part |
| `Reassembly.DemuxConserves` | src/spindly_phys.c:277-402 | so does a call of demux, and when it finds nothing there was nothing to find |
| `Reassembly.Reassembly` | src/spindly_phys.c:160-402 | for any chunks and any interleaving of feeding and asking: delivered bytes, held header, unread and queued bytes are all bytes fed, and the messages are the first of the reference reading, all of them once a call finds none |
| `Reassembly.SentIsDelivered` | src/spindly_phys.c:265-276 | frames sent, in any chunks, are the frames delivered |
| `Reassembly.EverythingIsDelivered` | src/spindly_phys.c:266-269 | as many further calls as there are messages deliver every one |
| `Interleaved.MixedReassembly` | src/spindly_phys.c:277-402 | for any chunks and any interleaving, on a stream of data frames, SYN_STREAMs and SYN_REPLYs in any order: the messages delivered are the first of the reference reading, all of them once a call finds none |
| `Interleaved.AllAreDelivered` | src/spindly_phys.c:266-269 | as many further calls as there are messages deliver every one |
| `Interleaved.DataMessages` | src/spdy_frame.c:62-80 | on data frames alone that reference is the one of `Reassembly.Reassembly` |
| `Interleaved.WholeFrameWaitsIff` | src/spdy_syn_stream.c:104-108 | a whole frame at the end of a stream is held back exactly for declared lengths below 12 (SYN_STREAM) and 8 (SYN_REPLY) |
| `Interleaved.NeededIsShortfall` | src/spdy_control_frame.c:87-93 | until a frame is there its parser asks for just what is missing: of the header, the declared bytes, the minimum of its kind |
| `Interleaved.CallIsOneParse` | src/spindly_phys.c:288-401 | whatever the stream holds and however it is cut, a call answers as one parser call on all bytes at hand would: a message, a fault, or nothing yet |
| `Interleaved.WindowAfter` | src/spindly_phys.c:290-293 | after a message or a fault the window is what the parser left, and nothing where the cursor went past its end |
| `Inbound.RequestsAreKnown` | src/spindly_phys.c:277-402 | parsing and dispatch together, with streams being opened here: if the requests of the stream have distinct, new ids of the peer's parity, nothing stops the program, the messages are those of one reading, and every request delivered is in the table |
| `Receiver.Receiver.Incoming` | src/spindly_phys.c:160-191 | the chunk, or a copy, joins the end of the queue |
| `Receiver.Receiver.ParseAppend` | src/spindly_phys.c:197-241 | unread bytes and the next chunk become one buffer, in place when they fit (corrected) |
| `Receiver.Receiver.Demux` | src/spindly_phys.c:277-402 | the loop over window, merge buffer, queue and frame is the call of the model on values (corrected); it terminates |
| `AsWritten.CallIff` | src/spindly_phys.c:277-402 | one call of the program as it stands answers, leaves the connection and frees dropped copies as it is meant to exactly when no leftover is in the way, no merge is called for, and a chunk that is done with has its flag right |
| `AsWritten.AsWrittenIff` | src/spindly_phys.c:277-402 | the same for whole runs |
| `AsWritten.SecondMessageLost` | src/spindly_phys.c:373-383 | two frames in one chunk: the first is delivered twice |
| `AsWritten.SplitFrameFaults` | src/spindly_phys.c:214-224 | a frame in two chunks: a write through an unassigned pointer |
| `AsWritten.FlagDecides` | src/spindly_phys.c:248-262 | one frame in one chunk: delivered at the cost of the list node, or of the copied bytes too, or the application's buffer freed, as the unassigned flag has it |
| `AsWritten.NodeLostIff` | src/spindly_phys.c:379-381 | a call that does what is meant loses a list node exactly when it is done with a chunk |
| `AsWritten.EveryNodeIsLost` | src/spindly_phys.c:248-262 | in every run each chunk fed is still queued or its node is lost |
| `EndpointLaws.OutgoingFidelity` | src/spindly_phys.c:120-147 | in every run the bytes handed out are a prefix of the packets in packing order, all reported sent or outstanding, and the buffers short of 64 are just the calls that took one for a block that does not fit |
| `EndpointLaws.NoBufferLost` | src/spindly_stream.c:134-154 | in every run whose deflated blocks have at most 110 bytes the three places hold all 64 buffers |
| `EndpointLaws.HandsOutFront` | src/spindly_phys.c:126-146 | with nothing outstanding the front of the queue and its size are handed out, or nothing of an empty queue; refused exactly while a packet is outstanding |
| `EndpointLaws.EverythingIsHandedOut` | src/spindly_phys.c:120-147 | after any run with nothing outstanding, as many rounds of handing out and reporting as packets are queued hand out every packet ever packed, and return every buffer |
| `EndpointLaws.ReportIff` | src/spindly_phys.c:413-425 | in every run with a packet outstanding a report is accepted exactly up to what is left, counts that down, and frees the buffer exactly at 0 |
| `EndpointLaws.AnyPartsWillDo` | src/spindly_phys.c:413-425 | any parts that add up to the packet, the last not 0, are accepted, and the last one frees the buffer |
| `EndpointLaws.ReportStopsIff` | src/spindly_phys.c:409-427 | in every run a report stops the program exactly when nothing is outstanding and 0 is reported |
| `EndpointLaws.UrgentFirstIff` | src/spindly_phys.c:131-140 | emptying the queue hands out each request before less urgent ones exactly when they were queued in that order |
| `EndpointLaws.UrgentStreamWaits` | doc/spindly_phys_outgoing.3:20-21 | a stream of priority 7, then one of priority 0: handed out that way round |
| `EndpointLaws.NewStreamOutcomes` | src/spindly_stream.c:71-182 | every outcome of making a stream: the answer, the bytes queued, the stream, its id and the counter, and the buffer lost where packing fails |
| `EndpointLaws.AckStreamOutcomes` | src/spindly_stream.c:204-252 | every outcome of acknowledging one, likewise |
| `EndpointLaws.ToldIff` | src/spindly_phys.c:309-347 | exactly when a dispatch stops the program, and else what is told: a request for a SYN_STREAM and the new last stream, an acknowledgement for a reply to a known id and that stream acknowledged |
| `EndpointLaws.DispatchErrorUnseen` | src/spindly_phys.c:303-383 | demux returns OK for a dispatch that failed, and nothing with it, exactly for a reply to an unknown id or a priority out of range |
| `EndpointLaws.UnknownIdUnseen` | src/spindly_phys.c:337-340 | a received SYN_REPLY for an unknown id: a protocol error inside, OK and no message outside |
| `EndpointLaws.UnassignedTypeIff` | src/spindly_stream.c:168 | a dispatch as it stands is what is meant exactly when the unassigned frame type is not SYN_STREAM or no request is accepted |
| `EndpointLaws.RegistryIff` | src/spindly_stream.c:159-163 | adding a stream keeps table and list inverse exactly when its id is new |
| `EndpointLaws.NewRegistered` | src/spindly_stream.c:71-182 | a stream made here takes the counter's id, which no stream had, and the counter moves on by two |
| `EndpointLaws.RunRegistered` | src/spindly_stream.c:71-182 | in every run with a fair peer and a counter in 31 bits: table and list are inverse, sizes agree, own ids have own parity, lie below the counter and each above those before it, a peer's stream knows its id |
| `EndpointLaws.UnfairPeer` | src/spindly_stream.c:162-163 | a received SYN_STREAM that takes this side's next id breaks that |
| `Handshake.HandshakeRun` | src/spindly_phys.c:303-374 | in every run of two ends every id is in exactly one phase: unopened, requested, pending, replied, open |
| `Handshake.AckedMeansAcked` | src/spindly_phys.c:337-346 | at either end an opener is acknowledged only if the peer acknowledged the same id, and nothing of it is under way |
| `Handshake.NothingRefused` | src/spdy_syn_stream.c:117-122 | in no run does the unknown-id or the duplicate-id error arise |
| `Handshake.ToldOnce` | src/spindly_phys.c:319-346 | at either end of every run: told of a request once for each stream the peer opened whose SYN_STREAM has arrived, of an acknowledgement once for each the peer acknowledged whose SYN_REPLY has arrived, and of nothing else |
| `Handshake.AckIff` | src/spindly_stream.c:204-252 | acknowledging keeps the handshake exactly when the stream came from the peer |
| `Handshake.ZeroReplyStops` | src/spindly_phys.c:337-340 | the reply for id 0 that acknowledging an own stream sends stops the peer |
| `Sender.Sender.Fill` | src/spindly_phys.c:78-85 | 64 separate buffers, all pending |
| `Sender.Sender.Pack` | src/spindly_stream.c:134-154 | the first pending buffer is packed and queued, or is in no list any more; the buffer handed out keeps its bytes |
| `Sender.Sender.HandOut` | src/spindly_phys.c:120-147 | the front of the queue, its bytes those of its packet; refused while one is outstanding, which then stays as it is |
| `Sender.Sender.Sent` | src/spindly_phys.c:409-427 | counts down what is outstanding, leaving the buffer as it is, and returns it at zero; refused above that; stops the program where there is no buffer to return |
| `Streams.Registry.AddStream` | src/spindly_phys.c:108-114 | the stream joins the list and the count |
| `Streams.Registry.Register` | src/spindly_stream.c:162-163 | the id finds the stream unless it was taken |
| `Streams.Registry.Find` | src/spindly_phys.c:337-342 | the stream an id finds, or none |
| `Connection.Phys.constructor` | src/spindly_phys.c:43-94 | the initial end: 64 pending buffers, no stream, the first id of the side's parity |
| `Connection.Phys.NewStream` | src/spindly_stream.c:71-182 | the call for a stream made here, error paths included |
| `Connection.Phys.AckStream` | src/spindly_stream.c:204-252 | the call, error paths included |
| `Connection.Phys.Requested` | src/spindly_phys.c:310-327 | the dispatch of a SYN_STREAM, with the unassigned frame type as an argument: the stream listed and registered, or the program stopped |
| `Connection.Phys.Replied` | src/spindly_phys.c:328-347 | the dispatch of a SYN_REPLY: the stream found is acknowledged, or the code for a protocol error set |
| `Connection.Phys.Dispatch` | src/spindly_phys.c:303-383 | what demux makes of a control frame, tells and returns: a request with the new stream, an acknowledgement with the stream found, now acknowledged; the code of a failed dispatch dropped |

## Left out

- Reassembly.Reassembly: streams of data frames with ids other than 0; SYN_STREAMs and SYN_REPLYs among them are the subject of `Interleaved.MixedReassembly`, and id 0 of `ResumeLaws.ResumeDataIff`.
- Interleaved.MixedReassembly: ids other than 0, declared lengths that cover the fixed part, and calls at which blocks inflate and no request still to come has a taken id; a refused frame leaves the parser inside it, and the other control frames stop the program when they are dispatched.
- AsWritten.AsWrittenIff: streams of data frames with ids other than 0, in non-empty chunks, with memory to be had; compares answers and state, so a call that gives a right answer from a wrong state counts as failing.
- Inbound.RequestsAreKnown: with the corrections of `Reassembly.Demux`, and the unassigned frame type not SYN_STREAM.
- Handshake.HandshakeRun: a packet arrives whole and alone, because the declared length of a packed frame does not cover its block (`FrameLaws.SynStreamCarried`); blocks have at least four bytes, as the deflated empty block does, and creation stops when ids leave 31 bits.
- EndpointLaws.RunRegistered: assumes fewer creations than would take the counter out of 31 bits; beyond that it wraps to ids in use, or to 0.
- EndpointLaws.UrgentFirstIff: compares requests only; a SYN_REPLY carries no priority.
- NvBlock.Block.Pack: a block with an unset string pointer, which the printer would follow.
- Receiver.Receiver.Demux: control messages are parsed here but dispatched to streams by `Connection.Phys.Dispatch`, and `Inbound.RequestsAreKnown` joins the two on values; the payload of a data message stays in the frame until the next call, and is never freed by the library.
- StreamHash.Hash.Store: the answer when no node can be allocated.
- Receiver.Receiver.Incoming: the answers when no node or copy can be allocated, and `inq_size`.
- FrameParsers.DataFrame.Parse: the answer when the payload cannot be allocated, also where the null pointer of `malloc(0)` is taken for that.
- FrameParsers.SpdyFrame.Parse: the same.
- Connection.Phys.constructor: the null answer when memory or zlib fails, and its clean-up.
- Connection.Phys.NewStream: the answer when the stream cannot be allocated.
- zlib and the chunk loops of `src/spdy_zlib.c`: opaque; inflate is handed the whole declared length after the fixed header was consumed, which only zlib's own state could bound, and ends the same way in each call of one interrupted frame.
- RST_STREAM and HEADERS payload parsing, RST_STREAM packing, nack, settings, stream data, headers and close: partial or unimplemented in the source.
- `_spindly_list_prev`, which nothing calls; replaceable memory functions, completion callbacks, `identifier`, `userp`, configuration structs.
- The union in `struct spdy_frame`: its two members do not share storage in the model; only the member of the frame's kind is ever read.
- Freeing and clean-up of a connection (`spindly_phys_cleanup` frees only the handle).
- `demo/`, `bin/`, sockets, debug logging, SPDY draft 3, flow control.
