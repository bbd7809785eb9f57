# Protocol cores of async_net, modelled and proved in Dafny

This project models the hand-written protocol code of async_net and proves what it is for:

- **HTTP/2** (`src/http/http2_session.cpp`, `hpack.cpp`, `h2_frame.hpp`): prefix integers, the Huffman string code, dynamic
  tables, header blocks, frames, the incremental reader and the session state machine. The layers compose into end-to-end theorems:
  whatever a client session submits, delivered in any chunks, is what a server session dispatches (`H2EndToEnd.EndToEnd`,
  `H2Requests.RequestsEndToEnd`, and on the objects `H2Delivery.ServeAll`), and the handler's responses, delivered in any chunks,
  settle the client's promises in order (`H2Answers.RoundTrip`, `H2Calls.CallsReturn`, on the objects `H2Delivery.CallAll`).
  Both hold at once in `H2Overlap.AnyOrder` and `H2Overlap.EveryCallReturns`: submissions and the bytes of both directions
  interleave in any way, and every call still gets its own answer.
  Beside them stand the flow-control books, the terms set by the peer's SETTINGS (`H2Terms`), what is said about the connection
  (`H2Control`), every header block any peer may write (`HpackForms.BlockAmounts`), header-block atomicity, splitting (the peer's frame limit is a subset type whose
  bounds hold at every assignment), and the re-entrant flush.
- **HTTP/3** (`src/http/h3_frame.hpp`, `qpack.cpp`): variable-length integers, the frame reader whose integers straddle chunks,
  and QPACK, composed in `QpackTables.EndToEnd`.
- **gRPC streams** over the HTTP/2 session: message framing, the deframer, the writer on a busy session and the message reader,
  composed in `GrpcCalls.PeerGets`.
- **Coroutines and executors**: the spawn handoff, the strand, cancellable sleeps over the timer queue.
- **io_uring rings** with wrapping 32-bit indices, the **HTTP/1.1 request parser** that is run again on a growing buffer, what it
  makes of every request as written (`Http1Render.RequestReads`), and the keep-alive loop around it.

Where the source changes objects step by step the model has classes and loops; each of their methods is proved against a
specification function, and the theorems are about those functions. Protocols between threads or coroutines are state machines
over their steps, and the theorems quantify over all event sequences. Bytes are `seq<byte>`, machine widths are written out
(`% 2^64` in the integers and the Huffman accumulator, `% 2^32` in the decoder's code word and the ring indices).

`dafny verify dfyconfig.toml` checks everything (Dafny 4.11).

## Where the code departs from its standards or from what callers may expect

The model follows the code; the theorems state the consequences exactly.

- The Huffman entry for symbol 123 (`src/http/hpack.cpp:49`) is a prefix of sixteen other codes, where RFC 7541 Appendix B has
  a different one. `HuffmanTable.HpackRoundTrip`, `HpackTables.FieldsDelivered` and `QpackTables.LinesSurvive` say exactly
  which strings and lists survive; `HpackTables.LostString` is one that does not.
- Send windows are credited but never debited (`src/http/http2_session.cpp:488-517`), so the credit for about two gibibytes of
  received data ends the peer's session: `H2EndToEnd.EndToEnd` has this as its exact condition, `H2Answers.Affordable` as one on
  the sizes of the request bodies, `H2LongDownload.LongDownloadKills` a run and its turning point.
- A stream's send window starts at 65535 whatever the peer's initial size is (`src/http/http2_session.cpp:38`):
  `H2Books.SendWindowMatchesRfc` says when that is right, `H2Books.WrongStart` is a run where it is not.
- HPACK dynamic indices are off by one and insertions are deferred to the end of a block (`src/http/hpack.cpp:435-436`, `518-521`).
  `HpackRfc.IndexingAgrees` and `HpackRfc.ResultsAgree` say exactly when that shows, `HpackRfc.TablesAgree` what it leaves in the table, `HpackRfc.InsertThenUse`, `HpackRfc.OffByOne`
  and `HpackRfc.InsertThenGrow` are blocks where it does. The encoders never produce such references, and the end-to-end theorems
  hold for any content of the decoder's table.
- The length test of a string adds in 64 bits (`src/http/hpack.cpp:353`, `src/http/qpack.cpp:187`), so a length near 2^64 passes it.
  A plain string then throws; a Huffman string is read beyond the input unless the bit loop gives up first, and is then empty and
  takes the decoder back into its own length. `Hpack.PastEndIff`, `Hpack.BlockFateIs` and `H2Atomicity.CrashIff` say exactly which
  input does what; `Hpack.BlockTransfer`, `Qpack.SectionTransfer` and `H2EndToEnd.EndToEnd` that no encoder's output does any of it.
- A QPACK section that ends with its Required Insert Count is read one byte beyond (`Qpack.PrefixFillsSection`).
- The chunk test of HTTP/1.1 adds in 64 bits too (`src/http/http1_codec.cpp:103`). A chunk size near 2^64 makes the body depend on
  what else is in the buffer, or the loop endless: `Http1.ExtensionStable`, `Http1.ExactlyConsumed`, `Http1Chunks.EndlessIff`,
  and the requests of `Http1Witness`.
- The keep-alive loop of HTTP/1.1 clears its buffer before each request (`src/http/server_impl.cpp:51`), so pipelined requests are
  lost: `Http1Connection.ServedExactly`.
- A second read on a gRPC stream that has to wait takes the place of the first, which never returns: `GrpcReader.ForgottenIff`.
- The deframer of gRPC messages adds the five bytes of the prefix in 32 bits (`include/async_net/grpc/stream_deframer.hpp:48`), so a
  length of 2^32 - 5 is taken from the buffer for ever: `GrpcWire.HangsIff`, `GrpcWire.FramedIff`.
- QPACK literal names are written and read with their length in a byte of its own, where section 4.5.6 of RFC 9204 has it in the
  first one: `QpackForms.ShortNameRefused`. Dynamic references count from the newest entry, not from the base.
- An HTTP/3 frame without payload is reported only when a later byte arrives (`H3Frame.SerializeParse`).
- Over HTTP/1.1 the client does not send the query of a request either: `Http1Serialize.ArrivesIff`.
- Over HTTP/2 the client does not send the query of a request and rewrites its headers: `H2Requests.CanonicalIff` says which requests arrive as
  they were submitted. The server does not check the connection preface.

## Model

| member | source | states |
|---|---|---|
| `PrefixInt.IntRoundTrip` | src/http/hpack.cpp:91-126 | any 64-bit value written with any prefix width and mask is read back with exactly its own bytes, whatever follows it |
| `PrefixInt.FitsScratch` | src/http/hpack.cpp:91-111 | a 64-bit value never takes more than 11 bytes, so the 16-byte scratch buffers of the encoders are always large enough |
| `PrefixInt.HpackEncodeInt` | src/http/hpack.cpp:91-111 | the loop writes the integer's encoding into the buffer, or returns 0 exactly when the buffer is too small |
| `PrefixInt.HpackDecodeInt` | src/http/hpack.cpp:113-126 | the loop returns the value modulo 2^64 and the bytes used, or nothing when the integer is cut off |
| `PrefixInt.UndefinedIff` | src/http/hpack.cpp:113-126 | a group is shifted by 64 bits or more, which C++ leaves undefined, exactly when the prefix is full and ten further bytes are marked as not the last |
| `PrefixInt.EncodedIsDefined` | src/http/hpack.cpp:91-126 | no 64-bit value is written in such a form, whatever follows it |
| `Huffman.PackBits` | src/http/hpack.cpp:132-153 | the encoded bytes spell the concatenated code bits followed by fewer than eight one bits |
| `Huffman.PackLength` | src/http/hpack.cpp:155-161 | the encoded length is the number of code bits rounded up to bytes |
| `Huffman.RoundTrip` | src/http/hpack.cpp:132-192 | for any table whose filler completes no code, decoding gives back the string if and only if every byte of it is decodable; for any other string the result differs |
| `Huffman.DecodableIff` | src/http/hpack.cpp:164-192 | with distinct codes a byte is decodable if and only if no other code is a prefix of its code |
| `Huffman.FillerIff` | src/http/hpack.cpp:164-192 | filler behind a decodable string is accepted if and only if it is at most seven ones |
| `HuffmanCodec.HuffmanEncode` | src/http/hpack.cpp:132-153 | the 64-bit accumulator loop, wrap-around included, outputs exactly the padded code bits |
| `HuffmanCodec.HuffmanIsShorter` | src/http/hpack.cpp:155-161 | true if and only if the Huffman form is shorter than the string |
| `HuffmanCodec.Search` | src/http/hpack.cpp:174-181 | the linear search finds the first symbol with a code of this length and value |
| `HuffmanCodec.HuffmanDecode` | src/http/hpack.cpp:164-192 | the bit loop with its 32-bit code word, 30-bit limit and padding test is the bit-by-bit decoder, and tells whether it gave up |
| `HuffmanTable.PrefixPairs` | src/http/hpack.cpp:18-86 | in the table as written one code is a prefix of another only for symbol 123 and sixteen 23-bit codes |
| `HuffmanTable.PaddingIsSafe` | src/http/hpack.cpp:147-151 | no code of the table consists of at most seven ones, so padding never decodes to a symbol |
| `HuffmanTable.OnesAreRefused` | src/http/hpack.cpp:164-192 | no code of the table consists of ones, so the bit loop gives up within four FF bytes |
| `HuffmanTable.HpackRoundTrip` | src/http/hpack.cpp:18-192 | a string survives the table's code if and only if it holds none of those sixteen bytes |
| `DynamicTable.KeptIsLongest` | src/http/hpack.cpp:320-325 | greedy eviction keeps exactly the longest newest-first run of entries that fits |
| `DynamicTable.RunKeepsSize` | src/http/hpack.cpp:284-301 | over every run of inserts and resizes the tracked size is the sum of entry sizes and at most the maximum |
| `DynamicTable.HeaderTable.Add` | src/http/hpack.cpp:284-294 | evicts, then inserts at the front; an entry larger than the table empties it; the insert count grows by one |
| `DynamicTable.HeaderTable.SetMax` | src/http/hpack.cpp:296-301 | the new limit holds and exactly the oldest entries beyond it are gone |
| `DynamicTable.HeaderTable.Evict` | src/http/hpack.cpp:320-325 | one eviction removes the oldest entry and its size, or does nothing on an empty table |
| `Hpack.StringTransfer` | src/http/hpack.cpp:331-361 | every string is read back as its Huffman round trip or verbatim, consuming exactly its own bytes |
| `Hpack.ShorterForm` | src/http/hpack.cpp:331-346 | a string is sent in the shorter of its two forms, and as it is if they are equally long |
| `Hpack.PastEndIff` | src/http/hpack.cpp:348-361 | a string is read beyond its input if and only if it is a Huffman string, its length is at least 2^64 less the bytes of the length itself, and the bit loop does not give up on the bytes that are there; in plain form such a length throws |
| `Hpack.PastEndLengths` | src/http/hpack.cpp:348-361 | written as the encoder writes them those lengths are the ones from 2^64 - 11 on, and what follows decides between the three ends |
| `Hpack.OverrunBlock` | src/http/hpack.cpp:493-515 | a literal whose name has length 2^64 - 1 makes the decoder throw in plain form, and read beyond the block in Huffman form unless the bit loop gives up on what follows |
| `Hpack.GivenUpBlock` | src/http/hpack.cpp:164-192 | followed by four FF bytes, on which the loop gives up, the same block reads one header, goes on inside the length and is refused without a read beyond it |
| `Hpack.BlockFateIs` | src/http/hpack.cpp:443-524 | how decoding a block ends is told by its representations one after the other, by the form and length of their strings and the bytes behind the length |
| `HpackTables.GivenUpHere` | src/http/hpack.cpp:18-192 | with the table as written that block is refused and nothing is read beyond it |
| `Hpack.StaticIndex` | src/http/hpack.cpp:266-280 | the first static index that holds exactly the field, or 0 if none does |
| `Hpack.FieldTransfer` | src/http/hpack.cpp:393-411 | one encoded field reads back as one header item of exactly its own length, whatever the decoder's dynamic table holds |
| `Hpack.BlockTransfer` | src/http/hpack.cpp:376-524 | a block decodes to the delivered list without ever reading beyond it, and only a pending size update touches the decoder's table |
| `Hpack.LinkTheorem` | src/http/hpack.cpp:370-524 | over every run of size changes and encodes, a decoder fed the blocks in order returns every list as delivered, and both dynamic tables stay empty |
| `Hpack.LimitsAgree` | src/http/hpack.cpp:370-391 | over every such run the encoder keeps the last limit set, announces it with the next block and with no other, and the decoder then has it too |
| `HpackCodec.FindStatic` | src/http/hpack.cpp:266-280 | an exact match if there is one, otherwise the first index with the name |
| `HpackCodec.WriteString` | src/http/hpack.cpp:331-346 | the shorter of the Huffman and the plain form |
| `HpackCodec.ReadString` | src/http/hpack.cpp:348-361 | the string and the bytes used, nothing when it is cut off, and for a length whose 64-bit sum wraps an exception, a read beyond the input, or the empty string and the wrapped sum |
| `HpackCodec.HpackEncoder.SetMaxSize` | src/http/hpack.cpp:370-374 | the new limit is applied to the own table and announced with the next block |
| `HpackCodec.HpackEncoder.Encode` | src/http/hpack.cpp:376-414 | the loop outputs the pending size update and every field in order, and clears the pending flag |
| `HpackCodec.HpackDecoder.Lookup` | src/http/hpack.cpp:428-441 | the entry of an index as this decoder numbers them: static, then dynamic two places later |
| `HpackRfc.IndexingAgrees` | src/http/hpack.cpp:428-441 | an index means what RFC 7541 says if and only if it is static or 0, lies beyond both ranges, or addresses equal neighbours |
| `HpackRfc.ReadingsCompared` | src/http/hpack.cpp:451-516 | two tables read a representation differently only through the entry it refers to |
| `HpackRfc.ResultsAgree` | src/http/hpack.cpp:443-524 | against a decoder that inserts at once, with either numbering, the header list of a block is the same if and only if no representation reads differently on the way, or both come to one that they refuse in the same way |
| `HpackRfc.StaticUndisturbed` | src/http/hpack.cpp:443-524 | a block that refers to static entries alone never reads differently |
| `HpackRfc.ShrinkCommutes` | src/http/hpack.cpp:284-301 | shrinking a table after an insertion is inserting after the shrinking |
| `TableOrder.HoldsWhatHadRoom` | src/http/hpack.cpp:284-301 | after any run of inserts and resizes a table holds exactly the newest entries that have had room after every operation |
| `TableOrder.LateExactly` | src/http/hpack.cpp:518-521 | with all inserts after all resizes a table holds at least as much, and is the same if and only if the entries it ends with would have had room all along |
| `HpackRfc.TablesAgree` | src/http/hpack.cpp:443-524 | an undisturbed block that reads to its end leaves this decoder with all entries of the other, and with the same table if and only if its entries would have had room all along |
| `HpackRfc.FirstIndexed` | src/http/hpack.cpp:454-462 | a leading indexed field reads as in RFC 7541 exactly when its index means the same |
| `HpackRfc.InsertThenUse` | src/http/hpack.cpp:435-436 | a literal with indexing followed by index 62 is refused here, where RFC 7541 reads the field twice |
| `HpackRfc.OffByOne` | src/http/hpack.cpp:435-436 | with two entries index 63 gives the first here and the second in RFC 7541 |
| `HpackRfc.InsertThenGrow` | src/http/hpack.cpp:518-521 | a literal with indexing, limit 0 and limit 4096 leaves the literal here and an empty table in RFC 7541 |
| `HpackCodec.HpackDecoder.ReadOne` | src/http/hpack.cpp:451-516 | one representation of a block, by its leading bits, with its errors, exceptions and reads beyond the input; HpackForms says what each one stands for |
| `HpackForms.FormReads` | src/http/hpack.cpp:451-516 | every representation of section 6 of RFC 7541, its strings in either form and its name new or that of an entry, is read as the field it stands for, whatever follows; a literal named by an index takes the name of that entry and its own value |
| `HpackForms.BlockAmounts` | src/http/hpack.cpp:443-524 | for every list of representations and every table the block decodes to the fields they stand for, exactly those with the pattern 01 are inserted, size updates hold at once, and a reference to no entry refuses the block |
| `HpackForms.NamedByEntry` | src/http/hpack.cpp:493-516 | the block 5F 01 61 is the name of static entry 31 with the value a, and is inserted |
| `HpackCodec.HpackDecoder.Decode` | src/http/hpack.cpp:443-524 | the loop returns the list or nothing after an error, or ends by an exception or a read beyond the input; insertions wait for the end of a correct block, size updates do not; HpackForms.BlockAmounts says what the list is |
| `HpackTables.FieldsDelivered` | src/http/hpack.cpp:198-264 | with the table as written a header list arrives unchanged if and only if each field is static or its strings avoid the sixteen bytes in Huffman form |
| `HpackTables.AsciiFieldsDelivered` | src/http/hpack.cpp:18-524 | every list of 7-bit names and values arrives unchanged |
| `HpackTables.LostString` | src/http/hpack.cpp:49-49 | the byte 147 followed by twenty zero digits is sent in Huffman form and does not arrive |
| `WireExamples.Integers` | src/http/hpack.cpp:91-111 | the integers of Appendix C.1 of RFC 7541 have the bytes given there |
| `WireExamples.OneLetter` | src/http/hpack.cpp:132-153 | the letter a is the byte 1F in Huffman form |
| `WireExamples.FirstRequest` | src/http/hpack.cpp:443-524 | the request of Appendix C.3.1 of RFC 7541 decodes to the fields given there |
| `WireExamples.FirstTable` | src/http/hpack.cpp:284-294 | it leaves a table of 57 bytes, as given there |
| `H2Frame.Be32RoundTrip` | src/http/h2_frame.hpp:210-219 | a 32-bit number is read back from its four bytes |
| `H2Frame.BuildLayout` | src/http/h2_frame.hpp:128-186 | a built frame is recognised as complete at its exact end and read back with type, flags, stream and payload |
| `H2Frame.SerializeParse` | src/http/h2_frame.hpp:128-399 | a stream of built frames parses to those frames, whatever follows |
| `H2Frame.ParseAppend` | src/http/h2_frame.hpp:351-399 | parsing in two pieces, carrying the remainder over, is parsing the whole |
| `H2Frame.SettingsRoundTrip` | src/http/h2_frame.hpp:189-273 | a list of settings survives build and parse |
| `H2Frame.WindowUpdateRoundTrip` | src/http/h2_frame.hpp:210-281 | every 31-bit increment survives build and parse |
| `WireExamples.ResetAndSettings` | src/http/h2_frame.hpp:189-334 | RST_STREAM and SETTINGS frames have the layout of RFC 7540, byte by byte |
| `WireExamples.GoawayExample` | src/http/h2_frame.hpp:189-334 | so has a GOAWAY frame |
| `WireExamples.UpdateExample` | src/http/h2_frame.hpp:189-334 | and a WINDOW_UPDATE frame |
| `WireExamples.Hello` | src/http/http2_session.cpp:87-93 | a session first announces 100 streams, windows of 65535, header lists of 8192 bytes, and push |
| `WireExamples.NewTables` | src/http/http2_session.cpp:41-94 | both tables of a new session are empty and have room for 4096 bytes |
| `H2Frame.FrameReader.Feed` | src/http/h2_frame.hpp:351-381 | consumes bytes of one frame in order and stops short only when that frame is complete |
| `H2Frame.FrameReader.HasFrameMeans` | src/http/h2_frame.hpp:384-387 | a frame is reported if and only if the bytes read are exactly one whole frame |
| `H2Frame.FrameReader.TakeFrame` | src/http/h2_frame.hpp:390-399 | returns the frame those bytes denote and starts afresh |
| `HttpTypes.MethodRoundTrip` | include/async_net/http/types.hpp:24-50 | a method name parses back to its method |
| `Http2SessionObject.Http2Session.constructor` | src/http/http2_session.cpp:82-94 | a new session with its SETTINGS frame enqueued |
| `Http2SessionObject.Http2Session.GetPendingOutput` | src/http/http2_session.cpp:879-883 | hands over the buffer and clears it; all bytes handed over so far are the enqueued frames, in order |
| `Http2SessionObject.SplitBlock` | src/http/http2_session.cpp:747-773 | the splitting loop yields the HEADERS and CONTINUATION frames of the block |
| `Http2SessionObject.BuildDataFrames` | src/http/http2_session.cpp:776-796 | the splitting loop yields the DATA frames of the body, and one empty frame for an empty body that is to end its stream |
| `Http2SessionObject.Http2Session.DispatchTheRequest` | src/http/http2_session.cpp:595-618 | hands the request with its whole body to the handler once and submits the answer |
| `Http2SessionObject.Http2Session.CompleteThePromise` | src/http/http2_session.cpp:621-630 | settles the response promise with the whole body |
| `Http2SessionObject.Http2Session.Count` | src/http/http2_session.cpp:192-205 | debits both receive windows and announces a refill for each that fell below half |
| `Http2SessionObject.Http2Session.OnData` | src/http/http2_session.cpp:159-219 | a DATA frame: errors, padding, body, windows, end of stream |
| `Http2SessionObject.Http2Session.OnHeaders` | src/http/http2_session.cpp:222-310 | a HEADERS frame: errors, padding and priority, new stream, whole or open block |
| `Http2SessionObject.Http2Session.ApplyHeaders` | src/http/http2_session.cpp:313-358 | the request loop over a header list, then the dispatch at the end of the stream |
| `Http2SessionObject.Http2Session.ApplyResponseHeaders` | src/http/http2_session.cpp:362-381 | the response loop over a header list, then the completion |
| `Http2SessionObject.Http2Session.OnContinuation` | src/http/http2_session.cpp:384-408 | appends a fragment, and applies the whole block when it is the last |
| `Http2SessionObject.Http2Session.ShiftAll` | src/http/http2_session.cpp:442-447 | the loop over the streams adds the difference to every send window |
| `Http2SessionObject.Http2Session.OnSettings` | src/http/http2_session.cpp:411-469 | all settings in order, stopping at a fatal one, then the acknowledgement; H2Terms says what they leave behind |
| `Http2SessionObject.Http2Session.SendGoaway` | src/http/http2_session.cpp:873-876 | one GOAWAY frame, and the session is dead |
| `Http2SessionObject.Http2Session.OnFrame` | src/http/http2_session.cpp:129-156 | every frame type does what the session model says, through one handler each (SETTINGS one by one, PING, WINDOW_UPDATE, RST_STREAM, PUSH_PROMISE, GOAWAY), and during a header block only CONTINUATION is accepted |
| `Http2SessionObject.Http2Session.Drain` | src/http/http2_session.cpp:113-119 | processes the frames the reader holds until none is left or the session dies |
| `Http2SessionObject.Http2Session.FeedSome` | src/http/http2_session.cpp:109-124 | each turn of the feed loop consumes at least one byte |
| `Http2SessionObject.Http2Session.Feed` | src/http/http2_session.cpp:101-126 | while alive a call consumes its whole input and has processed exactly the frames a one-shot parse of all bytes so far yields; a dead session returns -1 |
| `H2Session.Refill` | src/http/http2_session.cpp:192-205 | a window is refilled if and only if it fell below half, and is then at least half full |
| `H2Session.RunConcat` | src/http/http2_session.cpp:109-125 | processing two lists of frames one after the other is processing their concatenation |
| `H2EndToEnd.ChunkingIrrelevant` | src/http/http2_session.cpp:101-126 | feeding a byte stream in any pieces leaves the session exactly where feeding it at once does |
| `H2EndToEnd.HeadersArrive` | src/http/http2_session.cpp:222-408 | a header block on a new stream, split or not, is applied as a whole, or ends the session as its decoding ends |
| `H2EndToEnd.BodyArrives` | src/http/http2_session.cpp:159-219 | the DATA frames of a body accumulate to exactly that body and end the stream once |
| `H2EndToEnd.RequestArrives` | src/http/http2_session.cpp:159-408 | a request's frames make the server dispatch it once, with the decoded list and the exact body, unless the decoder does not come back from the block |
| `H2EndToEnd.FrameSteady` | src/http/http2_session.cpp:129-156 | no received frame changes the mode, the tables or the next stream id, or takes back output, dispatches or completions |
| `H2EndToEnd.EndToEnd` | src/http/http2_session.cpp:101-834 | for every client run of submissions and received frames it survives and every chunking of its output, the server dispatches each request once, in order, and is alive if and only if the credit it was announced fits 2^31 - 1; once it has given up it has dispatched a prefix of them, and its decoder has always come back |
| `H2EndToEnd.SubmissionsWithinCredit` | src/http/http2_session.cpp:799-834 | a client that only submits announces no credit, so its server stays alive |
| `H2Replies.ClientReplies` | src/http/http2_session.cpp:129-545 | whatever frame a client survives, it answers with acknowledgements, resets and positive 31-bit credit only |
| `H2Replies.RepliesTaken` | src/http/http2_session.cpp:411-545 | such answers leave a server's requests alone, and it gives up exactly when the credit exceeds 2^31 - 1, with nothing dispatched meanwhile |
| `H2LongDownload.LongDownloadKills` | src/http/http2_session.cpp:192-205 | after k of the largest DATA frames the client is alive, and a server fed what it wrote, in any chunks, is alive if and only if k < 128 |
| `H2Requests.IntactAssembles` | src/http/http2_session.cpp:313-340 | a header list that arrives intact assembles to the canonical form of the request submitted |
| `H2Requests.CanonicalIff` | src/http/http2_session.cpp:799-822 | the handler sees the request as submitted if and only if it is an HTTP/2 one without a query, its path is not empty and holds no question mark, and its headers are Host first and then lower-case names other than host and connection |
| `H2Requests.RequestsEndToEnd` | src/http/http2_session.cpp:101-834 | with the real tables and surviving header lists the handler sees exactly the submitted requests, in order |
| `H2Responses.HeadersHeard` | src/http/http2_session.cpp:222-408 | a response header block, split or not, is applied to its stream as a whole and leaves the others alone, or ends the client as its decoding ends |
| `H2Responses.BodyHeard` | src/http/http2_session.cpp:159-219 | the DATA frames of a response accumulate to its body, and the last one settles the promise |
| `H2Responses.AnswerHeard` | src/http/http2_session.cpp:621-682 | a response of any shape, with body, trailers, both or neither, settles exactly its own stream's promise with what was sent |
| `H2Answers.RequestAnswered` | src/http/http2_session.cpp:595-682 | a server answers a request with credit frames for its body and exactly the frames of the handler's response, and its connection window follows from the size of the body |
| `H2Answers.TranscriptHeard` | src/http/http2_session.cpp:159-630 | any sequence of such exchanges settles the waiting promises in order, and the client dies exactly when the credit exceeds 2^31 - 1 |
| `H2Answers.RoundTrip` | src/http/http2_session.cpp:101-834 | whatever requests a client submits, with both byte streams cut in any way, its promises are settled in order, each with the response the handler gave to that request; the client is alive if and only if the sizes of the bodies are affordable, and has a prefix of the answers if it is not |
| `H2Answers.AffordableBounds` | src/http/http2_session.cpp:192-205 | bodies of 2^31 - 65536 bytes in all are affordable, more than 2^31 - 32768 are not |
| `H2Calls.StatusRoundTrip` | src/http/http2_session.cpp:366-371 | a status that fits an int is read back from its decimal form |
| `HttpLists.ForwardedLowers` | src/http/http2_session.cpp:646-652 | what is passed on of a header list is each header whose lower-cased name is not skipped, lower-cased, once, in order, and nothing more |
| `HttpLists.LoweredOnce` | src/http/http2_session.cpp:646-652 | there is only one such list |
| `HttpLists.GetIsFirst` | include/async_net/http/types.hpp:243-249 | a lookup finds the value of the first header with the name in any case, or none if there is none |
| `HttpLists.WrittenIsRead` | src/http/http2_session.cpp:366-371 | a decimal number that fits an int is read as the number its digits stand for |
| `H2Calls.CanonicalEchoes` | src/http/http2_session.cpp:633-682 | the canonical form of a response says exactly what the response says: its status, its body, its first content type if it has one, the length of its body in decimal if it has one, each other header but connection and transfer-encoding, lower-cased, once, in order, and the trailers likewise |
| `H2Calls.IntactHeard` | src/http/http2_session.cpp:633-682 | an answer whose lists arrive intact is the canonical form of the response, which CanonicalEchoes pins without the list that was sent |
| `H2Calls.CallsReturn` | src/http/http2_session.cpp:101-834 | with the real tables and surviving header lists every call returns the canonical form of the handler's response to the canonical request, which says exactly what that response says, if and only if the sizes of the bodies are affordable |
| `H2Delivery.DeliverAll` | src/http/http2_session.cpp:101-126 | feeding the session object chunk by chunk is feeding the value-level session |
| `H2Delivery.ServeAll` | src/http/http2_session.cpp:82-126 | a new server object fed a client's output in any chunks hands exactly the submitted requests to its handler |
| `H2Delivery.SubmitAll` | src/http/http2_session.cpp:799-834 | a client object after a list of submissions, each opening the next stream and enqueuing exactly its frames, is the value-level client run |
| `H2Delivery.CallAll` | src/http/http2_session.cpp:82-883 | two session objects whose bytes travel in pieces of any two sizes: the client is alive if and only if the sizes of the bodies are affordable, and its promises then hold answers that say exactly what the handler's responses say, in order |
| `H2Commute.FrameBare` | src/http/http2_session.cpp:129-545 | what a frame does to a client does not depend on what the client has sent |
| `H2Commute.FrameAsk` | src/http/http2_session.cpp:129-834 | a frame of an earlier stream and a submission commute |
| `H2Ledger.TranscriptCarries` | src/http/http2_session.cpp:633-682 | the data a server sends is the bodies of its responses |
| `H2Ledger.ServerWindow` | src/http/http2_session.cpp:488-517 | a server's send window never exceeds 65535 and what the frames received announced for the stream |
| `H2TwoWay.RepliesSilent` | src/http/http2_session.cpp:411-545 | a server answers nothing to a client's acknowledgements, resets and credit as long as no window overflows |
| `H2TwoWay.SubmitInTouch` | src/http/http2_session.cpp:799-834 | a submission at any moment keeps client and server in touch: what was heard is part of what the server says, and the client is where it would be had it submitted everything first |
| `H2TwoWay.ReceiveInTouch` | src/http/http2_session.cpp:129-545 | so does the next frame from the server, which leaves the client alive |
| `H2Overlap.AnyOrder` | src/http/http2_session.cpp:101-883 | whatever the order of submissions and of bytes arriving on either side, the client is alive as long as the request bodies are affordable, and while it is alive the server is, has dispatched a first part of the submissions, and the client's promises hold the answers to a first part of them, in order |
| `H2Overlap.EveryCallReturns` | src/http/http2_session.cpp:101-883 | from every such state, once the bytes under way have got through to the server and then to the client, the client is alive if and only if the request bodies are affordable, and every call then has its answer |
| `H2Overlap.CallsReturnInAnyOrder` | src/http/http2_session.cpp:101-883 | with the real tables and surviving header lists those answers say exactly what the handler's responses to the canonical requests say |
| `H2OverlapEnds.ServerEnds` | src/http/http2_session.cpp:101-883 | for bodies of any size, while the client is alive: once the bytes under way to the server have got through, it is alive if and only if the credit announced fits its window, and has dispatched the calls in order, all of them or a first part |
| `H2Splitting.HeaderSplit` | src/http/http2_session.cpp:747-773 | payloads fit the peer's limit and the 24-bit length, concatenate to the block, only the last frame has END_HEADERS and only the first may end the stream |
| `H2Splitting.ContinuationSplit` | src/http/http2_session.cpp:763-772 | the CONTINUATION part of that |
| `H2Splitting.DataSplit` | src/http/http2_session.cpp:776-796 | payloads fit, concatenate to the body, and only the last frame may end the stream |
| `H2Splitting.ResponseAppends` | src/http/http2_session.cpp:633-682 | a response appends its frames and nothing else |
| `H2Splitting.ResponseEndsOnce` | src/http/http2_session.cpp:633-682 | every response carries exactly one END_STREAM, followed only by CONTINUATION frames of its own block |
| `H2Splitting.WriterEndsOnce` | src/grpc/grpc_stream.cpp:80-109 | over every run of writes and finishes there is exactly one END_STREAM once finished, none before, and nothing after it but its own block |
| `H2Writer.FrameAdds` | src/http/http2_session.cpp:129-682 | a received frame makes a session speak on that frame's stream and on the connection alone, with no payload longer than the peer's limit, and only heeded SETTINGS change the terms it speaks on |
| `H2Writer.EventAdds` | src/http/http2_session.cpp:129-834 | the same for whatever is submitted |
| `H2Terms.FrameChanges` | src/http/http2_session.cpp:411-469 | a SETTINGS frame tells its settings up to the first forbidden one, and ends the session if and only if it is out of place, malformed or has one |
| `H2Terms.TermsAreTold` | src/http/http2_session.cpp:411-469 | over every run the frame limit, the push permission, the encoder's table size and the initial window are the last values accepted from the SETTINGS frames received, or 16384, allowed, 4096 and 65535 |
| `H2Terms.SpeaksOnTerms` | src/http/http2_session.cpp:747-796 | over every run no frame sent is longer than the frame size the peer had last set when it was sent |
| `H2Writer.BusyWriter` | src/grpc/grpc_stream.cpp:80-109 | whatever happens on other streams and on the connection between its writes, a writer's own stream carries exactly the messages accepted, in order, and ends exactly once when finished, with nothing after it but its own header block |
| `GrpcCalls.PeerGets` | src/grpc/grpc_stream.cpp:80-109 | however the data of a writer's stream is cut, the peer's deframer extracts exactly the messages accepted and is left with nothing, and the block of the frames that end the stream tells every peer the status the writer was finished with first and its text, if any |
| `GrpcCalls.TrailersReport` | src/grpc/grpc_stream.cpp:95-109 | the trailers are grpc-status with the status in decimal, read back as that int, then grpc-message with the text if and only if it is not empty, intact exactly when that field survives the tables |
| `GrpcCalls.HeadReads` | src/http/http2_session.cpp:685-703 | the headers of a streaming answer leave the stream open, and every peer reads in them the status, the content type if there is one and each other header but three, lower-cased, once and in order |
| `GrpcWire.FramedRead` | include/async_net/grpc/stream_deframer.hpp:39-62 | messages framed one after the other are extracted in order, each once, and what follows them is left |
| `GrpcWire.FramedIff` | include/async_net/grpc/stream_deframer.hpp:39-62 | one framed message is extracted as it was if and only if its length and the prefix fit 32 bits |
| `GrpcWire.ChunkingIrrelevant` | include/async_net/grpc/stream_deframer.hpp:39-62 | however data is cut, the messages extracted and what is left are those of the whole |
| `GrpcWire.HangsIff` | include/async_net/grpc/stream_deframer.hpp:42-62 | the deframer never returns if and only if it comes to a length of 2^32 - 5 |
| `GrpcWire.NeverReturns` | include/async_net/grpc/stream_deframer.hpp:42-49 | five bytes that do it, whatever follows |
| `GrpcWire.DecodeRead` | src/grpc/grpc_wire.cpp:9-47 | a framed message is decoded to itself, whatever follows |
| `GrpcWire.Deframer.Feed` | include/async_net/grpc/stream_deframer.hpp:39-62 | the loop over the buffer extracts what draining the buffer with the new data does |
| `H2Atomicity.BlocksAreFaithful` | src/http/http2_session.cpp:222-408 | in every reachable live state a pending block's stream exists and holds exactly the fragments received |
| `H2Atomicity.NextFragment` | src/http/http2_session.cpp:384-408 | the last fragment applies the concatenation of all fragments at once |
| `H2Atomicity.BlocksAreAtomic` | src/http/http2_session.cpp:129-140 | inside a block a reachable live session survives a frame if and only if it is the next CONTINUATION and the representations of the block it completes, if it does, bring the decoder back; the branch for an unknown stream is unreachable |
| `H2Atomicity.CrashIff` | src/http/http2_session.cpp:129-156 | a frame ends a session by an exception, or makes its decoder read beyond a block, if and only if it completes a block whose representations come to a string that does so |
| `H2Control.SaysWhatIsDue` | src/http/http2_session.cpp:129-592 | over every run the PING frames sent answer those received with their own eight bytes; a session leaves at most once, with the error code of the frame it leaves for and the highest stream its peer has begun; streams are reset for data on an unknown one and for increments of zero or beyond the limit, with the code for it; and the promises settled as reset are exactly those that waited when an RST_STREAM came |
| `H2Control.FrameAnswers` | src/http/http2_session.cpp:129-592 | one frame makes a session leave exactly for the connection errors of RFC 7540, each with its code |
| `H2Padding.PaddingIrrelevant` | src/http/http2_session.cpp:159-243 | padding of any length and content changes nothing a DATA or HEADERS frame does |
| `H2Padding.PriorityIrrelevant` | src/http/http2_session.cpp:222-257 | nor does a priority |
| `H2Padding.BothIrrelevant` | src/http/http2_session.cpp:222-257 | nor do both |
| `H2Push.PushedAnswer` | src/http/http2_session.cpp:548-592 | a PUSH_PROMISE and the answer on the stream it names settle exactly the promise of that stream, with that answer |
| `H2Heads.RequestReads` | src/http/http2_session.cpp:799-834 | a submitted request is one header block, its body, and one end of stream, and every peer reads in the block method, path, the scheme https and the first Host header or localhost, in this order, then each other header but Connection, lower-cased, once and in order |
| `H2Books.WindowsBalance` | src/http/http2_session.cpp:192-205 | over every run each receive window is 65535 less data received plus increments announced and at least half full, each send window is 65535 plus the shift of the peer's initial size since the stream began plus its credit, and a live connection's window is at most 2^31 - 1 |
| `H2Books.SendWindowMatchesRfc` | src/http/http2_session.cpp:436-450 | a stream's send window is the prescribed one if and only if the peer's initial size was 65535 when the stream was created |
| `H2Books.WrongStart` | src/http/http2_session.cpp:436-450 | a client told any other initial size, such as 100000, before it asks starts the stream's window at 65535 all the same |
| `Flush.FlushConserves` | src/http/http2_session.cpp:907-934 | over every interleaving of enqueues, flush calls and partial writes at most one call sends, and written, unsent and buffered bytes are all enqueued bytes in order; without a failed send nothing is dropped |
| `Flush.TrueMeansFlushed` | src/http/http2_session.cpp:913-934 | when the sending call returns true the buffer is empty and every byte enqueued has been written |
| `Flush.FlushProgresses` | src/http/http2_session.cpp:920-930 | each send of n bytes brings the flush exactly n bytes closer to returning true |
| `Flush.FalseIffFailed` | src/http/http2_session.cpp:907-934 | a call returns false if and only if one of its own sends failed |
| `Flush.CanGoOn` | src/http/http2_session.cpp:920-930 | a flush under way has something left to send, and the send may accept any part of it |
| `Flush.Output.Flush` | src/http/http2_session.cpp:907-934 | the coroutine's loops against any environment: a nested call changes nothing, and only a failing send drops bytes |
| `Flush.Output.SendAll` | src/http/http2_session.cpp:920-930 | the inner loop sends all data, or is suspended with the unsent rest, or fails |
| `Varint.RoundTrip` | src/http/h3_frame.hpp:19-84 | every value below 2^62 is read back from its encoding, whatever follows |
| `Varint.Shortest` | src/http/h3_frame.hpp:19-52 | no encoding of a value is shorter than the one written |
| `WireExamples.ShortVarints` | src/http/h3_frame.hpp:19-52 | the integers of Appendix A.1 of RFC 9000 have the bytes given there |
| `Varint.Decode` | src/http/h3_frame.hpp:55-84 | a value is read if and only if as many bytes as the first one announces are there |
| `H3Frame.BuildLayout` | src/http/h3_frame.hpp:148-284 | a built frame is reported with its type and payload at its exact end, unless it is empty and nothing follows |
| `H3Frame.SerializeParse` | src/http/h3_frame.hpp:148-294 | a stream of frames is reported as those frames; only an empty last frame is still pending |
| `H3Frame.ParseAppend` | src/http/h3_frame.hpp:238-284 | reading in two pieces is reading the whole |
| `H3Frame.ChunkingIrrelevant` | src/http/http3_session.cpp:384-394 | the frames reported depend only on the bytes, not on how they were cut |
| `H3Frame.FrameReader.FeedVarint` | src/http/h3_frame.hpp:314-345 | a partial integer keeps its bytes across chunks, and a complete one is its value |
| `H3Frame.FrameReader.Feed` | src/http/h3_frame.hpp:238-284 | consumes bytes of one frame in order and stops short only when it is complete; an empty frame waits for one more byte |
| `H3Frame.FrameReader.TakeFrame` | src/http/h3_frame.hpp:288-294 | returns the frame and starts afresh |
| `H3Frame.OnStreamData` | src/http/http3_session.cpp:384-394 | the take-and-refeed loop consumes everything and yields exactly the frames of a one-shot parse |
| `H3Frame.ReadStream` | src/http/http3_session.cpp:384-394 | the same over any sequence of data events |
| `Qpack.StringTransfer` | src/http/qpack.cpp:164-198 | every string is read back as its Huffman round trip or verbatim, or refused exactly when that round trip is empty |
| `Qpack.PastEndIff` | src/http/qpack.cpp:181-197 | the same length test lets the reader go beyond its input, or throws, under the same conditions as in HPACK |
| `Qpack.OverrunSection` | src/http/qpack.cpp:181-197 | a literal line whose name has length 2^64 - 1 throws in plain form, and in Huffman form is refused if the bit loop gives up on what follows and read beyond the section if not |
| `Qpack.GivenUpIsRefused` | src/http/qpack.cpp:189-191 | a Huffman string on which the bit loop gives up is refused, whatever its length |
| `Qpack.PrefixFillsSection` | src/http/qpack.cpp:453-457 | a section that is all Required Insert Count makes the decoder read one byte beyond it |
| `Qpack.IndexOfField` | src/http/qpack.cpp:239-247 | the first static index that holds exactly the field |
| `Qpack.IndexOfName` | src/http/qpack.cpp:249-257 | the first static index with the name |
| `Qpack.LineTransfer` | src/http/qpack.cpp:271-419 | one line reads back as delivered, or is refused, whatever the dynamic table holds |
| `Qpack.SectionTransfer` | src/http/qpack.cpp:259-481 | a section decodes to its delivered lines up to the first refused one, without ever reading beyond it |
| `QpackForms.SectionAmounts` | src/http/qpack.cpp:422-481 | every section of the representations this decoder knows, with any Required Insert Count it can recover and any base, is read as the fields they stand for, up to the first that stands for nothing |
| `QpackForms.FormReads` | src/http/qpack.cpp:327-419 | each of them, whatever follows it: references to both tables, with and without the base, names from either table or of their own, strings in either form |
| `QpackForms.CountRecovered` | src/http/qpack.cpp:431-451 | every insert count section 4.5.1.1 of RFC 9204 lets a decoder tell apart is recovered from its encoding |
| `QpackForms.NoRoom` | src/http/qpack.cpp:431-451 | without room for an entry a count is taken as it is |
| `QpackForms.NoPattern` | src/http/qpack.cpp:327-419 | the first bytes that begin no line |
| `QpackForms.ShortNameRefused` | src/http/qpack.cpp:388-404 | a literal name written as in section 4.5.6 of RFC 9204 is not read: the first letter is taken for a length |
| `QpackCodec.FindStatic` | src/http/qpack.cpp:239-247 | the search loop |
| `QpackCodec.EncodeStatic` | src/http/qpack.cpp:259-303 | the encoding loop outputs the zero prefix and every line in order |
| `QpackCodec.QpackDecoder.ReadLine` | src/http/qpack.cpp:327-419 | one line by its leading bits, with exceptions and reads beyond the input |
| `QpackCodec.QpackDecoder.Decode` | src/http/qpack.cpp:422-481 | prefix, base and the line loop, which keeps what it read before a line it cannot read, and tells how it ended |
| `QpackTables.LinesSurvive` | src/http/qpack.cpp:13-116 | with the table as written a list arrives unchanged if and only if each field is static or each string of it that is sent avoids the sixteen bytes in Huffman form |
| `QpackTables.HeadersDecode` | src/http/qpack.cpp:259-481 | a list decodes to itself under exactly that condition, whatever the decoder's table holds; 7-bit lists always do |
| `QpackTables.EndToEnd` | src/http/http3_session.cpp:384-394 | a message with a non-empty body, cut in any way, is reported as one HEADERS and one DATA frame with that body, and the list decodes to itself under exactly that condition |
| `Spawn.ContinuesOnce` | include/async_net/coroutine/spawn.hpp:62-77 | under every interleaving the awaiter continues at most once, with the coroutine's own result, and is only resumed when suspended |
| `Spawn.NoLostWakeup` | include/async_net/coroutine/spawn.hpp:213-232 | every move brings the end closer, and where nobody can move the awaiter has continued exactly once |
| `Strand.MutualExclusion` | include/async_net/executor/strand.hpp:47-61 | no two workers are ever inside run() together |
| `Strand.FirstInFirstOut` | include/async_net/executor/strand.hpp:30-61 | handlers start and finish in the order of their posts, each once |
| `Strand.NeverStranded` | include/async_net/executor/strand.hpp:30-61 | a non-empty queue always has exactly one dispatch owed, accepted or running |
| `Strand.EverythingRuns` | include/async_net/executor/strand.hpp:30-61 | without further posts every step brings the end closer, and at the end every posted handler has finished |
| `Strand.BasicStrand.Push` | include/async_net/executor/strand.hpp:30-38 | the lock section of post_impl |
| `Strand.BasicStrand.TakeFront` | include/async_net/executor/strand.hpp:50-58 | the lock section of run() |
| `Strand.BasicStrand.RunLoop` | include/async_net/executor/strand.hpp:47-61 | run() executes what was queued and what handlers post meanwhile, in order, and stops with nothing left |
| `Sleep.CollectExpired` | src/io/io_context.cpp:187-197 | exactly the expired timers leave the queue, earliest first |
| `Sleep.NoDanglingResume` | include/async_net/executor/schedule.hpp:41-61 | a callback that resumes finds its frame suspended in that very sleep; one whose frame was destroyed, even earlier in the same batch, resumes nothing |
| `Sleep.ResumedOnce` | include/async_net/executor/schedule.hpp:41-61 | each sleep is pending or has fired once, never early, and resumed if and only if it was not cancelled |
| `Sleep.NextBatch` | src/io/io_context.cpp:187-203 | in every reachable state whose last batch is through, the expired entries taken off the queue, earliest first, are a batch process_timers can run |
| `Sleep.DueFires` | src/io/io_context.cpp:187-203 | every sleep due when a batch is collected has fired exactly once when the batch is through, whatever its callbacks create, cancel or put to sleep, never early, and resumed if and only if it was not cancelled |
| `GrpcReader.InOrderOnce` | src/grpc/grpc_stream.cpp:12-68 | reads return the pushed messages in order, each once, no read waits while a message or the end is there, and each read has returned, waits or was forgotten |
| `GrpcReader.HistoryIs` | src/grpc/grpc_stream.cpp:50-68 | what was pushed and begun, and whether the end is known, is what the events say |
| `GrpcReader.EndAfterAll` | src/grpc/grpc_stream.cpp:12-68 | the end is reported only after finish and after every message |
| `GrpcReader.ForgottenIff` | src/grpc/grpc_stream.cpp:26-47 | a waiting read is forgotten if and only if another one begins before it is resumed |
| `GrpcStream.MessageReader.Read` | src/grpc/grpc_stream.cpp:12-48 | returns at once, or suspends in the one place there is |
| `GrpcStream.MessageReader.PushMessage` | src/grpc/grpc_stream.cpp:50-58 | appends, and resumes a waiting read with the front message |
| `GrpcStream.MessageReader.End` | src/grpc/grpc_stream.cpp:60-68 | marks the end, and resumes a waiting read |
| `GrpcStream.StreamWriter.SendMessage` | src/grpc/grpc_stream.cpp:80-93 | refused once finished, otherwise one message on the open stream |
| `GrpcStream.StreamWriter.Close` | src/grpc/grpc_stream.cpp:95-109 | the trailers once, then nothing; GrpcCalls says what they report |
| `GrpcStream.OpenStream` | src/grpc/grpc_server.cpp:276-285 | a streaming answer begins with its headers, which leave the stream open, and a writer for what follows; GrpcCalls.HeadReads says what every peer reads in them |
| `Ring.DiffCounts` | src/io/io_uring_backend.cpp:201-203 | the wrapped 32-bit difference of two indices is the number of entries between them |
| `Ring.SlotWraps` | src/io/io_uring_backend.cpp:213-213 | a wrapped index addresses the slot of the unwrapped one |
| `Ring.SlotsDiffer` | src/io/io_uring_backend.cpp:203-216 | entries less than a full ring apart never share a slot |
| `Ring.SubmissionRing.GetSqe` | src/io/io_uring_backend.cpp:199-219 | returns a blank slot that holds no entry the kernel has yet to take, or nothing if and only if the ring is still full after submitting |
| `Ring.SubmissionRing.Fill` | src/io/io_uring_backend.cpp:345-363 | filling the slot changes that entry alone |
| `Ring.SubmissionRing.SubmitSqes` | src/io/io_uring_backend.cpp:221-228 | asks for exactly what is queued |
| `Ring.SubmissionRing.KernelTakes` | src/io/io_uring_backend.cpp:221-228 | the kernel sees the entries in order, each once, as they were filled in |
| `Ring.CompletionRing.KernelPosts` | src/io/io_uring_backend.cpp:234-236 | a completion goes to a released slot and disturbs no other |
| `Ring.CompletionRing.ProcessCqes` | src/io/io_uring_backend.cpp:234-321 | visits each completion between head and tail once, in order, and releases exactly those, whatever the kernel posts meanwhile |
| `Http1Render.RequestReads` | src/http/http1_codec.cpp:135-188 | a request as written is read as the request that is meant and exactly its text is consumed, whatever follows: any method, target with or without a query, version and headers, folded or with blanks around names and values, lines without a colon between them, and no body, one of the announced length or one in chunks cut anywhere, with sizes in either case and anything behind them |
| `Http1Render.CanCut` | src/http/http1_codec.cpp:71-111 | any body can be cut into chunks anywhere, with sizes in either case |
| `Http1Render.HeadRefusedIff` | src/http/http1_codec.cpp:135-160 | a head is refused if and only if its first line is not a known method, a target without a space and something behind a second space |
| `Http1Render.SizeRefusedIff` | src/http/http1_codec.cpp:80-89 | a size line is refused if and only if it does not begin with hexadecimal digits of a number below 2^64 |
| `Http1Render.BadSizeRefused` | src/http/http1_codec.cpp:71-188 | behind any chunks such a line makes the request an error at once |
| `Http1Serialize.SerializeHeaders` | include/async_net/http/types.hpp:307-313 | the loop writes each header in order on a line of its own |
| `Http1Serialize.SerializeParses` | src/http/http1_codec.cpp:262-278 | the server reads the client's request with its method, headers and body and consumes exactly its bytes; path and query are what the path as written splits into |
| `Http1Serialize.ArrivesIff` | src/http/http1_codec.cpp:262-278 | a request arrives as it was if and only if its path is not empty and holds no question mark, its query is empty and its version is one of HTTP/1 |
| `Http1Serialize.QueryIsLost` | src/http/http1_codec.cpp:262-278 | a query given apart from the path never leaves the client |
| `Http1.ParseRequest` | src/http/http1_codec.cpp:135-188 | never consumes more than it was given; Http1Render.RequestReads says what is read |
| `Http1.ExtensionStable` | src/http/http1_codec.cpp:135-188 | once there is an answer every extension of the data gives the same one, if and only if it is not a request for which a chunk-size line was read whose 64-bit sum wraps |
| `Http1.RequestExtends` | src/http/http1_codec.cpp:135-188 | in that case the request stays a request and its body grows with every byte; errors and endless calls always stay |
| `Http1.PrefixNeedsMore` | src/http/http1_codec.cpp:135-188 | every prefix shorter than the consumed count asks for more data, for both body forms, wrapping lines or not |
| `Http1.ExactlyConsumed` | src/http/http1_codec.cpp:135-188 | the consumed bytes alone give the same request if and only if no wrapping line was read or nothing follows them |
| `Http1Search.FindMeans` | src/http/http1_codec.cpp:12-16 | the search returns the first occurrence, or says there is none |
| `Http1Chunks.EndlessIff` | src/http/http1_codec.cpp:71-111 | the chunk loop runs for ever exactly when every number of turns can be made |
| `Http1Chunks.ChunksStable` | src/http/http1_codec.cpp:71-111 | a chunked body is the same in front of any further data if and only if no line read wraps; errors and endless loops always stay |
| `Http1Chunks.ChunksPrefix` | src/http/http1_codec.cpp:71-111 | a prefix that lacks a byte of what was consumed is incomplete, never an answer or an error |
| `Http1Chunks.ChunksExact` | src/http/http1_codec.cpp:71-111 | the consumed bytes alone give the same body if and only if no line read wraps or nothing follows them |
| `Http1Chunks.GrowingBody` | src/http/http1_codec.cpp:103-107 | size FFFFFFFFFFFFFFFE makes the rest of the buffer the body |
| `Http1Chunks.EndlessBody` | src/http/http1_codec.cpp:103-107 | size FFFFFFFFFFFFFFEC brings the position back to the start, and no turn of the loop is the last |
| `Http1Chunks.EndlessGathers` | src/http/http1_codec.cpp:103-108 | each such turn gathers the rest of the buffer once more: with an empty rest the loop never ends, otherwise memory does |
| `Http1Chunks.ParseChunks` | src/http/http1_codec.cpp:71-111 | the chunk loop, with the guard and the position in 64 bits, gives its result or is still running after the turns it was allowed |
| `Http1Chunks.StillRunningIsEndless` | src/http/http1_codec.cpp:71-111 | a loop still running after one turn per byte and one more never ends |
| `Http1Witness.GrowingRequest` | src/http/http1_codec.cpp:103-107 | a chunked request with such a size is answered, and one more byte in the buffer changes its body |
| `Http1Witness.HangingRequest` | src/http/http1_codec.cpp:103-107 | a chunked request on which no turn of the loop is the last: with nothing behind it the parser never returns, with more the body it gathers grows on every turn |
| `Http1.ParseHeaderLines` | src/http/http1_codec.cpp:22-62 | the line loop with folding and trimming |
| `Http1.ReadRequest` | src/http/server_impl.cpp:54-66 | the read loop answers what parsing the reads up to the first answer answers, up to the 1000 attempts, and says how many reads it took |
| `Http1.PiecesOrWhole` | src/http/server_impl.cpp:54-66 | reading in pieces answers what one parse of everything read answers, if and only if no wrapping line was read before the last byte |
| `Http1Connection.ServeConnection` | src/http/server_impl.cpp:46-120 | the keep-alive loop over the reads of a connection, a buffer of its own for each request |
| `Http1Connection.KeepsOpenIff` | include/async_net/http/types.hpp:293-297 | a connection stays open after a request exactly for HTTP/1.1 without a Connection header, or with a first one that says keep-alive in any case |
| `Http1Connection.OnlyLastCloses` | src/http/server_impl.cpp:46-120 | nothing is served behind a request that does not ask to stay |
| `Http1Connection.WrittenIsGood` | src/http/http1_codec.cpp:135-188 | every written request is the bytes of exactly one request |
| `Http1Connection.ServedExactly` | src/http/server_impl.cpp:50-69 | of a stream of requests on one connection every one is served, from its own bytes and in order, if and only if each ends where a read ends and comes in fewer than 1000 reads |
| `Http1Connection.PipelinedIsLost` | src/http/server_impl.cpp:51-51 | of two requests that arrive in one read the second is lost |

## Left out

- Streaming callbacks of the HTTP/2 session (data callbacks, request-start and streaming handlers) and the resumption of response waiters.
- A stream's phase and whether its headers are complete are kept as in the source, where only those callbacks look at the latter and nothing at the former.
- Server push submission and the push handler; a received PUSH_PROMISE only opens its stream, and its unsplit block is outside the size claims.
- The contents left in a response object after it has been moved into its promise; the model keeps status and version and empties the rest.
- H2Delivery.SubmitAll: stream ids are unbounded here; the end-to-end theorems require them to fit 31 bits, as the wire format does.
- H2EndToEnd.EndToEnd: strings and table sizes are assumed to be shorter than 2^64 bytes, and the client's received frames to be ones it survives.
- H2Answers.RoundTrip: the client submits before it hears the answers, and survives under an exact condition; `H2Overlap.AnyOrder` lets everything overlap and assumes affordable answers; beyond that `H2OverlapEnds.ServerEnds` says when the server ends, and not what a reset stream then leaves of its call. The handler's header lists are shorter than 2^64 bytes.
- Http2SessionObject.Http2Session.OnFrame: the encoder and the decoder's table are values in the session object; HpackCodec proves their objects equal to them. What a session does after an exception or a read beyond a block is not modelled: it is dead and marked with its fate.
- PrefixInt.HpackDecodeInt: groups shifted by 64 bits or more, which C++ leaves undefined, add nothing; `PrefixInt.UndefinedIff` says when there are any.
- Hpack.StringTransfer: the `int` conversion of a string's length is exact below 2^31 only; longer strings are read as if it were exact.
- Http1.ParseRequest: responses (`parse_response`) and their serialisation are not modelled, and stability is stated for buffers shorter than 2^63 bytes.
- GrpcCalls.PeerGets: the messages are shorter than 2^32 - 5 bytes, where `GrpcWire.FramedIff` puts the limit; calls of one request and one response, metadata and dispatch are not modelled.
- Http1Connection.ServeConnection: WebSocket upgrades, failing writes and the server's shutdown end the loop in the source and are not modelled.
- Flush.FlushConserves: a coroutine runs alone between two awaits, as in a single-threaded loop; a send never accepts more than it was given.
- Spawn.NoLostWakeup: one awaiter, sequentially consistent steps; destruction of frames and detached handles are not modelled.
- Strand.EverythingRuns: the inner executor starts every accepted post and handlers return.
- Sleep.DueFires: time and the choice among equal deadlines are inputs; work guards and `next_timer_timeout_ms` are not modelled.
- Ring.CompletionRing.ProcessCqes: the search of the pending-operation maps and the re-arming of the wake-up poll are not modelled.
- GrpcStream.StreamWriter.SendMessage: a writer always has a session.
- The QPACK encoder and decoder instruction streams (`process_encoder_instructions`); the decoder theorems hold for any table they could leave.
- H3Frame.FrameReader.Feed: the reservation of an announced length near 2^62, which throws in the source (`src/http/h3_frame.hpp:264`), is not modelled; the reader goes on waiting.
- QPACK and HTTP/3 sizes above 2^62 and `int` conversions of lengths above 2^31.
- HTTP/3 sessions beyond the reader loop, TLS and DTLS, the epoll, kqueue and IOCP backends, DNS, WebSocket, client pools, server accept loops, RPC dispatch and peer-to-peer code.
- Logging, and the bodies of callbacks: the request handler is any function from requests to responses.
