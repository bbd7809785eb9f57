/**
  From a client session's submissions to a server session's dispatched requests:
  every header block and body is put back together, whatever the frame limits in
  force and however the byte stream is cut.
 */
module H2EndToEnd {
  import opened Bytes
  import opened DynamicTable
  import opened H2Frame
  import opened HttpTypes
  import opened Hpack
  import opened H2Session
  import opened H2Books
  import opened H2Replies
  import PrefixInt

  // ---------------------------------------------------------------- any chunking

  /** A session and the bytes of the unfinished frame its reader holds. */
  datatype Inbox = Inbox(session: Session, pending: seq<byte>)

  function Feed(i: Inbox, data: seq<byte>): Inbox {
    var p := Parse(i.pending + data);
    Inbox(Run(i.session, p.frames), p.rest)
  }

  function FeedAll(i: Inbox, chunks: seq<seq<byte>>): Inbox
    decreases |chunks|
  {
    if |chunks| == 0 then i else FeedAll(Feed(i, chunks[0]), chunks[1..])
  }

  function Concat(chunks: seq<seq<byte>>): seq<byte> {
    if |chunks| == 0 then [] else chunks[0] + Concat(chunks[1..])
  }

  /** Feeding chunk by chunk is feeding the concatenation at once. */
  lemma {:induction false} ChunkingIrrelevant(i: Inbox, chunks: seq<seq<byte>>)
    requires !StartsWithFrame(i.pending)
    ensures FeedAll(i, chunks) == Feed(i, Concat(chunks))
    decreases |chunks|
  {
    hide Parse, StartsWithFrame, Run;
    if |chunks| == 0 {
      assert i.pending + Concat(chunks) == i.pending;
      NothingNew(i.pending);
      RunNone(i.session);
    } else {
      var a, b := chunks[0], Concat(chunks[1..]);
      var p := Parse(i.pending + a);
      RestIsPartial(i.pending + a);
      ChunkingIrrelevant(Feed(i, a), chunks[1..]);
      ParseAppend(i.pending + a, b);
      assert i.pending + a + b == i.pending + Concat(chunks);
      RunConcat(i.session, p.frames, Parse(p.rest + b).frames);
    }
  }

  lemma NothingNew(p: seq<byte>)
    requires !StartsWithFrame(p)
    ensures Parse(p) == Parsed([], p)
  {
  }

  lemma RunDead(s: Session, fs: seq<Frame>)
    requires !s.alive
    ensures Run(s, fs) == s
  {
  }

  lemma RunNone(s: Session)
    ensures Run(s, []) == s
  {
  }

  // ---------------------------------------------------------------- the receiving side

  /** What no submission touches. */
  ghost predicate SameReceiver(s: Session, s': Session) {
    && s'.mode == s.mode && s'.alive == s.alive && s'.fate == s.fate && s'.contSid == s.contSid && s'.dyn == s.dyn
    && s'.encoder.tables == s.encoder.tables && s'.streams.Keys == s.streams.Keys
  }

  lemma SendKeeps(s: Session, sid: nat, end: bool, fs: seq<Field>)
    ensures SameReceiver(s, SendFields(s, sid, end, fs)) && SendFields(s, sid, end, fs).dispatched == s.dispatched
    ensures SendFields(s, sid, end, fs).streams == s.streams
  {
    hide HeaderFrames, EncodeBlock;
  }

  lemma ResponseKeeps(s: Session, sid: nat, resp: Response)
    ensures SameReceiver(s, SubmitResponse(s, sid, resp)) && SubmitResponse(s, sid, resp).dispatched == s.dispatched
  {
    hide SendFields, DataFrames, ResponseFields, TrailerFields;
    var hasTrailers := resp.trailers != [];
    var s1 := SendFields(s, sid, resp.body == [] && !hasTrailers, ResponseFields(resp, true));
    SendKeeps(s, sid, resp.body == [] && !hasTrailers, ResponseFields(resp, true));
    var s2 := Enqueue(s1, DataFrames(sid, !hasTrailers, resp.body, s.peerMaxFrame));
    SendKeeps(s2, sid, true, TrailerFields(resp.trailers));
  }

  /** Completing a stream on a server dispatches its request once, with the body received. */
  lemma EndDispatches(s: Session, sid: nat)
    requires Receiver(s) && sid in s.streams
    ensures var s', st := EndOfStream(s, sid), s.streams[sid];
            && SameReceiver(s, s')
            && s'.dispatched == s.dispatched + [Dispatch(sid, st.req.(body := st.body))]
  {
    hide SubmitResponse;
    var st := s.streams[sid];
    var s1 := WithStream(s, sid, st.(endStream := true));
    var req := st.req.(body := st.body);
    var s2 := WithStream(s1, sid,
        s1.streams[sid].(req := req, body := [])).(dispatched := s1.dispatched + [Dispatch(sid, req)]);
    ResponseKeeps(s2, sid, s.handler(req));
  }

  // ---------------------------------------------------------------- header blocks

  /** The server state when a new stream's HEADERS arrives. */
  function Started(s: Session, sid: nat): Session {
    WithStream(s, sid, FreshStream().(phase := Open)).(lastClient := if s.lastClient < sid then sid else s.lastClient)
  }

  lemma PlainFlags(f: Frame)
    requires f.flags < 8
    ensures !HasFlag(f, PADDED) && !HasFlag(f, WITH_PRIORITY)
    ensures Fragment(f) == Content(f.payload) && Unpadded(f) == Content(f.payload)
  {
  }

  /** The state in which a block that is now complete is applied. */
  function Resumed(s: Session, sid: nat): Session
    requires sid in s.streams
  {
    WithStream(s, sid, s.streams[sid].(pendingBlock := [])).(contSid := 0)
  }

  /** CONTINUATION frames put the rest of the block behind the pending fragment. */
  lemma {:induction false} ContinuationsArrive(s: Session, sid: nat, rest: seq<byte>, max: FrameLimit)
    requires s.alive && s.contSid == sid && sid != 0 && sid in s.streams
    ensures Run(s, ContinuationFrames(sid, rest, max))
         == ApplyBlock(Resumed(s, sid), sid, s.streams[sid].pendingBlock + rest, s.streams[sid].endStream)
    decreases |rest|
  {
    hide ApplyBlock;
    var st := s.streams[sid];
    if |rest| <= max {
      var f := Frame(CONTINUATION, END_HEADERS, sid, rest);
      RunOne(s, f);
      assert HasFlag(f, END_HEADERS);
    } else {
      var f := Frame(CONTINUATION, 0, sid, rest[..max]);
      var tail := ContinuationFrames(sid, rest[max..], max);
      var s1 := WithStream(s, sid, st.(pendingBlock := st.pendingBlock + rest[..max]));
      assert ProcessFrame(s, f) == s1;
      RunConcat(s, [f], tail);
      RunOne(s, f);
      ContinuationsArrive(s1, sid, rest[max..], max);
      assert st.pendingBlock + rest[..max] + rest[max..] == st.pendingBlock + rest;
      assert Resumed(s1, sid).streams == Resumed(s, sid).streams;
    }
  }

  /** The session ended in the middle of this block. */
  ghost predicate EndedBy(s': Session, s: Session, block: seq<byte>) {
    !s'.alive && s'.fate == DecodeBlock(s.encoder.tables, s.dyn, block).fate
  }

  lemma EscapeEnds(s: Session, sid: nat, block: seq<byte>, end: bool)
    requires sid in s.streams && Escapes(s, block)
    ensures EndedBy(ApplyBlock(s, sid, block, end), s, block)
  {
    hide DecodeBlock, ApplyRequest, ApplyResponse;
  }

  /** Remembering END_STREAM on the stream before the block is complete changes nothing. */
  lemma EndRemembered(s: Session, sid: nat, block: seq<byte>)
    requires s.mode.Server? && sid in s.streams
    ensures var remembered := ApplyBlock(WithStream(s, sid, s.streams[sid].(endStream := true)), sid, block, true);
            if Escapes(s, block) then EndedBy(remembered, s, block) else remembered == ApplyBlock(s, sid, block, true)
  {
    hide DispatchRequest, DecodeBlock, ReceiveFields;
    var st := s.streams[sid];
    var d := DecodeBlock(s.encoder.tables, s.dyn, block);
    var done := st.(endStream := true, headersComplete := true,
        req := ReceiveFields(st.req, d.headers).(version := Http2));
    var a := WithStream(s, sid, st.(endStream := true)).(dyn := d.dyn);
    assert WithStream(WithStream(a, sid, done), sid, done).streams == s.streams[sid := done];
    var b := s.(dyn := d.dyn);
    var half := st.(headersComplete := true, req := ReceiveFields(st.req, d.headers).(version := Http2));
    assert WithStream(WithStream(b, sid, half), sid, done).streams == s.streams[sid := done];
  }

  /** A header block on a new stream is applied as a whole, split or not. */
  lemma HeadersArrive(s: Session, sid: nat, end: bool, block: seq<byte>, max: FrameLimit)
    requires Receiver(s) && sid > 0 && sid !in s.streams
    ensures var s' := Run(s, HeaderFrames(sid, end, block, max));
            if Escapes(s, block) then EndedBy(s', s, block) else s' == ApplyBlock(Started(s, sid), sid, block, end)
  {
    hide ApplyBlock, DecodeBlock, Fragment, ContinuationFrames, ProcessFrame, HasFlag, Run;
    if |block| <= max {
      var f := Frame(HEADERS, EndFlag(end) + END_HEADERS, sid, block);
      PlainFlags(f);
      HeaderFlags(f, end, true);
      RunOne(s, f);
      WholeHeaders(s, f, end);
      if Escapes(s, block) {
        EscapeEnds(Started(s, sid), sid, block, end);
      }
    } else {
      var f := Frame(HEADERS, EndFlag(end), sid, block[..max]);
      PlainFlags(f);
      HeaderFlags(f, end, false);
      SplitHeadersArrive(s, f, end, block, max);
    }
  }

  lemma HeaderFlags(f: Frame, end: bool, last: bool)
    requires f.flags == EndFlag(end) + if last then END_HEADERS else 0
    ensures HasFlag(f, END_HEADERS) == last && HasFlag(f, END_STREAM) == end
  {
  }

  lemma WholeHeaders(s: Session, f: Frame, end: bool)
    requires Receiver(s) && f.kind == HEADERS && f.sid > 0 && f.sid !in s.streams
    requires Fragment(f) == Content(f.payload) && HasFlag(f, END_HEADERS) && HasFlag(f, END_STREAM) == end
    ensures ProcessFrame(s, f) == ApplyBlock(Started(s, f.sid), f.sid, f.payload, end)
  {
    hide ApplyBlock, Fragment, HasFlag, FreshStream, Ascii;
  }

  /** The state after a HEADERS frame that leaves its block open. */
  function Waiting(s: Session, sid: nat, fragment: seq<byte>, end: bool): Session {
    var base := Started(s, sid);
    WithStream(base, sid, base.streams[sid].(pendingBlock := fragment, endStream := end)).(contSid := sid)
  }

  lemma OpenHeaders(s: Session, f: Frame, fragment: seq<byte>, end: bool)
    requires Receiver(s) && f.kind == HEADERS && f.sid > 0 && f.sid !in s.streams
    requires Fragment(f) == Content(fragment) && !HasFlag(f, END_HEADERS) && HasFlag(f, END_STREAM) == end
    ensures ProcessFrame(s, f) == Waiting(s, f.sid, fragment, end)
  {
    hide Fragment, HasFlag, FreshStream, ApplyBlock;
    FreshIsClear();
  }

  lemma SplitHeadersArrive(s: Session, f: Frame, end: bool, block: seq<byte>, max: FrameLimit)
    requires Receiver(s) && f.sid > 0 && f.sid !in s.streams && |block| > max
    requires f == Frame(HEADERS, EndFlag(end), f.sid, block[..max])
    requires Fragment(f) == Content(block[..max]) && !HasFlag(f, END_HEADERS) && HasFlag(f, END_STREAM) == end
    ensures var s' := Run(s, [f] + ContinuationFrames(f.sid, block[max..], max));
            if Escapes(s, block) then EndedBy(s', s, block) else s' == ApplyBlock(Started(s, f.sid), f.sid, block, end)
  {
    hide ApplyBlock, DecodeBlock, Fragment, ContinuationFrames, HasFlag, FreshStream, ProcessFrame;
    var sid := f.sid;
    var base, s1 := Started(s, sid), Waiting(s, sid, block[..max], end);
    FreshIsClear();
    OpenHeaders(s, f, block[..max], end);
    var tail := ContinuationFrames(sid, block[max..], max);
    RunConcat(s, [f], tail);
    RunOne(s, f);
    ContinuationsArrive(s1, sid, block[max..], max);
    assert block[..max] + block[max..] == block;
    assert Resumed(s1, sid).streams == base.streams[sid := base.streams[sid].(endStream := end)];
    if Escapes(s, block) {
      EscapeEnds(Resumed(s1, sid), sid, block, end);
    } else if end {
      EndRemembered(base, sid, block);
    } else {
      assert Resumed(s1, sid).streams == base.streams;
    }
  }

  lemma FreshIsClear()
    ensures !FreshStream().endStream && FreshStream().pendingBlock == [] && FreshStream().body == []
    ensures FreshStream().req == EmptyRequest()
  {
  }

  // ---------------------------------------------------------------- bodies

  lemma DataStep(s: Session, f: Frame)
    requires Receiver(s) && f.kind == DATA && f.flags == 0 && f.sid > 0 && f.sid in s.streams
    ensures var s', st := ProcessFrame(s, f), s.streams[f.sid];
            && SameReceiver(s, s') && s'.dispatched == s.dispatched
            && s'.streams[f.sid].req == st.req && s'.streams[f.sid].body == st.body + f.payload
  {
    PlainFlags(f);
  }

  lemma LastDataStep(s: Session, f: Frame)
    requires Receiver(s) && f.kind == DATA && f.flags == END_STREAM && f.sid > 0 && f.sid in s.streams
    ensures var s', st := ProcessFrame(s, f), s.streams[f.sid];
            && SameReceiver(s, s')
            && s'.dispatched == s.dispatched + [Dispatch(f.sid, st.req.(body := st.body + f.payload))]
  {
    hide EndOfStream;
    PlainFlags(f);
    var st := s.streams[f.sid];
    var s1 := CountData(WithStream(s, f.sid, st.(body := st.body + f.payload)), f.sid, |f.payload|);
    assert HasFlag(f, END_STREAM);
    EndDispatches(s1, f.sid);
  }

  /** A body in any number of DATA frames is accumulated and dispatched once. */
  lemma {:induction false} BodyArrives(s: Session, sid: nat, body: seq<byte>, max: FrameLimit)
    requires Receiver(s) && sid > 0 && sid in s.streams && body != []
    ensures var s', st := Run(s, DataFrames(sid, true, body, max)), s.streams[sid];
            && SameReceiver(s, s')
            && s'.dispatched == s.dispatched + [Dispatch(sid, st.req.(body := st.body + body))]
    decreases |body|
  {
    hide ProcessFrame;
    var st := s.streams[sid];
    if |body| <= max {
      var f := Frame(DATA, END_STREAM, sid, body);
      RunOne(s, f);
      LastDataStep(s, f);
    } else {
      var f := Frame(DATA, 0, sid, body[..max]);
      var tail := DataFrames(sid, true, body[max..], max);
      RunConcat(s, [f], tail);
      RunOne(s, f);
      DataStep(s, f);
      BodyArrives(ProcessFrame(s, f), sid, body[max..], max);
      assert st.body + body[..max] + body[max..] == st.body + body;
    }
  }

  // ---------------------------------------------------------------- one request

  /** The frames of a request, in order. */
  function RequestFrames(sid: nat, block: seq<byte>, body: seq<byte>, max: FrameLimit): seq<Frame> {
    HeaderFrames(sid, body == [], block, max) + DataFrames(sid, true, body, max)
  }

  /** The request a server builds from a header list and a body. */
  function Assembled(fs: seq<Field>, body: seq<byte>): Request {
    ReceiveFields(EmptyRequest(), fs).(version := Http2, body := body)
  }

  lemma ReceiveKeepsBody(req: Request, fs: seq<Field>)
    ensures ReceiveFields(req, fs).body == req.body
    decreases |fs|
  {
    hide SetPath, ParseMethod;
    if |fs| > 0 {
      FieldKeepsBody(req, fs[0]);
      ReceiveKeepsBody(ReceiveField(req, fs[0]), fs[1..]);
    }
  }

  lemma FieldKeepsBody(req: Request, f: Field)
    ensures ReceiveField(req, f).body == req.body
  {
    hide ParseMethod, IndexOf;
  }

  lemma BlockApplied(s: Session, sid: nat, block: seq<byte>, end: bool)
    requires Receiver(s) && sid in s.streams
    ensures var s', st := ApplyBlock(s, sid, block, end), s.streams[sid];
            var d := DecodeBlock(s.encoder.tables, s.dyn, block);
            var req := ReceiveFields(st.req, d.headers).(version := Http2);
            if d.fate != Returned then EndedBy(s', s, block) else
            && SameReceiver(s.(dyn := d.dyn), s')
            && (end ==> s'.dispatched == s.dispatched + [Dispatch(sid, req.(body := st.body))])
            && (!end ==> s'.dispatched == s.dispatched && s'.streams[sid].req == req && s'.streams[sid].body == st.body)
  {
    hide EndOfStream, DecodeBlock, ReceiveFields;
    var st := s.streams[sid];
    var d := DecodeBlock(s.encoder.tables, s.dyn, block);
    var s0 := s.(dyn := d.dyn);
    var s1 := WithStream(s0, sid,
        st.(headersComplete := true, req := ReceiveFields(st.req, d.headers).(version := Http2)));
    if end {
      EndDispatches(s1, sid);
    }
  }

  /** A request on a new stream is dispatched once, with exactly what its block decodes to and its whole body. */
  lemma RequestArrives(s: Session, sid: nat, block: seq<byte>, body: seq<byte>, max: FrameLimit)
    requires Receiver(s) && sid > 0 && sid !in s.streams
    ensures var s' := Run(s, RequestFrames(sid, block, body, max));
            var fs := DecodeBlock(s.encoder.tables, s.dyn, block).headers;
            if Escapes(s, block) then EndedBy(s', s, block) else
            && Receiver(s') && s'.encoder.tables == s.encoder.tables
            && s'.streams.Keys == s.streams.Keys + {sid}
            && s'.dispatched == s.dispatched + [Dispatch(sid, Assembled(fs, body))]
  {
    hide ApplyBlock, HeaderFrames, DataFrames, DecodeBlock, ReceiveFields, FreshStream, Run;
    var started := Started(s, sid);
    var fs := DecodeBlock(s.encoder.tables, s.dyn, block).headers;
    HeadersArrive(s, sid, body == [], block, max);
    BlockApplied(started, sid, block, body == []);
    FreshIsClear();
    ReceiveKeepsBody(EmptyRequest(), fs);
    RunConcat(s, HeaderFrames(sid, body == [], block, max), DataFrames(sid, true, body, max));
    var s1 := ApplyBlock(started, sid, block, body == []);
    if Escapes(s, block) {
      RunDead(Run(s, HeaderFrames(sid, body == [], block, max)), DataFrames(sid, true, body, max));
    } else if body == [] {
      NoDataFrames(sid, max);
      RunNone(s1);
    } else {
      BodyArrives(s1, sid, body, max);
      assert [] + body == body;
    }
  }

  lemma NoDataFrames(sid: nat, max: FrameLimit)
    ensures DataFrames(sid, true, [], max) == []
  {
  }

  // ---------------------------------------------------------------- client runs

  /** What happens on a client session: its owner submits a request, or a frame arrives. */
  datatype ClientOp = Submit(req: Request) | Receive(f: Frame)

  function ClientStep(c: Session, op: ClientOp): Session {
    match op
    case Submit(req) => SubmitRequest(c, req, false)
    case Receive(f) => ProcessFrame(c, f)
  }

  function ClientRun(c: Session, ops: seq<ClientOp>): Session {
    if |ops| == 0 then c else ClientStep(ClientRun(c, ops[..|ops| - 1]), ops[|ops| - 1])
  }

  /** Submissions whose strings and stream id fit the machine; any received frame that leaves the client alive. */
  ghost predicate Ordinary(c: Session, op: ClientOp) {
    match op
    case Submit(req) => AllSized(RequestFields(req)) && c.nextSid < SID_LIMIT
    case Receive(f) => Fits(f) && ProcessFrame(c, f).alive
  }

  ghost predicate OrdinaryRun(c: Session, ops: seq<ClientOp>) {
    |ops| > 0 ==> OrdinaryRun(c, ops[..|ops| - 1]) && Ordinary(ClientRun(c, ops[..|ops| - 1]), ops[|ops| - 1])
  }

  /** What must be dispatched: one entry per submission, in order, on streams 1, 3, 5 and so on. */
  function Expected(tb: Tables, ops: seq<ClientOp>): seq<Dispatch> {
    if |ops| == 0 then []
    else
      var before := Expected(tb, ops[..|ops| - 1]);
      match ops[|ops| - 1]
      case Submit(req) =>
        before + [Dispatch(2 * |before| + 1, Assembled(DeliveredFields(tb, RequestFields(req)), req.body))]
      case Receive(_) => before
  }

  /** The frames a submission enqueues, and the state it leaves. */
  lemma SubmitEffect(c: Session, req: Request)
    ensures var c' := SubmitRequest(c, req, false);
            && c'.output == c.output + RequestFrames(c.nextSid, EncodeBlock(c.encoder, RequestFields(req)), req.body,
              c.peerMaxFrame)
            && c'.encoder == AfterBlock(c.encoder) && c'.mode == c.mode && c'.alive == c.alive
            && c'.nextSid == c.nextSid + 2
  {
    hide EncodeBlock, RequestFields, HeaderFrames, DataFrames, FreshStream;
    var block := EncodeBlock(c.encoder, RequestFields(req));
    var a, b := HeaderFrames(c.nextSid, req.body == [], block, c.peerMaxFrame),
        DataFrames(c.nextSid, true, req.body, c.peerMaxFrame);
    assert c.output + a + b == c.output + (a + b);
  }

  lemma {:induction false} ContinuationsFit(sid: nat, rest: seq<byte>, max: FrameLimit)
    requires sid < SID_LIMIT
    ensures forall f :: f in ContinuationFrames(sid, rest, max) ==> Fits(f)
    decreases |rest|
  {
    if |rest| > max {
      ContinuationsFit(sid, rest[max..], max);
    }
  }

  lemma {:induction false} DataFit(sid: nat, end: bool, body: seq<byte>, max: FrameLimit)
    requires sid < SID_LIMIT
    ensures forall f :: f in DataFrames(sid, end, body, max) ==> Fits(f)
    decreases |body|
  {
    if |body| > max {
      DataFit(sid, end, body[max..], max);
    }
  }

  lemma RequestFit(sid: nat, block: seq<byte>, body: seq<byte>, max: FrameLimit)
    requires sid < SID_LIMIT
    ensures forall f :: f in RequestFrames(sid, block, body, max) ==> Fits(f)
  {
    hide ContinuationFrames, DataFrames;
    if |block| > max {
      ContinuationsFit(sid, block[max..], max);
    }
    DataFit(sid, true, body, max);
  }

  // ---------------------------------------------------------------- what no received frame changes

  ghost predicate Steady(s: Session, s': Session) {
    && s'.mode == s.mode && s'.nextSid == s.nextSid && s'.encoder.tables == s.encoder.tables
    && (s.encoder.max < PrefixInt.WORD64 ==> s'.encoder.max < PrefixInt.WORD64)
    && s.output <= s'.output && s.dispatched <= s'.dispatched && s.completed <= s'.completed
  }

  lemma SendSteady(s: Session, sid: nat, end: bool, fs: seq<Field>)
    ensures Steady(s, SendFields(s, sid, end, fs))
  {
    hide HeaderFrames, EncodeBlock;
  }

  lemma ResponseSteady(s: Session, sid: nat, resp: Response)
    ensures Steady(s, SubmitResponse(s, sid, resp))
  {
    hide SendFields, DataFrames, ResponseFields, TrailerFields;
    var hasTrailers := resp.trailers != [];
    var s1 := SendFields(s, sid, resp.body == [] && !hasTrailers, ResponseFields(resp, true));
    SendSteady(s, sid, resp.body == [] && !hasTrailers, ResponseFields(resp, true));
    var s2 := Enqueue(s1, DataFrames(sid, !hasTrailers, resp.body, s.peerMaxFrame));
    SendSteady(s2, sid, true, TrailerFields(resp.trailers));
  }

  lemma EndSteady(s: Session, sid: nat)
    requires sid in s.streams
    ensures Steady(s, EndOfStream(s, sid))
  {
    hide SubmitResponse;
    if s.mode.Server? {
      var st := s.streams[sid].(endStream := true);
      var req := st.req.(body := st.body);
      var s1 := WithStream(s, sid, st);
      var s2 := WithStream(s1, sid, st.(req := req, body := [])).(dispatched := s1.dispatched + [Dispatch(sid, req)]);
      ResponseSteady(s2, sid, s.handler(req));
    }
  }

  lemma BlockSteady(s: Session, sid: nat, block: seq<byte>, end: bool)
    requires sid in s.streams
    ensures Steady(s, ApplyBlock(s, sid, block, end))
  {
    hide EndOfStream, DecodeBlock, ReceiveFields, ReceiveResponse;
    var st := s.streams[sid];
    var d := DecodeBlock(s.encoder.tables, s.dyn, block);
    if end {
      if s.mode.Server? {
        EndSteady(WithStream(s.(dyn := d.dyn), sid,
          st.(headersComplete := true, req := ReceiveFields(st.req, d.headers).(version := Http2))), sid);
      } else {
        EndSteady(WithStream(s.(dyn := d.dyn), sid,
          st.(headersComplete := true, resp := ReceiveResponse(st.resp, d.headers).(version := Http2))), sid);
      }
    }
  }

  lemma DataSteady(s: Session, f: Frame)
    ensures Steady(s, HandleData(s, f))
  {
    hide EndOfStream, Unpadded;
    if f.sid != 0 && f.sid in s.streams && Unpadded(f).Content? && HasFlag(f, END_STREAM) {
      var st := s.streams[f.sid];
      EndSteady(CountData(WithStream(s, f.sid, st.(body := st.body + Unpadded(f).data)), f.sid, |Unpadded(f).data|),
        f.sid);
    }
  }

  lemma HeadersSteady(s: Session, f: Frame)
    ensures Steady(s, HandleHeaders(s, f))
  {
    hide ApplyBlock, Fragment, HasFlag, FreshStream;
    var c := Fragment(f);
    if f.sid != 0 && c.Content? && HasFlag(f, END_HEADERS) {
      if s.mode.Server? {
        var started := WithStream(s, f.sid, StreamOf(s, f.sid).(phase := Open));
        BlockSteady(started.(lastClient := if s.lastClient < f.sid then f.sid else s.lastClient), f.sid, c.data,
          HasFlag(f, END_STREAM));
      } else if f.sid in s.streams {
        BlockSteady(s, f.sid, c.data, HasFlag(f, END_STREAM));
      }
    }
  }

  lemma ContinuationSteady(s: Session, f: Frame)
    ensures Steady(s, HandleContinuation(s, f))
  {
    hide ApplyBlock, HasFlag;
    if f.sid in s.streams && HasFlag(f, END_HEADERS) {
      var st := s.streams[f.sid];
      BlockSteady(WithStream(s, f.sid, st.(pendingBlock := [])).(contSid := 0), f.sid, st.pendingBlock + f.payload,
        st.endStream);
    }
  }

  lemma {:induction false} SettingsSteady(s: Session, xs: seq<Setting>)
    requires forall x :: x in xs ==> x.value < WORD32
    ensures Steady(s, ApplySettings(s, xs))
    decreases |xs|
  {
    hide ApplySetting;
    if |xs| > 0 && s.alive {
      assert xs[0] in xs;
      SettingSteady(s, xs[0]);
      SettingsSteady(ApplySetting(s, xs[0]), xs[1..]);
    }
  }

  lemma SettingSteady(s: Session, x: Setting)
    requires x.value < WORD32
    ensures Steady(s, ApplySetting(s, x))
  {
    hide Resize, ShiftWindows, Goaway;
    GoawaySteady(s, FLOW_CONTROL_ERROR, "");
    GoawaySteady(s, PROTOCOL_ERROR, "Invalid MAX_FRAME_SIZE");
  }

  lemma SettingsFrameSteady(s: Session, f: Frame)
    ensures Steady(s, HandleSettings(s, f))
  {
    hide ApplySettings, ParseSettings, HasFlag, Goaway;
    GoawaySteady(s, PROTOCOL_ERROR, "SETTINGS on non-zero stream");
    GoawaySteady(s, FRAME_SIZE_ERROR, "");
    SettingsSteady(s, ParseSettings(f.payload));
  }

  lemma ControlSteady(s: Session, f: Frame)
    ensures Steady(s, HandlePing(s, f)) && Steady(s, HandleRstStream(s, f))
  {
    hide HasFlag, Goaway;
    GoawaySteady(s, PROTOCOL_ERROR, "PING on non-zero stream");
    GoawaySteady(s, FRAME_SIZE_ERROR, "");
  }

  lemma UpdateSteady(s: Session, f: Frame)
    ensures Steady(s, HandleWindowUpdate(s, f))
  {
    hide ParseWindowUpdate, Be32, Goaway;
    GoawaySteady(s, FRAME_SIZE_ERROR, "");
    GoawaySteady(s, PROTOCOL_ERROR, "WINDOW_UPDATE 0 increment");
    GoawaySteady(s.(connSend := s.connSend + ParseWindowUpdate(f.payload)), FLOW_CONTROL_ERROR, "");
  }

  lemma SteadyHere(s: Session)
    ensures Steady(s, s) && Steady(s, s.(alive := false))
  {
  }

  lemma GoawaySteady(s: Session, code: nat, debug: string)
    ensures Steady(s, Goaway(s, code, debug))
  {
    hide Ascii;
  }

  lemma PushSteady(s: Session, f: Frame)
    ensures Steady(s, HandlePushPromise(s, f))
  {
    hide DecodeBlock, FreshStream, Ascii, From32;
  }

  /**
    Receiving a frame never changes the mode, the tables or the next stream id, and only appends output, dispatches
    and completions.
   */
  lemma FrameSteady(s: Session, f: Frame)
    ensures Steady(s, ProcessFrame(s, f))
  {
    hide HandleData, HandleHeaders, HandleContinuation, HandleSettings, HandlePing, HandleRstStream, HandleWindowUpdate,
      HandlePushPromise, Goaway, Steady;
    GoawaySteady(s, PROTOCOL_ERROR, "Expected CONTINUATION");
    GoawaySteady(s, PROTOCOL_ERROR, "Unexpected CONTINUATION");
    SteadyHere(s);
    DataSteady(s, f);
    HeadersSteady(s, f);
    ContinuationSteady(s, f);
    SettingsFrameSteady(s, f);
    ControlSteady(s, f);
    UpdateSteady(s, f);
    PushSteady(s, f);
  }

  // ---------------------------------------------------------------- the theorem

  /** The server's reaction to the client's first frame. */
  lemma Greeting(s: Session)
    requires Receiver(s) && s.streams == map[] && s.peerInitial == 65535
    ensures var s' := Run(s, [SettingsFrame(InitialSettings())]);
            && Receiver(s') && s'.streams == map[] && s'.encoder.tables == s.encoder.tables
            && s'.dispatched == s.dispatched && s'.connSend == s.connSend
  {
    hide Run, HandleSettings, InitialSettings;
    RunOne(s, SettingsFrame(InitialSettings()));
    SettingsTaken(s);
  }

  lemma SettingsTaken(s: Session)
    requires Receiver(s) && s.streams == map[]
    ensures var s' := HandleSettings(s, SettingsFrame(InitialSettings()));
            && Receiver(s') && s'.streams == map[] && s'.encoder.tables == s.encoder.tables
            && s'.dispatched == s.dispatched && s'.connSend == s.connSend
  {
    hide ApplySettings, ParseSettings, Goaway;
    SettingsRoundTrip(InitialSettings());
    FourSettings(s, InitialSettings());
  }

  lemma FourSettings(s: Session, xs: seq<Setting>)
    requires s.alive && s.streams == map[] && xs == InitialSettings()
    ensures var s' := ApplySettings(s, xs);
            && s'.mode == s.mode && s'.alive && s'.fate == s.fate && s'.contSid == s.contSid && s'.streams == map[]
            && s'.encoder == s.encoder && s'.dispatched == s.dispatched && s'.connSend == s.connSend
  {
    var s1 := ApplySetting(s, xs[0]);
    var s2 := ApplySetting(s1, xs[1]);
    var s3 := ApplySetting(s2, xs[2]);
    var s4 := ApplySetting(s3, xs[3]);
    assert s2.streams == map[];
    assert xs[1..][1..][1..][1..] == [];
    assert ApplySettings(s4, xs[1..][1..][1..][1..]) == s4;
    assert ApplySettings(s3, xs[1..][1..][1..]) == s4;
    assert ApplySettings(s2, xs[1..][1..]) == s4;
    assert ApplySettings(s1, xs[1..]) == s4;
  }

  /**
    The server never debits its send windows, so it gives up once the connection credit a client has announced
    exceeds 2^31 - 1 together with the initial window, however much of it the responses have used.
   */
  ghost predicate WithinCredit(c: Session) {
    DEFAULT_WINDOW + Announced(c.output, 0) <= MAX_WINDOW_SIZE
  }

  ghost predicate ClientOk(tb: Tables, c: Session, ops: seq<ClientOp>) {
    && c.mode.Client? && c.encoder.tables == tb && c.encoder.max < PrefixInt.WORD64
    && c.nextSid == 2 * |Expected(tb, ops)| + 1
    && forall f :: f in c.output ==> Fits(f)
  }

  ghost predicate ServerOk(tb: Tables, c: Session, s: Session, ops: seq<ClientOp>) {
    && Receiver(s) && s.encoder.tables == tb
    && (forall k :: k in s.streams ==> k < c.nextSid)
    && s.dispatched == Expected(tb, ops)
    && s.connSend == DEFAULT_WINDOW + Announced(c.output, 0)
  }

  /** The joint state of a client and of a server that has processed all the client's frames. */
  ghost predicate InStep(tb: Tables, c: Session, s: Session, ops: seq<ClientOp>) {
    && ClientOk(tb, c, ops)
    && (if WithinCredit(c) then ServerOk(tb, c, s, ops)
        else !s.alive && s.fate == Returned && s.dispatched <= Expected(tb, ops))
  }

  lemma RequestQuiet(sid: nat, block: seq<byte>, body: seq<byte>, max: FrameLimit)
    ensures NoUpdates(RequestFrames(sid, block, body, max)) && Announced(RequestFrames(sid, block, body, max), 0) == 0
  {
    hide HeaderFrames, DataFrames, Announced;
    HeadersQuiet(sid, body == [], block, max);
    DataQuiet(sid, true, body, max);
    AnnouncedNone(RequestFrames(sid, block, body, max), 0);
  }

  lemma SubmitKeepsClient(tb: Tables, c: Session, ops: seq<ClientOp>, req: Request)
    requires ClientOk(tb, c, ops) && Ordinary(c, Submit(req))
    ensures var frames := RequestFrames(c.nextSid, EncodeBlock(c.encoder, RequestFields(req)), req.body,
            c.peerMaxFrame);
            && SubmitRequest(c, req, false).output == c.output + frames
            && ClientOk(tb, SubmitRequest(c, req, false), ops + [Submit(req)])
            && Announced(c.output + frames, 0) == Announced(c.output, 0)
  {
    hide EncodeBlock, RequestFields, RequestFrames, SubmitRequest, Assembled, DeliveredFields, Announced;
    var block := EncodeBlock(c.encoder, RequestFields(req));
    SubmitEffect(c, req);
    RequestFit(c.nextSid, block, req.body, c.peerMaxFrame);
    RequestQuiet(c.nextSid, block, req.body, c.peerMaxFrame);
    AnnouncedConcat(c.output, RequestFrames(c.nextSid, block, req.body, c.peerMaxFrame), 0);
    assert (ops + [Submit(req)])[..|ops|] == ops;
  }

  lemma SubmitKeepsServer(tb: Tables, c: Session, s: Session, ops: seq<ClientOp>, req: Request)
    requires Addressable(tb) && ClientOk(tb, c, ops) && ServerOk(tb, c, s, ops) && Ordinary(c, Submit(req))
    ensures var frames := RequestFrames(c.nextSid, EncodeBlock(c.encoder, RequestFields(req)), req.body,
            c.peerMaxFrame);
            var s' := Run(s, frames);
            && Receiver(s') && s'.encoder.tables == tb && s'.streams.Keys == s.streams.Keys + {c.nextSid}
            && s'.dispatched == Expected(tb, ops + [Submit(req)]) && s'.connSend == s.connSend
  {
    hide EncodeBlock, RequestFields, RequestFrames, DecodeBlock, Assembled, DeliveredFields, Run, Announced, Expected,
      NoUpdates;
    var fs := RequestFields(req);
    var block := EncodeBlock(c.encoder, fs);
    BlockTransfer(c.encoder, s.dyn, fs);
    RequestArrives(s, c.nextSid, block, req.body, c.peerMaxFrame);
    RequestQuiet(c.nextSid, block, req.body, c.peerMaxFrame);
    RunKeepsCredit(s, RequestFrames(c.nextSid, block, req.body, c.peerMaxFrame));
    ExpectedSubmit(tb, ops, req);
  }

  lemma ExpectedSubmit(tb: Tables, ops: seq<ClientOp>, req: Request)
    ensures var before := Expected(tb, ops);
            Expected(tb, ops + [Submit(req)])
            == before + [Dispatch(2 * |before| + 1, Assembled(DeliveredFields(tb, RequestFields(req)), req.body))]
  {
    hide Assembled, DeliveredFields, RequestFields;
    assert (ops + [Submit(req)])[..|ops|] == ops;
  }

  lemma ExpectedMore(tb: Tables, ops: seq<ClientOp>, op: ClientOp)
    ensures Expected(tb, ops) <= Expected(tb, ops + [op])
            && (op.Receive? ==> Expected(tb, ops + [op]) == Expected(tb, ops))
  {
    hide Assembled, DeliveredFields, RequestFields;
    assert (ops + [op])[..|ops|] == ops;
  }

  lemma SubmitKeepsStep(tb: Tables, c: Session, s: Session, ops: seq<ClientOp>, req: Request)
    requires Addressable(tb) && InStep(tb, c, s, ops) && Ordinary(c, Submit(req))
    ensures var c' := SubmitRequest(c, req, false);
            c.output <= c'.output && InStep(tb, c', Run(s, c'.output[|c.output|..]), ops + [Submit(req)])
  {
    hide EncodeBlock, RequestFields, RequestFrames, SubmitRequest, ProcessFrame, Announced, Expected, Run;
    var c' := SubmitRequest(c, req, false);
    var frames := RequestFrames(c.nextSid, EncodeBlock(c.encoder, RequestFields(req)), req.body, c.peerMaxFrame);
    SubmitKeepsClient(tb, c, ops, req);
    assert c'.output[|c.output|..] == frames;
    assert c'.nextSid == c.nextSid + 2 by { SubmitEffect(c, req); }
    if WithinCredit(c) {
      SubmitKeepsServer(tb, c, s, ops, req);
    } else {
      RunDead(s, frames);
      ExpectedMore(tb, ops, Submit(req));
    }
  }

  lemma ReceiveKeepsStep(tb: Tables, c: Session, s: Session, ops: seq<ClientOp>, f: Frame)
    requires InStep(tb, c, s, ops) && Ordinary(c, Receive(f)) && InRange(c)
    ensures var c' := ProcessFrame(c, f);
            c.output <= c'.output && InStep(tb, c', Run(s, c'.output[|c.output|..]), ops + [Receive(f)])
  {
    hide ProcessFrame, Announced;
    var c' := ProcessFrame(c, f);
    FrameSteady(c, f);
    ClientReplies(c, f);
    var replies := NewFrames(c, c');
    assert c'.output == c.output + replies;
    AnnouncedConcat(c.output, replies, 0);
    assert (ops + [Receive(f)])[..|ops|] == ops;
    ExpectedMore(tb, ops, Receive(f));
    if WithinCredit(c) {
      RepliesTaken(s, replies);
    } else {
      RunDead(s, replies);
    }
  }

  // ---------------------------------------------------------------- the client's receive windows

  function EventOf(op: ClientOp): Event {
    match op
    case Submit(req) => Ask(req, false)
    case Receive(f) => Arrive(f)
  }

  function EventsOf(ops: seq<ClientOp>): (es: seq<Event>)
    ensures |es| == |ops| && forall i :: 0 <= i < |ops| ==> es[i] == EventOf(ops[i])
  {
    seq(|ops|, i requires 0 <= i < |ops| => EventOf(ops[i]))
  }

  lemma {:induction false} ClientRunIsReach(c: Session, ops: seq<ClientOp>)
    requires c.alive && OrdinaryRun(c, ops)
    ensures ClientRun(c, ops) == Reach(c, EventsOf(ops)) && ClientRun(c, ops).alive
    ensures forall e :: e in EventsOf(ops) ==> Wire(e)
  {
    hide ProcessFrame, SubmitRequest;
    if |ops| > 0 {
      var front, op := ops[..|ops| - 1], ops[|ops| - 1];
      ClientRunIsReach(c, front);
      assert EventsOf(ops)[..|ops| - 1] == EventsOf(front);
      assert EventsOf(ops) == EventsOf(front) + [EventOf(op)];
      if op.Submit? {
        assert SubmitRequest(ClientRun(c, front), op.req, false).alive by { SubmitEffect(ClientRun(c, front), op.req); }
      }
    }
  }

  lemma ClientInRange(tb: Tables, handler: Request -> Response, ops: seq<ClientOp>)
    requires OrdinaryRun(NewSession(Client, tb, handler), ops)
    ensures InRange(ClientRun(NewSession(Client, tb, handler), ops))
  {
    hide ClientRun, OrdinaryRun, Reach, BooksOf;
    ClientRunIsReach(NewSession(Client, tb, handler), ops);
    WindowsBalance(Client, tb, handler, EventsOf(ops));
  }

  // ---------------------------------------------------------------- whole runs

  /** After every client run, a server that has processed the client's frames has dispatched exactly the submissions. */
  lemma {:induction false} StepByStep(tb: Tables, onClient: Request -> Response, onServer: Request -> Response,
        ops: seq<ClientOp>)
    requires Addressable(tb) && OrdinaryRun(NewSession(Client, tb, onClient), ops)
    ensures var c := ClientRun(NewSession(Client, tb, onClient), ops);
            InStep(tb, c, Run(NewSession(Server, tb, onServer), c.output), ops)
  {
    hide Run, ProcessFrame, SubmitRequest, Ordinary, InitialSettings, InStep;
    var c0, s0 := NewSession(Client, tb, onClient), NewSession(Server, tb, onServer);
    if |ops| == 0 {
      FirstStep(tb, onClient, onServer);
    } else {
      var front, op := ops[..|ops| - 1], ops[|ops| - 1];
      assert ops == front + [op];
      StepByStep(tb, onClient, onServer, front);
      var c := ClientRun(c0, front);
      var s := Run(s0, c.output);
      var c' := ClientStep(c, op);
      match op {
        case Submit(req) => SubmitKeepsStep(tb, c, s, front, req);
        case Receive(f) =>
          ClientInRange(tb, onClient, front);
          ReceiveKeepsStep(tb, c, s, front, f);
      }
      RunConcat(s0, c.output, c'.output[|c.output|..]);
      assert c.output + c'.output[|c.output|..] == c'.output;
    }
  }

  lemma FirstStep(tb: Tables, onClient: Request -> Response, onServer: Request -> Response)
    ensures var c := NewSession(Client, tb, onClient);
            InStep(tb, c, Run(NewSession(Server, tb, onServer), c.output), [])
  {
    hide Run, InitialSettings;
    Greeting(NewSession(Server, tb, onServer));
    FourOfThem();
    AnnouncedNone(NewSession(Client, tb, onClient).output, 0);
  }

  lemma FourOfThem()
    ensures |InitialSettings()| == 4
  {
  }

  /**
    End to end: for every client run, interleaved with any received frames the client survives, and every chunking of
    the client's output, the server dispatches each submitted request once, in order, with the delivered header list and
    the exact body. It stays alive exactly as long as the credit it was announced fits its window; when it has given up,
    what it dispatched is a prefix of the submissions, and its decoder never read beyond a block.
   */
  lemma EndToEnd(tb: Tables, onClient: Request -> Response, onServer: Request -> Response, ops: seq<ClientOp>,
        chunks: seq<seq<byte>>)
    requires Addressable(tb) && OrdinaryRun(NewSession(Client, tb, onClient), ops)
    requires Concat(chunks) == Serialize(ClientRun(NewSession(Client, tb, onClient), ops).output)
    ensures var c := ClientRun(NewSession(Client, tb, onClient), ops);
            var s := FeedAll(Inbox(NewSession(Server, tb, onServer), []), chunks).session;
            && (s.alive <==> WithinCredit(c)) && s.fate == Returned
            && s.dispatched <= Expected(tb, ops) && (s.alive ==> s.dispatched == Expected(tb, ops))
  {
    hide Run, ClientRun, OrdinaryRun, Parse, Serialize, NewSession, Expected, Announced;
    var c, s0 := ClientRun(NewSession(Client, tb, onClient), ops), NewSession(Server, tb, onServer);
    StepByStep(tb, onClient, onServer, ops);
    ChunkingIrrelevant(Inbox(s0, []), chunks);
    var wire := Serialize(c.output);
    assert [] + wire == wire && wire + [] == wire;
    SerializeParse(c.output, []);
    NothingNew([]);
    assert c.output + [] == c.output;
  }

  /** A client that only submits announces no credit at all, so its server always stays alive. */
  lemma {:induction false} SubmissionsWithinCredit(tb: Tables, handler: Request -> Response, ops: seq<ClientOp>)
    requires Addressable(tb) && OrdinaryRun(NewSession(Client, tb, handler), ops)
             && forall op :: op in ops ==> op.Submit?
    ensures Announced(ClientRun(NewSession(Client, tb, handler), ops).output, 0) == 0
  {
    hide Run, ProcessFrame, SubmitRequest, Ordinary, InitialSettings, InStep, Announced, RequestFields, EncodeBlock,
      RequestFrames;
    var c0 := NewSession(Client, tb, handler);
    if |ops| == 0 {
      AnnouncedNone(c0.output, 0);
    } else {
      var front, op := ops[..|ops| - 1], ops[|ops| - 1];
      assert op in ops;
      SubmissionsWithinCredit(tb, handler, front);
      var c := ClientRun(c0, front);
      var frames := RequestFrames(c.nextSid, EncodeBlock(c.encoder, RequestFields(op.req)), op.req.body,
          c.peerMaxFrame);
      SubmitEffect(c, op.req);
      RequestQuiet(c.nextSid, EncodeBlock(c.encoder, RequestFields(op.req)), op.req.body, c.peerMaxFrame);
      AnnouncedConcat(c.output, frames, 0);
    }
  }
}
