/**
  A gRPC stream writer on a busy session: between its writes anything may happen on the other streams of the session
  and on the connection. What the writer's own stream carries does not depend on it.
 */
module H2Writer {
  import opened Bytes
  import opened DynamicTable
  import opened H2Frame
  import opened HttpTypes
  import opened Hpack
  import opened H2Session
  import opened H2Books
  import opened H2Splitting

  // ---------------------------------------------------------------- what a session says on other streams

  /** What the peer's settings have made of a session: the terms it speaks on. */
  datatype Terms = Terms(frame: nat, push: bool, table: nat, held: nat, initial: nat)

  function TermsOf(s: Session): Terms {
    Terms(s.peerMaxFrame, s.enablePush, s.encoder.max, s.encoder.dyn.max, s.peerInitial)
  }

  /** Frames for one stream and for the connection have been added, none longer than max, and no others. */
  ghost predicate Says(s: Session, s': Session, sid: nat, max: nat) {
    && s.output <= s'.output
    && forall f :: f in NewFrames(s, s') ==> (f.sid == 0 || f.sid == sid) && |f.payload| <= max
  }

  /** The same within the terms of the session, which stay as they are. */
  ghost predicate Adds(s: Session, s': Session, sid: nat) {
    Says(s, s', sid, s.peerMaxFrame) && TermsOf(s') == TermsOf(s)
  }

  lemma AddsHere(s: Session, s': Session, sid: nat)
    requires s'.output == s.output && TermsOf(s') == TermsOf(s)
    ensures Adds(s, s', sid)
  {
    assert NewFrames(s, s') == [];
  }

  lemma AddsFrames(s: Session, s': Session, sid: nat, fs: seq<Frame>)
    requires s'.output == s.output + fs && TermsOf(s') == TermsOf(s)
    requires forall f :: f in fs ==> (f.sid == 0 || f.sid == sid) && |f.payload| <= s.peerMaxFrame
    ensures Adds(s, s', sid)
  {
    assert NewFrames(s, s') == fs;
  }

  lemma SaysTrans(a: Session, b: Session, c: Session, sid: nat, max: nat)
    requires Says(a, b, sid, max) && Says(b, c, sid, max)
    ensures Says(a, c, sid, max)
  {
    assert NewFrames(a, c) == NewFrames(a, b) + NewFrames(b, c);
  }

  lemma AddsTrans(a: Session, b: Session, c: Session, sid: nat)
    requires Adds(a, b, sid) && Adds(b, c, sid)
    ensures Adds(a, c, sid)
  {
    SaysTrans(a, b, c, sid, a.peerMaxFrame);
  }

  /** The same output and terms, and a common way on. */
  lemma AddsFrom(a: Session, b: Session, c: Session, sid: nat)
    requires a.output == b.output && TermsOf(a) == TermsOf(b) && Adds(b, c, sid)
    ensures Adds(a, c, sid)
  {
    assert NewFrames(a, c) == NewFrames(b, c);
  }

  lemma AddsSays(s: Session, s': Session, sid: nat)
    requires Adds(s, s', sid)
    ensures Says(s, s', sid, s.peerMaxFrame) && TermsOf(s') == TermsOf(s)
  {
  }

  lemma GoawaySays(s: Session, code: nat, debug: string, sid: nat)
    requires |debug| <= 16000
    ensures Adds(s, Goaway(s, code, debug), sid) && Says(s, Goaway(s, code, debug), sid, 16384)
  {
    hide Be32;
    AsciiLength(debug);
    var f := GoawayFrame(s.lastClient, code, Ascii(debug));
    assert |f.payload| == 8 + |debug|;
    assert NewFrames(s, Goaway(s, code, debug)) == [f];
  }

  lemma AsciiLength(s: string)
    ensures |Ascii(s)| == |s|
  {
  }

  lemma GoawayAdds(s: Session, code: nat, debug: string, sid: nat)
    requires |debug| <= 16000
    ensures Adds(s, Goaway(s, code, debug), sid)
  {
    hide Goaway, Adds, Says;
    GoawaySays(s, code, debug, sid);
  }

  lemma SendAdds(s: Session, sid: nat, end: bool, fs: seq<Field>)
    ensures Adds(s, SendFields(s, sid, end, fs), sid)
  {
    hide HeaderFrames, EncodeBlock, Adds;
    HeaderSplit(sid, end, EncodeBlock(s.encoder, fs), s.peerMaxFrame);
    AddsFrames(s, SendFields(s, sid, end, fs), sid, HeaderFrames(sid, end, EncodeBlock(s.encoder, fs), s.peerMaxFrame));
  }

  lemma ResponseAdds(s: Session, sid: nat, resp: Response)
    ensures Adds(s, SubmitResponse(s, sid, resp), sid)
  {
    hide SubmitResponse, ResponseFrames, Adds, EndsOnce;
    ResponseAppends(s, sid, resp);
    ResponseEndsOnce(s, sid, resp);
    ResponseTerms(s, sid, resp);
    AddsFrames(s, SubmitResponse(s, sid, resp), sid, ResponseFrames(s, sid, resp));
  }

  lemma ResponseTerms(s: Session, sid: nat, resp: Response)
    ensures TermsOf(SubmitResponse(s, sid, resp)) == TermsOf(s)
  {
    hide HeaderFrames, DataFrames, EncodeBlock, ResponseFields, TrailerFields;
  }

  lemma RequestAdds(s: Session, req: Request, keepOpen: bool)
    ensures Adds(s, SubmitRequest(s, req, keepOpen), s.nextSid)
  {
    hide HeaderFrames, DataFrames, EncodeBlock, RequestFields, Adds, FreshStream;
    var sid, end, block := s.nextSid, req.body == [] && !keepOpen, EncodeBlock(s.encoder, RequestFields(req));
    var a, b := HeaderFrames(sid, end, block, s.peerMaxFrame), DataFrames(sid, true, req.body, s.peerMaxFrame);
    HeaderSplit(sid, end, block, s.peerMaxFrame);
    DataSplit(sid, true, req.body, s.peerMaxFrame);
    assert s.output + a + b == s.output + (a + b);
    AddsFrames(s, SubmitRequest(s, req, keepOpen), sid, a + b);
  }

  lemma DataAdds(s: Session, sid: nat, data: seq<byte>, end: bool)
    ensures Adds(s, SubmitData(s, sid, data, end), sid)
  {
    hide DataFrames, Adds;
    DataSplit(sid, end, data, s.peerMaxFrame);
    AddsFrames(s, SubmitData(s, sid, data, end), sid,
               if data == [] then [Frame(DATA, EndFlag(end), sid, [])] else DataFrames(sid, end, data, s.peerMaxFrame));
  }

  lemma TrailersAdd(s: Session, sid: nat, trailers: seq<Field>)
    ensures Adds(s, SubmitTrailers(s, sid, trailers), sid)
  {
    hide SendFields, Adds, TrailerFields;
    var sent := SendFields(s, sid, true, TrailerFields(trailers));
    SendAdds(s, sid, true, TrailerFields(trailers));
    AddsHere(sent, SubmitTrailers(s, sid, trailers), sid);
    AddsTrans(s, sent, SubmitTrailers(s, sid, trailers), sid);
  }

  lemma EndAdds(s: Session, sid: nat)
    requires sid in s.streams
    ensures Adds(s, EndOfStream(s, sid), sid)
  {
    hide SubmitResponse, Adds;
    var st := s.streams[sid].(endStream := true);
    var s1 := WithStream(s, sid, st);
    if s.mode.Server? {
      var req := st.req.(body := st.body);
      var s2 := WithStream(s1, sid, st.(req := req, body := [])).(dispatched := s1.dispatched + [Dispatch(sid, req)]);
      ResponseAdds(s2, sid, s.handler(req));
      AddsFrom(s, s2, EndOfStream(s, sid), sid);
    } else {
      AddsHere(s, EndOfStream(s, sid), sid);
    }
  }

  lemma BlockAdds(s: Session, sid: nat, block: seq<byte>, end: bool)
    requires sid in s.streams
    ensures Adds(s, ApplyBlock(s, sid, block, end), sid)
  {
    hide EndOfStream, DecodeBlock, ReceiveFields, ReceiveResponse, Adds;
    var d, st := DecodeBlock(s.encoder.tables, s.dyn, block), s.streams[sid];
    var s1 := s.(dyn := d.dyn);
    if d.fate != Returned || !end {
      AddsHere(s, ApplyBlock(s, sid, block, end), sid);
    } else {
      var st' := if s.mode.Server?
          then st.(headersComplete := true, req := ReceiveFields(st.req, d.headers).(version := Http2))
                 else st.(headersComplete := true, resp := ReceiveResponse(st.resp, d.headers).(version := Http2));
      EndAdds(WithStream(s1, sid, st'), sid);
      AddsFrom(s, WithStream(s1, sid, st'), ApplyBlock(s, sid, block, end), sid);
    }
  }

  lemma HeadersAdd(s: Session, f: Frame)
    ensures Adds(s, HandleHeaders(s, f), f.sid)
  {
    hide ApplyBlock, Fragment, HasFlag, Goaway, FreshStream, Adds;
    GoawayAdds(s, PROTOCOL_ERROR, "HEADERS on stream 0", f.sid);
    match Fragment(f)
    case Fault(code) => GoawayAdds(s, code, "", f.sid);
    case Content(fragment) =>
      var begun := WithStream(s, f.sid, StreamOf(s, f.sid).(phase := Open))
        .(lastClient := if s.lastClient < f.sid then f.sid else s.lastClient);
      var s1 := if s.mode.Server? then begun else s;
      if f.sid in s1.streams && HasFlag(f, END_HEADERS) {
        BlockAdds(s1, f.sid, fragment, HasFlag(f, END_STREAM));
        AddsFrom(s, s1, ApplyBlock(s1, f.sid, fragment, HasFlag(f, END_STREAM)), f.sid);
      } else if f.sid != 0 {
        AddsHere(s, HandleHeaders(s, f), f.sid);
      }
  }

  lemma ContinuationAdds(s: Session, f: Frame)
    ensures Adds(s, HandleContinuation(s, f), f.sid)
  {
    hide ApplyBlock, HasFlag, Goaway, Adds;
    GoawayAdds(s, PROTOCOL_ERROR, "CONTINUATION for unknown stream", f.sid);
    if f.sid in s.streams {
      var st := s.streams[f.sid];
      if HasFlag(f, END_HEADERS) {
        var closed := WithStream(s, f.sid, st.(pendingBlock := [])).(contSid := 0);
        BlockAdds(closed, f.sid, st.pendingBlock + f.payload, st.endStream);
        AddsFrom(s, closed, HandleContinuation(s, f), f.sid);
      } else {
        AddsHere(s, HandleContinuation(s, f), f.sid);
      }
    }
  }

  lemma CountAdds(s: Session, sid: nat, n: nat)
    requires sid in s.streams
    ensures Adds(s, CountData(s, sid, n), sid)
  {
    hide Adds, Be32, Refill;
    AddsFrames(s, CountData(s, sid, n), sid,
               RefillFrames(0, Refill(s.connRecv - n)) + RefillFrames(sid, Refill(s.streams[sid].recvWindow - n)));
  }

  lemma DataFrameAdds(s: Session, f: Frame)
    ensures Adds(s, HandleData(s, f), f.sid)
  {
    hide EndOfStream, CountData, Unpadded, HasFlag, Goaway, Adds, Be32;
    GoawayAdds(s, PROTOCOL_ERROR, "DATA on stream 0", f.sid);
    if Unpadded(f).Fault? {
      GoawayAdds(s, Unpadded(f).code, "", f.sid);
    }
    if f.sid != 0 && f.sid !in s.streams {
      AddsFrames(s, HandleData(s, f), f.sid, [RstStreamFrame(f.sid, STREAM_CLOSED)]);
    } else if f.sid != 0 && Unpadded(f).Content? {
      var st, data := s.streams[f.sid], Unpadded(f).data;
      var s0 := WithStream(s, f.sid, st.(body := st.body + data));
      var s1 := CountData(s0, f.sid, |data|);
      CountAdds(s0, f.sid, |data|);
      AddsFrom(s, s0, s1, f.sid);
      assert f.sid in s1.streams by { CountKeepsStream(s0, f.sid, |data|); }
      EndAdds(s1, f.sid);
      AddsTrans(s, s1, EndOfStream(s1, f.sid), f.sid);
    }
  }

  lemma CountKeepsStream(s: Session, sid: nat, n: nat)
    requires sid in s.streams
    ensures sid in CountData(s, sid, n).streams
  {
    hide RefillFrames, Refill;
  }

  lemma {:induction false} SettingsAdd(s: Session, xs: seq<Setting>, sid: nat)
    ensures Says(s, ApplySettings(s, xs), sid, 16384)
    decreases |xs|
  {
    hide ApplySetting, Says;
    if |xs| > 0 && s.alive {
      SettingAdds(s, xs[0], sid);
      SettingsAdd(ApplySetting(s, xs[0]), xs[1..], sid);
      SaysTrans(s, ApplySetting(s, xs[0]), ApplySettings(s, xs), sid, 16384);
    } else {
      SaysHere(s, s, sid, 16384);
    }
  }

  lemma SaysHere(s: Session, s': Session, sid: nat, max: nat)
    requires s'.output == s.output
    ensures Says(s, s', sid, max)
  {
    assert NewFrames(s, s') == [];
  }

  lemma SaysMore(s: Session, s': Session, sid: nat, max: nat)
    requires Says(s, s', sid, 16384) && max >= 16384
    ensures Says(s, s', sid, max)
  {
  }

  lemma SettingAdds(s: Session, x: Setting, sid: nat)
    ensures Says(s, ApplySetting(s, x), sid, 16384)
  {
    hide Goaway, Resize, ShiftWindows, Says, Adds;
    GoawaySays(s, FLOW_CONTROL_ERROR, "", sid);
    GoawaySays(s, PROTOCOL_ERROR, "Invalid MAX_FRAME_SIZE", sid);
    if ApplySetting(s, x).output == s.output {
      SaysHere(s, ApplySetting(s, x), sid, 16384);
    }
  }

  lemma SettingsFrameAdds(s: Session, f: Frame)
    ensures Says(s, HandleSettings(s, f), f.sid, s.peerMaxFrame)
  {
    hide HandleSettings, Says;
    SettingsSay(s, f);
    SaysMore(s, HandleSettings(s, f), f.sid, s.peerMaxFrame);
  }

  lemma SettingsSay(s: Session, f: Frame)
    ensures Says(s, HandleSettings(s, f), f.sid, 16384)
  {
    hide ApplySettings, ParseSettings, Goaway, HasFlag, Says, Adds;
    GoawaySays(s, PROTOCOL_ERROR, "SETTINGS on non-zero stream", f.sid);
    GoawaySays(s, FRAME_SIZE_ERROR, "", f.sid);
    SaysHere(s, s, f.sid, 16384);
    var s1 := ApplySettings(s, ParseSettings(f.payload));
    SettingsAdd(s, ParseSettings(f.payload), f.sid);
    AckSaid(s1, f.sid);
    SaysTrans(s, s1, Enqueue(s1, [SettingsAck()]), f.sid, 16384);
  }

  lemma AckSaid(s: Session, sid: nat)
    ensures Says(s, Enqueue(s, [SettingsAck()]), sid, 16384)
  {
    assert NewFrames(s, Enqueue(s, [SettingsAck()])) == [SettingsAck()];
  }

  lemma PingAdds(s: Session, f: Frame)
    ensures Adds(s, HandlePing(s, f), f.sid)
  {
    hide Goaway, HasFlag, Adds;
    GoawayAdds(s, PROTOCOL_ERROR, "PING on non-zero stream", f.sid);
    GoawayAdds(s, FRAME_SIZE_ERROR, "", f.sid);
    AddsHere(s, s, f.sid);
    if |f.payload| == 8 {
      AddsFrames(s, Enqueue(s, [PingAck(f.payload)]), f.sid, [PingAck(f.payload)]);
    }
  }

  lemma UpdateTerms(s: Session, f: Frame)
    ensures TermsOf(HandleWindowUpdate(s, f)) == TermsOf(s)
  {
    hide Ascii, ParseWindowUpdate, Be32;
  }

  lemma UpdateAdds(s: Session, f: Frame)
    ensures Adds(s, HandleWindowUpdate(s, f), f.sid)
  {
    hide Goaway, ParseWindowUpdate, Be32, Adds;
    var s', n := HandleWindowUpdate(s, f), ParseWindowUpdate(f.payload);
    GoawayAdds(s, FRAME_SIZE_ERROR, "", f.sid);
    GoawayAdds(s, PROTOCOL_ERROR, "WINDOW_UPDATE 0 increment", f.sid);
    var s1 := s.(connSend := s.connSend + n);
    GoawayAdds(s1, FLOW_CONTROL_ERROR, "", f.sid);
    AddsFrom(s, s1, Goaway(s1, FLOW_CONTROL_ERROR, ""), f.sid);
    UpdateTerms(s, f);
    if s'.output == s.output {
      AddsHere(s, s', f.sid);
    } else if s'.output == s.output + [RstStreamFrame(f.sid, PROTOCOL_ERROR)] {
      AddsFrames(s, s', f.sid, [RstStreamFrame(f.sid, PROTOCOL_ERROR)]);
    } else if s'.output == s.output + [RstStreamFrame(f.sid, FLOW_CONTROL_ERROR)] {
      AddsFrames(s, s', f.sid, [RstStreamFrame(f.sid, FLOW_CONTROL_ERROR)]);
    }
  }

  lemma QuietAdds(s: Session, f: Frame)
    ensures Adds(s, HandleRstStream(s, f), f.sid) && Adds(s, HandlePushPromise(s, f), f.sid)
  {
    hide Goaway, DecodeBlock, FreshStream, From32, Adds;
    GoawayAdds(s, FRAME_SIZE_ERROR, "", f.sid);
    GoawayAdds(s, PROTOCOL_ERROR, "PUSH_PROMISE on server", f.sid);
    if |f.payload| == 4 {
      AddsHere(s, HandleRstStream(s, f), f.sid);
    }
    if s.mode.Client? {
      AddsHere(s, HandlePushPromise(s, f), f.sid);
    }
  }

  /** SETTINGS that are heeded are the only frames that change the terms. */
  predicate Settles(s: Session, f: Frame) {
    s.contSid == 0 && f.kind == SETTINGS
  }

  /** A received frame makes a session speak on its own stream and on the connection alone, within its terms. */
  lemma FrameAdds(s: Session, f: Frame)
    ensures Says(s, ProcessFrame(s, f), f.sid, s.peerMaxFrame)
    ensures !Settles(s, f) ==> TermsOf(ProcessFrame(s, f)) == TermsOf(s)
  {
    hide HandleData, HandleHeaders, HandleContinuation, HandleSettings, HandlePing, HandleRstStream, HandleWindowUpdate,
      HandlePushPromise, Goaway, Adds, Says, TermsOf;
    if Settles(s, f) {
      SettingsFrameAdds(s, f);
    } else {
      OtherFrameAdds(s, f);
      AddsSays(s, ProcessFrame(s, f), f.sid);
    }
  }

  lemma OtherFrameAdds(s: Session, f: Frame)
    requires !Settles(s, f)
    ensures Adds(s, ProcessFrame(s, f), f.sid)
  {
    hide HandleData, HandleHeaders, HandleContinuation, HandleSettings, HandlePing, HandleRstStream, HandleWindowUpdate,
      HandlePushPromise, Goaway, Adds;
    GoawayAdds(s, PROTOCOL_ERROR, "Expected CONTINUATION", f.sid);
    GoawayAdds(s, PROTOCOL_ERROR, "Unexpected CONTINUATION", f.sid);
    AddsHere(s, s, f.sid);
    AddsHere(s, s.(alive := false), f.sid);
    DataFrameAdds(s, f);
    HeadersAdd(s, f);
    ContinuationAdds(s, f);
    PingAdds(s, f);
    UpdateAdds(s, f);
    QuietAdds(s, f);
  }

  /** The stream an event is about. */
  function StreamOfEvent(s: Session, e: Event): nat {
    match e
    case Arrive(f) => f.sid
    case Ask(_, _) => s.nextSid
    case Answer(sid, _) => sid
    case AnswerHead(sid, _) => sid
    case More(sid, _, _) => sid
    case Trail(sid, _) => sid
  }

  lemma SubmissionAdds(s: Session, e: Event)
    requires !e.Arrive?
    ensures Adds(s, Step(s, e), StreamOfEvent(s, e))
  {
    hide ProcessFrame, SubmitRequest, SubmitResponse, SubmitData, SubmitTrailers, SendFields, ResponseFields, Adds;
    match e
    case Ask(req, keepOpen) => RequestAdds(s, req, keepOpen);
    case Answer(sid, resp) => ResponseAdds(s, sid, resp);
    case AnswerHead(sid, resp) => SendAdds(s, sid, false, ResponseFields(resp, false));
    case More(sid, data, end) => DataAdds(s, sid, data, end);
    case Trail(sid, trailers) => TrailersAdd(s, sid, trailers);
  }

  /** Whatever happens, a session speaks within its terms. */
  lemma EventAdds(s: Session, e: Event)
    ensures Says(s, Step(s, e), StreamOfEvent(s, e), s.peerMaxFrame)
    ensures !(e.Arrive? && Settles(s, e.f)) ==> TermsOf(Step(s, e)) == TermsOf(s)
  {
    hide ProcessFrame, SubmitRequest, SubmitResponse, SubmitData, SubmitTrailers, SendFields, ResponseFields, Says,
      Adds, TermsOf, Settles;
    if e.Arrive? {
      FrameAdds(s, e.f);
      SaysHere(s, s, e.f.sid, s.peerMaxFrame);
    } else {
      SubmissionAdds(s, e);
      AddsSays(s, Step(s, e), StreamOfEvent(s, e));
    }
  }

  // ---------------------------------------------------------------- the writer's own stream

  /** The frames of one stream, in order. */
  function Own(fs: seq<Frame>, sid: nat): seq<Frame> {
    if |fs| == 0 then []
    else Own(fs[..|fs| - 1], sid) + if fs[|fs| - 1].sid == sid then [fs[|fs| - 1]] else []
  }

  /** The bytes of the DATA frames, in order. */
  function DataOf(fs: seq<Frame>): seq<byte> {
    if |fs| == 0 then []
    else DataOf(fs[..|fs| - 1]) + if fs[|fs| - 1].kind == DATA then fs[|fs| - 1].payload else []
  }

  lemma {:induction false} OwnConcat(a: seq<Frame>, b: seq<Frame>, sid: nat)
    ensures Own(a + b, sid) == Own(a, sid) + Own(b, sid)
    decreases |b|
  {
    if |b| == 0 {
      assert a + b == a;
    } else {
      OwnConcat(a, b[..|b| - 1], sid);
      assert (a + b)[..|a + b| - 1] == a + b[..|b| - 1];
    }
  }

  lemma {:induction false} OwnNone(fs: seq<Frame>, sid: nat)
    requires forall f :: f in fs ==> f.sid != sid
    ensures Own(fs, sid) == []
  {
    if |fs| > 0 {
      assert fs[|fs| - 1] in fs;
      OwnNone(fs[..|fs| - 1], sid);
    }
  }

  lemma {:induction false} OwnAll(fs: seq<Frame>, sid: nat)
    requires forall f :: f in fs ==> f.sid == sid
    ensures Own(fs, sid) == fs
  {
    if |fs| > 0 {
      assert fs[|fs| - 1] in fs;
      OwnAll(fs[..|fs| - 1], sid);
    }
  }

  lemma {:induction false} DataOfConcat(a: seq<Frame>, b: seq<Frame>)
    ensures DataOf(a + b) == DataOf(a) + DataOf(b)
    decreases |b|
  {
    if |b| == 0 {
      assert a + b == a;
    } else {
      DataOfConcat(a, b[..|b| - 1]);
      assert (a + b)[..|a + b| - 1] == a + b[..|b| - 1];
    }
  }

  lemma {:induction false} DataOfHeaders(fs: seq<Frame>)
    requires forall f :: f in fs ==> f.kind != DATA
    ensures DataOf(fs) == []
  {
    if |fs| > 0 {
      assert fs[|fs| - 1] in fs;
      DataOfHeaders(fs[..|fs| - 1]);
    }
  }

  lemma {:induction false} DataOfData(fs: seq<Frame>)
    requires forall f :: f in fs ==> f.kind == DATA
    ensures DataOf(fs) == Payloads(fs)
    decreases |fs|
  {
    if |fs| > 0 {
      assert fs[0] in fs;
      DataOfData(fs[1..]);
      DataOfConcat([fs[0]], fs[1..]);
      assert [fs[0]] + fs[1..] == fs && [fs[0]][..0] == [];
      assert DataOf([fs[0]]) == DataOf([]) + fs[0].payload;
    }
  }

  // ---------------------------------------------------------------- busy runs

  /** The writer does something, or something happens to its session. */
  datatype BusyEvent = Mine(op: WriterOp) | Other(e: Event)

  function BusyStep(w: Writer, b: BusyEvent): Writer {
    match b
    case Mine(op) => WriterStep(w, op)
    case Other(e) => w.(session := Step(w.session, e))
  }

  function BusyRun(w: Writer, bs: seq<BusyEvent>): Writer {
    if |bs| == 0 then w else BusyStep(BusyRun(w, bs[..|bs| - 1]), bs[|bs| - 1])
  }

  /** All that happens beside the writer is about other streams or the connection. */
  predicate Apart(w: Writer, bs: seq<BusyEvent>) {
    |bs| > 0 ==>
      var front, b := bs[..|bs| - 1], bs[|bs| - 1];
      Apart(w, front) && (b.Other? ==> StreamOfEvent(BusyRun(w, front).session, b.e) != w.sid)
  }

  predicate Finished(bs: seq<BusyEvent>) {
    |bs| > 0 && (Finished(bs[..|bs| - 1]) || (bs[|bs| - 1].Mine? && bs[|bs| - 1].op.Finish?))
  }

  /** The messages accepted, each with its length in front. */
  function Written(bs: seq<BusyEvent>): seq<byte> {
    if |bs| == 0 then []
    else
      var front, b := bs[..|bs| - 1], bs[|bs| - 1];
      Written(front) + if b.Mine? && b.op.Write? && !Finished(front) then GrpcMessage(b.op.message) else []
  }

  /** What a writer's stream has carried since it began. */
  ghost predicate Carries(start: Session, w: Writer, bs: seq<BusyEvent>) {
    && start.output <= w.session.output && (w.finished <==> Finished(bs))
    && var own := Own(Appended(start, w.session), w.sid);
       DataOf(own) == Written(bs) && if w.finished then EndsOnce(own) else NeverEnds(own)
  }

  lemma OtherCarries(start: Session, w: Writer, bs: seq<BusyEvent>, e: Event)
    requires Carries(start, w, bs) && w.sid != 0 && StreamOfEvent(w.session, e) != w.sid
    ensures Carries(start, BusyStep(w, Other(e)), bs + [Other(e)])
  {
    hide Step, EndsOnce, NeverEnds, Own, DataOf, StreamOfEvent;
    assert (bs + [Other(e)])[..|bs|] == bs;
    var s, s' := w.session, Step(w.session, e);
    EventAdds(s, e);
    var fs := NewFrames(s, s');
    OwnNone(fs, w.sid);
    assert Appended(start, s') == Appended(start, s) + fs;
    OwnConcat(Appended(start, s), fs, w.sid);
    assert Own(Appended(start, s), w.sid) + [] == Own(Appended(start, s), w.sid);
    assert Written(bs) + [] == Written(bs);
  }

  lemma OwnMore(start: Session, w: Writer, w': Writer, fs: seq<Frame>)
    requires start.output <= w.session.output && w'.session.output == w.session.output + fs
    requires forall f :: f in fs ==> f.sid == w.sid
    ensures Own(Appended(start, w'.session), w.sid) == Own(Appended(start, w.session), w.sid) + fs
  {
    hide Own;
    assert Appended(start, w'.session) == Appended(start, w.session) + fs;
    OwnConcat(Appended(start, w.session), fs, w.sid);
    OwnAll(fs, w.sid);
  }

  lemma WriteCarries(start: Session, w: Writer, bs: seq<BusyEvent>, m: seq<byte>)
    requires Carries(start, w, bs) && !w.finished
    ensures Carries(start, BusyStep(w, Mine(Write(m))), bs + [Mine(Write(m))])
  {
    hide EndsOnce, NeverEnds, Own, DataOf, DataFrames, GrpcMessage, WriterStep, HasFlag;
    assert (bs + [Mine(Write(m))])[..|bs|] == bs;
    var fs := DataFrames(w.sid, false, GrpcMessage(m), w.session.peerMaxFrame);
    WriteAppends(w, m);
    DataSplit(w.sid, false, GrpcMessage(m), w.session.peerMaxFrame);
    OwnMore(start, w, BusyStep(w, Mine(Write(m))), fs);
    var own := Own(Appended(start, w.session), w.sid);
    DataOfConcat(own, fs);
    DataOfData(fs);
    EndsLater(own, fs);
  }

  lemma FinishCarries(start: Session, w: Writer, bs: seq<BusyEvent>, status: int, text: seq<byte>)
    requires Carries(start, w, bs) && !w.finished
    ensures Carries(start, BusyStep(w, Mine(Finish(status, text))), bs + [Mine(Finish(status, text))])
  {
    hide EndsOnce, NeverEnds, Own, DataOf, HeaderFrames, EncodeBlock, TrailerFields, GrpcTrailers, WriterStep, HasFlag;
    assert (bs + [Mine(Finish(status, text))])[..|bs|] == bs;
    var block := EncodeBlock(w.session.encoder, TrailerFields(GrpcTrailers(status, text)));
    var fs := HeaderFrames(w.sid, true, block, w.session.peerMaxFrame);
    FinishAppends(w, status, text);
    HeaderSplit(w.sid, true, block, w.session.peerMaxFrame);
    OwnMore(start, w, BusyStep(w, Mine(Finish(status, text))), fs);
    var own := Own(Appended(start, w.session), w.sid);
    DataOfConcat(own, fs);
    DataOfHeaders(fs);
    assert DataOf(own) + [] == DataOf(own) && Written(bs) + [] == Written(bs);
    EndsLater(own, fs);
  }

  lemma LateCarries(start: Session, w: Writer, bs: seq<BusyEvent>, op: WriterOp)
    requires Carries(start, w, bs) && w.finished
    ensures Carries(start, BusyStep(w, Mine(op)), bs + [Mine(op)])
  {
    hide EndsOnce, NeverEnds, Own, DataOf, WriterStep;
    assert (bs + [Mine(op)])[..|bs|] == bs;
    FinishedStays(w, op);
    assert Written(bs) + [] == Written(bs);
  }

  /**
    On a busy session, whatever happens on other streams and on the connection between the writes: the writer's own
    stream carries exactly the messages accepted, in order, and ends exactly once when it is finished, with nothing
    after it but its own header block.
   */
  lemma {:induction false} BusyWriter(w: Writer, bs: seq<BusyEvent>)
    requires !w.finished && w.sid != 0 && Apart(w, bs)
    ensures Carries(w.session, BusyRun(w, bs), bs) && BusyRun(w, bs).sid == w.sid
  {
    hide Carries, BusyStep, StreamOfEvent;
    if |bs| == 0 {
      NothingCarried(w);
      assert bs == [];
    } else {
      var front, b := bs[..|bs| - 1], bs[|bs| - 1];
      assert bs == front + [b];
      BusyWriter(w, front);
      var w1 := BusyRun(w, front);
      SameStream(w1, b);
      match b
      case Other(e) => OtherCarries(w.session, w1, front, e);
      case Mine(op) =>
        if w1.finished {
          LateCarries(w.session, w1, front, op);
        } else {
          match op
          case Write(m) => WriteCarries(w.session, w1, front, m);
          case Finish(status, text) => FinishCarries(w.session, w1, front, status, text);
        }
    }
  }

  lemma SameStream(w: Writer, b: BusyEvent)
    ensures BusyStep(w, b).sid == w.sid
  {
    hide SubmitData, SubmitTrailers, Step, GrpcMessage, GrpcTrailers;
  }

  lemma NothingCarried(w: Writer)
    requires !w.finished
    ensures Carries(w.session, w, [])
  {
    assert Appended(w.session, w.session) == [];
  }
}
