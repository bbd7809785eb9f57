/**
  The HTTP/2 session of src/http/http2_session.cpp as a value: what every received frame
  and every submission does. The output is kept as the list of frames enqueued.
 */
module H2Session {
  import opened Bytes
  import opened DynamicTable
  import opened H2Frame
  import opened HttpTypes
  import opened Hpack

  const DEFAULT_WINDOW := 65535
  const DEFAULT_TABLE_SIZE := 4096

  /** The frame sizes a peer may ask for; handle_settings refuses all others. */
  type FrameLimit = n: nat | 16384 <= n <= 16777215 witness 16384

  datatype Mode = Server | Client

  datatype Phase = Idle | Open | Closed

  datatype Stream = Stream(
    phase: Phase, req: Request, resp: Response, body: seq<byte>, headersComplete: bool, endStream: bool,
    sendWindow: int, recvWindow: int, promise: bool, pendingBlock: seq<byte>)

  /** A settled response promise. */
  datatype Completion = Answered(sid: nat, resp: Response) | Reset(sid: nat)

  datatype Dispatch = Dispatch(sid: nat, req: Request)

  datatype Session = Session(
    mode: Mode, alive: bool, fate: Fate, output: seq<Frame>, encoder: Encoder, dyn: DynTable, streams: map<nat, Stream>,
    nextSid: nat, lastClient: nat, connSend: int, connRecv: int, peerMaxFrame: FrameLimit, peerInitial: nat,
    enablePush: bool, contSid: nat, handler: Request -> Response,
    dispatched: seq<Dispatch>, completed: seq<Completion>)

  function FreshStream(): Stream {
    Stream(Idle, EmptyRequest(), EmptyResponse(), [], false, false, DEFAULT_WINDOW, DEFAULT_WINDOW, false, [])
  }

  function InitialSettings(): seq<Setting> {
    [ Setting(MAX_CONCURRENT_STREAMS, 100), Setting(INITIAL_WINDOW_SIZE, 65535),
      Setting(MAX_HEADER_LIST_SIZE, 8192), Setting(ENABLE_PUSH, 1) ]
  }

  function NewSession(mode: Mode, tb: Tables, handler: Request -> Response): Session {
    Session(mode, true, Returned, [SettingsFrame(InitialSettings())], NewEncoder(tb, DEFAULT_TABLE_SIZE),
            DynTable([], 0, DEFAULT_TABLE_SIZE), map[], if mode.Server? then 2 else 1, 0,
            DEFAULT_WINDOW, DEFAULT_WINDOW, 16384, DEFAULT_WINDOW, true, 0, handler, [], [])
  }

  function Enqueue(s: Session, fs: seq<Frame>): Session {
    s.(output := s.output + fs)
  }

  function Goaway(s: Session, code: nat, debug: string): Session {
    Enqueue(s, [GoawayFrame(s.lastClient, code, Ascii(debug))]).(alive := false)
  }

  /** The stream of an id, created on first use. */
  function StreamOf(s: Session, sid: nat): Stream {
    if sid in s.streams then s.streams[sid] else FreshStream()
  }

  function WithStream(s: Session, sid: nat, st: Stream): Session {
    s.(streams := s.streams[sid := st])
  }

  // ---------------------------------------------------------------- splitting and submitting

  function ContinuationFrames(sid: nat, rest: seq<byte>, max: FrameLimit): seq<Frame> {
    if |rest| <= max then [Frame(CONTINUATION, END_HEADERS, sid, rest)]
    else [Frame(CONTINUATION, 0, sid, rest[..max])] + ContinuationFrames(sid, rest[max..], max)
  }

  function EndFlag(end: bool): byte {
    if end then END_STREAM else 0
  }

  /** A header block in HEADERS and as many CONTINUATION frames as it needs. */
  function HeaderFrames(sid: nat, end: bool, block: seq<byte>, max: FrameLimit): seq<Frame> {
    if |block| <= max then [Frame(HEADERS, EndFlag(end) + END_HEADERS, sid, block)]
    else [Frame(HEADERS, EndFlag(end), sid, block[..max])] + ContinuationFrames(sid, block[max..], max)
  }

  /** A body cut into DATA frames, none for an empty one; the last may end the stream. */
  function DataFrames(sid: nat, end: bool, body: seq<byte>, max: FrameLimit): seq<Frame> {
    if |body| == 0 then []
    else if |body| <= max then [Frame(DATA, EndFlag(end), sid, body)]
    else [Frame(DATA, 0, sid, body[..max])] + DataFrames(sid, end, body[max..], max)
  }

  /** Encode a header list and enqueue its frames. */
  function SendFields(s: Session, sid: nat, end: bool, fs: seq<Field>): Session {
    Enqueue(s, HeaderFrames(sid, end, EncodeBlock(s.encoder, fs), s.peerMaxFrame)).(encoder := AfterBlock(s.encoder))
  }

  function SubmitRequest(s: Session, req: Request, keepOpen: bool): Session {
    var sid := s.nextSid;
    var started := WithStream(s, sid, StreamOf(s, sid).(phase := Open, promise := true)).(nextSid := sid + 2);
    var sent := SendFields(started, sid, req.body == [] && !keepOpen, RequestFields(req));
    Enqueue(sent, DataFrames(sid, true, req.body, s.peerMaxFrame))
  }

  function CloseStream(s: Session, sid: nat): Session {
    if sid in s.streams then WithStream(s, sid, s.streams[sid].(phase := Closed)) else s
  }

  function TrailerFields(trailers: seq<Field>): seq<Field> {
    Forwarded(trailers, {})
  }

  function SubmitResponse(s: Session, sid: nat, resp: Response): Session {
    var hasTrailers := resp.trailers != [];
    var s1 := SendFields(s, sid, resp.body == [] && !hasTrailers, ResponseFields(resp, true));
    var s2 := Enqueue(s1, DataFrames(sid, !hasTrailers, resp.body, s.peerMaxFrame));
    var s3 := if hasTrailers then SendFields(s2, sid, true, TrailerFields(resp.trailers)) else s2;
    CloseStream(s3, sid)
  }

  function SubmitResponseHeaders(s: Session, sid: nat, resp: Response): Session {
    SendFields(s, sid, false, ResponseFields(resp, false))
  }

  function SubmitData(s: Session, sid: nat, data: seq<byte>, end: bool): Session {
    var sent := Enqueue(s, if data == [] then [Frame(DATA, EndFlag(end), sid, [])]
        else DataFrames(sid, end, data, s.peerMaxFrame));
    if end then CloseStream(sent, sid) else sent
  }

  function SubmitTrailers(s: Session, sid: nat, trailers: seq<Field>): Session {
    CloseStream(SendFields(s, sid, true, TrailerFields(trailers)), sid)
  }

  // ---------------------------------------------------------------- receiving

  /** The request is complete: hand it to the handler and send the response. */
  function DispatchRequest(s: Session, sid: nat): Session
    requires sid in s.streams
  {
    var st := s.streams[sid];
    var req := st.req.(body := st.body);
    var s1 := WithStream(s, sid, st.(req := req, body := [])).(dispatched := s.dispatched + [Dispatch(sid, req)]);
    SubmitResponse(s1, sid, s.handler(req))
  }

  /** The response is complete: settle the promise, if any. */
  function CompletePromise(s: Session, sid: nat): Session
    requires sid in s.streams
  {
    var st := s.streams[sid];
    var resp := st.resp.(body := st.body);
    if st.promise then
      WithStream(s, sid, st.(resp := resp.(hdrs := [], body := [], trailers := []), body := []))
        .(completed := s.completed + [Answered(sid, resp)])
    else WithStream(s, sid, st.(resp := resp, body := []))
  }

  /** A frame's content without padding, or the error a malformed one causes. */
  datatype Content = Fault(code: nat) | Content(data: seq<byte>)

  function Unpadded(f: Frame): Content {
    if !HasFlag(f, PADDED) then Content(f.payload)
    else if |f.payload| < 1 then Fault(FRAME_SIZE_ERROR)
    else if 1 + f.payload[0] > |f.payload| then Fault(PROTOCOL_ERROR)
    else Content(f.payload[1..|f.payload| - f.payload[0]])
  }

  function Fragment(f: Frame): Content {
    var c := Unpadded(f);
    if c.Fault? || !HasFlag(f, WITH_PRIORITY) then c
    else if |c.data| < 5 then Fault(FRAME_SIZE_ERROR)
    else Content(c.data[5..])
  }

  /** The increment a receive window gets once it has fallen below half, 0 otherwise. */
  function Refill(window: int): (r: nat)
    ensures r > 0 <==> window < DEFAULT_WINDOW / 2
    ensures window <= DEFAULT_WINDOW ==> DEFAULT_WINDOW / 2 <= window + r <= DEFAULT_WINDOW
  {
    if window < DEFAULT_WINDOW / 2 then DEFAULT_WINDOW - window else 0
  }

  function RefillFrames(sid: nat, increment: nat): seq<Frame> {
    if increment > 0 then [WindowUpdateFrame(sid, increment)] else []
  }

  /** Count received bytes against both windows and refill them. */
  function CountData(s: Session, sid: nat, n: nat): Session
    requires sid in s.streams
  {
    var st := s.streams[sid];
    var connUp := Refill(s.connRecv - n);
    var up := Refill(st.recvWindow - n);
    Enqueue(WithStream(s, sid, st.(recvWindow := st.recvWindow - n + up)),
      RefillFrames(0, connUp) + RefillFrames(sid, up))
      .(connRecv := s.connRecv - n + connUp)
  }

  function EndOfStream(s: Session, sid: nat): Session
    requires sid in s.streams
  {
    var s1 := WithStream(s, sid, s.streams[sid].(endStream := true));
    if s.mode.Server? then DispatchRequest(s1, sid) else CompletePromise(s1, sid)
  }

  function HandleData(s: Session, f: Frame): Session {
    if f.sid == 0 then Goaway(s, PROTOCOL_ERROR, "DATA on stream 0")
    else if f.sid !in s.streams then Enqueue(s, [RstStreamFrame(f.sid, STREAM_CLOSED)])
    else
      match Unpadded(f)
      case Fault(code) => Goaway(s, code, "")
      case Content(data) =>
        var st := s.streams[f.sid];
        var s1 := CountData(WithStream(s, f.sid, st.(body := st.body + data)), f.sid, |data|);
        if HasFlag(f, END_STREAM) then EndOfStream(s1, f.sid) else s1
  }

  function ApplyRequest(s: Session, sid: nat, fs: seq<Field>, end: bool): Session
    requires sid in s.streams
  {
    var st := s.streams[sid];
    var s1 := WithStream(s, sid, st.(headersComplete := true, req := ReceiveFields(st.req, fs).(version := Http2)));
    if end then EndOfStream(s1, sid) else s1
  }

  function ApplyResponse(s: Session, sid: nat, fs: seq<Field>, end: bool): Session
    requires sid in s.streams
  {
    var st := s.streams[sid];
    var s1 := WithStream(s, sid, st.(headersComplete := true, resp := ReceiveResponse(st.resp, fs).(version := Http2)));
    if end then EndOfStream(s1, sid) else s1
  }

  /**
    An exception has left the session, or its decoder has read beyond a block: nothing that comes after is modelled.
   */
  function Leave(s: Session, fate: Fate): Session {
    s.(alive := false, fate := fate)
  }

  /** The decoder does not come back from this block. */
  predicate Escapes(s: Session, block: seq<byte>) {
    DecodeBlock(s.encoder.tables, s.dyn, block).fate != Returned
  }

  /** A complete header block: decode it and apply the list. */
  function ApplyBlock(s: Session, sid: nat, block: seq<byte>, end: bool): Session
    requires sid in s.streams
  {
    var d := DecodeBlock(s.encoder.tables, s.dyn, block);
    var s1 := s.(dyn := d.dyn);
    if d.fate != Returned then Leave(s1, d.fate)
    else if s.mode.Server? then ApplyRequest(s1, sid, d.headers, end) else ApplyResponse(s1, sid, d.headers, end)
  }

  /** HEADERS: apply a complete block, or remember the fragment and expect CONTINUATION. */
  function StartBlock(s: Session, f: Frame, fragment: seq<byte>): Session
    requires f.sid in s.streams
  {
    var end := HasFlag(f, END_STREAM);
    if HasFlag(f, END_HEADERS) then ApplyBlock(s, f.sid, fragment, end)
    else
      var st := s.streams[f.sid];
      WithStream(s, f.sid, st.(pendingBlock := fragment, endStream := st.endStream || end)).(contSid := f.sid)
  }

  function HandleHeaders(s: Session, f: Frame): Session {
    if f.sid == 0 then Goaway(s, PROTOCOL_ERROR, "HEADERS on stream 0")
    else
      match Fragment(f)
      case Fault(code) => Goaway(s, code, "")
      case Content(fragment) =>
        if s.mode.Server? then
          var started := WithStream(s, f.sid, StreamOf(s, f.sid).(phase := Open));
          StartBlock(started.(lastClient := if s.lastClient < f.sid then f.sid else s.lastClient), f, fragment)
        else if f.sid !in s.streams then s
        else StartBlock(s, f, fragment)
  }

  function HandleContinuation(s: Session, f: Frame): Session {
    if f.sid !in s.streams then Goaway(s, PROTOCOL_ERROR, "CONTINUATION for unknown stream")
    else
      var st := s.streams[f.sid];
      var block := st.pendingBlock + f.payload;
      if HasFlag(f, END_HEADERS) then
        ApplyBlock(WithStream(s, f.sid, st.(pendingBlock := [])).(contSid := 0), f.sid, block, st.endStream)
      else WithStream(s, f.sid, st.(pendingBlock := block))
  }

  function ShiftWindows(streams: map<nat, Stream>, delta: int): map<nat, Stream> {
    map sid | sid in streams :: streams[sid].(sendWindow := streams[sid].sendWindow + delta)
  }

  function ApplySetting(s: Session, x: Setting): Session {
    if x.id == HEADER_TABLE_SIZE then s.(encoder := SetMaxTableSize(s.encoder, x.value))
    else if x.id == INITIAL_WINDOW_SIZE then
      if x.value > MAX_WINDOW_SIZE then Goaway(s, FLOW_CONTROL_ERROR, "")
      else s.(streams := ShiftWindows(s.streams, x.value - s.peerInitial), peerInitial := x.value)
    else if x.id == MAX_FRAME_SIZE then
      if x.value < 16384 || x.value > 16777215 then Goaway(s, PROTOCOL_ERROR, "Invalid MAX_FRAME_SIZE")
      else s.(peerMaxFrame := x.value)
    else if x.id == ENABLE_PUSH then s.(enablePush := x.value != 0)
    else s
  }

  /** The settings in order, stopping at the first that ends the session. */
  function ApplySettings(s: Session, xs: seq<Setting>): Session
    decreases |xs|
  {
    if |xs| == 0 || !s.alive then s else ApplySettings(ApplySetting(s, xs[0]), xs[1..])
  }

  function HandleSettings(s: Session, f: Frame): Session {
    if f.sid != 0 then Goaway(s, PROTOCOL_ERROR, "SETTINGS on non-zero stream")
    else if HasFlag(f, ACK) then s
    else if |f.payload| % 6 != 0 then Goaway(s, FRAME_SIZE_ERROR, "")
    else
      var s1 := ApplySettings(s, ParseSettings(f.payload));
      if s1.alive then Enqueue(s1, [SettingsAck()]) else s1
  }

  function HandlePing(s: Session, f: Frame): Session {
    if f.sid != 0 then Goaway(s, PROTOCOL_ERROR, "PING on non-zero stream")
    else if |f.payload| != 8 then Goaway(s, FRAME_SIZE_ERROR, "")
    else if HasFlag(f, ACK) then s
    else Enqueue(s, [PingAck(f.payload)])
  }

  function HandleWindowUpdate(s: Session, f: Frame): Session {
    if |f.payload| != 4 then Goaway(s, FRAME_SIZE_ERROR, "")
    else
      var increment := ParseWindowUpdate(f.payload);
      if increment == 0 then
        if f.sid == 0 then Goaway(s, PROTOCOL_ERROR, "WINDOW_UPDATE 0 increment")
        else Enqueue(s, [RstStreamFrame(f.sid, PROTOCOL_ERROR)])
      else if f.sid == 0 then
        var s1 := s.(connSend := s.connSend + increment);
        if s1.connSend > MAX_WINDOW_SIZE then Goaway(s1, FLOW_CONTROL_ERROR, "") else s1
      else if f.sid in s.streams then
        var st := s.streams[f.sid];
        var s1 := WithStream(s, f.sid, st.(sendWindow := st.sendWindow + increment));
        if st.sendWindow + increment > MAX_WINDOW_SIZE
          then Enqueue(s1, [RstStreamFrame(f.sid, FLOW_CONTROL_ERROR)]) else s1
      else s
  }

  function HandleRstStream(s: Session, f: Frame): Session {
    if |f.payload| != 4 then Goaway(s, FRAME_SIZE_ERROR, "")
    else if f.sid in s.streams then
      s.(streams := s.streams - {f.sid},
         completed := if s.streams[f.sid].promise then s.completed + [Reset(f.sid)] else s.completed)
    else s
  }

  /** The stream a PUSH_PROMISE announces; the promised request goes to a callback outside this model. */
  function HandlePushPromise(s: Session, f: Frame): Session {
    if s.mode.Server? then Goaway(s, PROTOCOL_ERROR, "PUSH_PROMISE on server")
    else
      var short := |f.payload| < 4;
      var promised := if short then 0 else From32(f.payload) % SID_LIMIT;
      var d := DecodeBlock(s.encoder.tables, s.dyn, if short then [] else f.payload[4..]);
      if d.fate != Returned then Leave(s.(dyn := d.dyn), d.fate)
      else WithStream(s, promised, StreamOf(s, promised).(phase := Open, promise := true)).(dyn := d.dyn)
  }

  function ProcessFrame(s: Session, f: Frame): Session {
    if s.contSid != 0 then
      if f.kind != CONTINUATION || f.sid != s.contSid then Goaway(s, PROTOCOL_ERROR, "Expected CONTINUATION")
      else HandleContinuation(s, f)
    else if f.kind == DATA then HandleData(s, f)
    else if f.kind == HEADERS then HandleHeaders(s, f)
    else if f.kind == RST_STREAM then HandleRstStream(s, f)
    else if f.kind == SETTINGS then HandleSettings(s, f)
    else if f.kind == PUSH_PROMISE then HandlePushPromise(s, f)
    else if f.kind == PING then HandlePing(s, f)
    else if f.kind == GOAWAY then s.(alive := false)
    else if f.kind == WINDOW_UPDATE then HandleWindowUpdate(s, f)
    else if f.kind == CONTINUATION then Goaway(s, PROTOCOL_ERROR, "Unexpected CONTINUATION")
    else s
  }

  /** Frames are processed in order until the session dies. */
  function Run(s: Session, fs: seq<Frame>): Session
    decreases |fs|
  {
    if |fs| == 0 || !s.alive then s else Run(ProcessFrame(s, fs[0]), fs[1..])
  }

  lemma {:induction false} RunConcat(s: Session, a: seq<Frame>, b: seq<Frame>)
    ensures Run(s, a + b) == Run(Run(s, a), b)
    decreases |a|
  {
    hide ProcessFrame;
    if |a| == 0 {
      assert a + b == b;
    } else if s.alive {
      RunConcat(ProcessFrame(s, a[0]), a[1..], b);
      assert (a + b)[1..] == a[1..] + b;
    }
  }

  lemma RunOne(s: Session, f: Frame)
    requires s.alive
    ensures Run(s, [f]) == ProcessFrame(s, f)
  {
    hide ProcessFrame;
    assert [f][1..] == [];
  }
}
