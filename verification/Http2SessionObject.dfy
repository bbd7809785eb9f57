/**
  The session object of src/http/http2_session.cpp: its fields, its handlers and its byte-level
  feed loop, each proved to do what the value-level session of H2Session does. The HPACK encoder
  and the decoder's table are held as values; HpackCodec proves the objects equal to them.
 */
module Http2SessionObject {
  import opened Bytes
  import opened DynamicTable
  import opened H2Frame
  import opened HttpTypes
  import opened Hpack
  import opened H2Session

  lemma SerializeOne(f: Frame)
    ensures Serialize([f]) == Build(f)
  {
    hide Build;
    assert [f][1..] == [];
    assert Serialize([]) == [];
  }

  lemma SerializeCons(f: Frame, fs: seq<Frame>)
    ensures Serialize([f] + fs) == Build(f) + Serialize(fs)
  {
    hide Build;
    assert ([f] + fs)[1..] == fs;
  }

  /**
    build_data_frames: cut a body at the peer's frame limit; an empty one that is to end its stream is one empty
    frame.
   */
  method BuildDataFrames(sid: nat, body: seq<byte>, end: bool, max: FrameLimit) returns (result: seq<byte>)
    ensures result == Serialize(if body == [] && end then [Frame(DATA, END_STREAM, sid, [])]
            else DataFrames(sid, end, body, max))
  {
    hide Build;
    result := [];
    var offset := 0;
    ghost var all := Serialize(DataFrames(sid, end, body, max));
    assert body[offset..] == body;
    while offset < |body|
      invariant 0 <= offset <= |body|
      invariant offset < |body| ==> result + Serialize(DataFrames(sid, end, body[offset..], max)) == all
      invariant offset == |body| ==> result == all
    {
      var chunkSize := Min(max, |body| - offset);
      var chunk := body[offset..offset + chunkSize];
      ghost var rest := body[offset..];
      assert chunk == rest[..chunkSize];
      assert rest[chunkSize..] == body[offset + chunkSize..];
      offset := offset + chunkSize;
      var f := Frame(DATA, EndFlag(end && offset >= |body|), sid, chunk);
      if offset < |body| {
        SerializeCons(f, DataFrames(sid, end, rest[chunkSize..], max));
      } else {
        assert chunk == rest;
        SerializeOne(f);
      }
      result := result + Build(f);
    }
    if body == [] && end {
      SerializeOne(Frame(DATA, END_STREAM, sid, []));
      result := result + Build(Frame(DATA, END_STREAM, sid, []));
    }
  }

  /** The splitting loop of build_headers_frame. */
  method SplitBlock(sid: nat, end: bool, block: seq<byte>, max: FrameLimit) returns (result: seq<byte>)
    ensures result == Serialize(HeaderFrames(sid, end, block, max))
  {
    hide Build;
    if |block| <= max {
      var whole := Frame(HEADERS, EndFlag(end) + END_HEADERS, sid, block);
      SerializeOne(whole);
      return Build(whole);
    }
    var first := Frame(HEADERS, EndFlag(end), sid, block[..max]);
    result := Build(first);
    ghost var all := Serialize(HeaderFrames(sid, end, block, max));
    SerializeCons(first, ContinuationFrames(sid, block[max..], max));
    var offset: nat := max;
    while offset < |block|
      invariant 0 <= offset <= |block|
      invariant offset < |block| ==> result + Serialize(ContinuationFrames(sid, block[offset..], max)) == all
      invariant offset == |block| ==> result == all
    {
      var chunkSize := Min(max, |block| - offset);
      var chunk := block[offset..offset + chunkSize];
      ghost var rest := block[offset..];
      assert chunk == rest[..chunkSize];
      assert rest[chunkSize..] == block[offset + chunkSize..];
      offset := offset + chunkSize;
      var f := Frame(CONTINUATION, if offset >= |block| then END_HEADERS else 0, sid, chunk);
      if offset < |block| {
        SerializeCons(f, ContinuationFrames(sid, rest[chunkSize..], max));
      } else {
        assert chunk == rest;
        SerializeOne(f);
      }
      result := result + Build(f);
    }
  }

  class Http2Session {
    const mode: Mode
    const handler: Request -> Response
    const reader: FrameReader
    var alive: bool
    var outputBuf: seq<byte>
    var encoder: Encoder
    var dyn: DynTable
    var streams: map<nat, Stream>
    var nextSid: nat
    var lastClient: nat
    var connSend: int
    var connRecv: int
    var peerMaxFrame: FrameLimit
    var peerInitial: nat
    var enablePush: bool
    var contSid: nat
    var completed: seq<Completion>
    ghost var dispatched: seq<Dispatch>   // requests handed to the handler
    ghost var fate: Fate                  // an exception or a read beyond the input ended the session
    ghost var log: seq<Frame>             // every frame ever enqueued
    ghost var taken: seq<byte>            // bytes already handed to the transport

    ghost function View(): Session
      reads this
    {
      Session(mode, alive, fate, log, encoder, dyn, streams, nextSid, lastClient, connSend, connRecv,
        peerMaxFrame, peerInitial,
              enablePush, contSid, handler, dispatched, completed)
    }

    /** Handed-out bytes and the buffer are the enqueued frames; a live session holds no unprocessed frame. */
    ghost predicate Valid()
      reads this
    {
      taken + outputBuf == Serialize(log)
    }

    ghost predicate Ready()
      reads this, reader, reader.headerBuf
    {
      Valid() && reader.Valid() && (alive ==> !reader.HasFrame())
    }

    constructor (mode: Mode, tables: Tables, handler: Request -> Response)
      ensures Ready() && fresh(reader) && fresh(reader.headerBuf)
      ensures View() == NewSession(mode, tables, handler) && taken == [] && reader.Pending() == []
    {
      hide Build, InitialSettings;
      this.mode, this.handler := mode, handler;
      reader := new FrameReader();
      alive, fate := true, Returned;
      encoder, dyn := NewEncoder(tables, DEFAULT_TABLE_SIZE), DynTable([], 0, DEFAULT_TABLE_SIZE);
      streams, nextSid, lastClient := map[], if mode.Server? then 2 else 1, 0;
      connSend, connRecv, peerMaxFrame, peerInitial := DEFAULT_WINDOW, DEFAULT_WINDOW, 16384, DEFAULT_WINDOW;
      enablePush, contSid, completed, dispatched := true, 0, [], [];
      outputBuf, log, taken := Build(SettingsFrame(InitialSettings())), [SettingsFrame(InitialSettings())], [];
      new;
      SerializeOne(SettingsFrame(InitialSettings()));
      reader.HasFrameMeans();
    }

    /** Append the bytes of some frames to the output buffer. */
    method Put(data: seq<byte>, ghost fs: seq<Frame>)
      requires Valid() && data == Serialize(fs)
      modifies this`outputBuf, this`log
      ensures Valid() && View() == Enqueue(old(View()), fs)
      ensures outputBuf == old(outputBuf) + data
    {
      SerializeConcat(log, fs);
      outputBuf := outputBuf + data;
      log := log + fs;
      assert taken + outputBuf == taken + old(outputBuf) + data;
    }

    method PutFrame(f: Frame)
      requires Valid()
      modifies this`outputBuf, this`log
      ensures Valid() && View() == Enqueue(old(View()), [f])
    {
      SerializeOne(f);
      Put(Build(f), [f]);
    }

    /** get_pending_output: hand over the buffer and clear it. */
    method GetPendingOutput() returns (result: seq<byte>)
      requires Valid()
      modifies this`outputBuf, this`taken
      ensures Valid() && View() == old(View())
      ensures outputBuf == [] && taken == old(taken) + result && taken == Serialize(log)
    {
      result := outputBuf;
      outputBuf := [];
      taken := taken + result;
      assert taken + outputBuf == taken;
    }

    method SendGoaway(code: nat, debug: string)
      requires Valid()
      modifies this`outputBuf, this`log, this`alive
      ensures Valid() && View() == Goaway(old(View()), code, debug)
    {
      hide Serialize, Ascii;
      PutFrame(GoawayFrame(lastClient, code, Ascii(debug)));
      alive := false;
    }

    // -------------------------------------------------------------- submissions

    method PutFields(sid: nat, end: bool, hdrs: seq<Field>)
      requires Valid()
      modifies this`outputBuf, this`log, this`encoder
      ensures Valid() && View() == SendFields(old(View()), sid, end, hdrs)
    {
      hide Serialize, HeaderFrames, EncodeBlock;
      var block := EncodeBlock(encoder, hdrs);
      encoder := AfterBlock(encoder);
      var bytes := SplitBlock(sid, end, block, peerMaxFrame);
      Put(bytes, HeaderFrames(sid, end, block, peerMaxFrame));
    }

    method PutBody(sid: nat, body: seq<byte>, end: bool)
      requires Valid() && body != []
      modifies this`outputBuf, this`log
      ensures Valid() && View() == Enqueue(old(View()), DataFrames(sid, end, body, peerMaxFrame))
    {
      hide Serialize, DataFrames;
      var bytes := BuildDataFrames(sid, body, end, peerMaxFrame);
      Put(bytes, DataFrames(sid, end, body, peerMaxFrame));
    }

    method Close(sid: nat)
      modifies this`streams
      ensures View() == CloseStream(old(View()), sid)
    {
      if sid in streams {
        streams := streams[sid := streams[sid].(phase := Closed)];
      }
    }

    method SubmitTheRequest(req: Request, keepOpen: bool) returns (sid: nat)
      requires Valid()
      modifies this
      ensures taken == old(taken)
      ensures Valid() && sid == old(nextSid) && View() == SubmitRequest(old(View()), req, keepOpen)
    {
      hide Serialize, RequestFields, HeaderFrames, EncodeBlock;
      sid := nextSid;
      nextSid := nextSid + 2;
      var st := if sid in streams then streams[sid] else FreshStream();
      streams := streams[sid := st.(phase := Open, promise := true)];
      PutFields(sid, req.body == [] && !keepOpen, RequestFields(req));
      if req.body != [] {
        PutBody(sid, req.body, true);
      } else {
        assert View() == Enqueue(View(), []);
      }
    }

    method SubmitTheResponse(sid: nat, resp: Response)
      requires Valid()
      modifies this`outputBuf, this`log, this`encoder, this`streams
      ensures Valid() && View() == SubmitResponse(old(View()), sid, resp)
    {
      hide Serialize, ResponseFields, TrailerFields, HeaderFrames, EncodeBlock, CloseStream;
      var hasBody, hasTrailers := resp.body != [], resp.trailers != [];
      PutFields(sid, !hasBody && !hasTrailers, ResponseFields(resp, true));
      if hasBody {
        PutBody(sid, resp.body, !hasTrailers);
      } else {
        assert View() == Enqueue(View(), []);
      }
      if hasTrailers {
        PutFields(sid, true, TrailerFields(resp.trailers));
      }
      Close(sid);
    }

    method SubmitTheHeaders(sid: nat, resp: Response)
      requires Valid()
      modifies this`outputBuf, this`log, this`encoder
      ensures Valid() && View() == SubmitResponseHeaders(old(View()), sid, resp)
    {
      PutFields(sid, false, ResponseFields(resp, false));
    }

    method SubmitTheData(sid: nat, data: seq<byte>, end: bool)
      requires Valid()
      modifies this`outputBuf, this`log, this`streams
      ensures Valid() && View() == SubmitData(old(View()), sid, data, end)
    {
      hide Serialize, DataFrames, CloseStream;
      if data == [] {
        PutFrame(Frame(DATA, EndFlag(end), sid, []));
      } else {
        PutBody(sid, data, end);
      }
      if end {
        Close(sid);
      }
    }

    method SubmitTheTrailers(sid: nat, trailers: seq<Field>)
      requires Valid()
      modifies this`outputBuf, this`log, this`encoder, this`streams
      ensures Valid() && View() == SubmitTrailers(old(View()), sid, trailers)
    {
      hide Serialize, SendFields, CloseStream;
      PutFields(sid, true, TrailerFields(trailers));
      Close(sid);
    }

    // -------------------------------------------------------------- end of a stream

    method DispatchTheRequest(sid: nat)
      requires Valid() && sid in streams
      modifies this`outputBuf, this`log, this`encoder, this`streams, this`dispatched
      ensures Valid() && View() == DispatchRequest(old(View()), sid)
    {
      hide Serialize, SubmitResponse;
      var st := streams[sid];
      var req := st.req.(body := st.body);
      streams := streams[sid := st.(req := req, body := [])];
      dispatched := dispatched + [Dispatch(sid, req)];
      SubmitTheResponse(sid, handler(req));
    }

    method CompleteThePromise(sid: nat)
      requires Valid() && sid in streams
      modifies this`streams, this`completed
      ensures Valid() && View() == CompletePromise(old(View()), sid)
    {
      var st := streams[sid];
      var resp := st.resp.(body := st.body);
      if st.promise {
        completed := completed + [Answered(sid, resp)];
        streams := streams[sid := st.(resp := resp.(hdrs := [], body := [], trailers := []), body := [])];
      } else {
        streams := streams[sid := st.(resp := resp, body := [])];
      }
    }

    method FinishStream(sid: nat)
      requires Valid() && sid in streams
      modifies this`outputBuf, this`log, this`encoder, this`streams, this`dispatched, this`completed
      ensures Valid() && View() == EndOfStream(old(View()), sid)
    {
      hide Serialize, DispatchRequest, CompletePromise;
      streams := streams[sid := streams[sid].(endStream := true)];
      if mode.Server? {
        DispatchTheRequest(sid);
      } else {
        CompleteThePromise(sid);
      }
    }

    // -------------------------------------------------------------- frames

    /** Debit both windows and refill each that has fallen below half. */
    method Count(sid: nat, n: nat)
      requires Valid() && sid in streams
      modifies this`outputBuf, this`log, this`streams, this`connRecv
      ensures Valid() && View() == CountData(old(View()), sid, n)
    {
      hide Serialize, WindowUpdateFrame;
      ghost var before := log;
      var st := streams[sid];
      connRecv := connRecv - n;
      var window := st.recvWindow - n;
      ghost var connUp := Refill(connRecv);
      ghost var up := Refill(window);
      if connRecv < DEFAULT_WINDOW / 2 {
        var increment := DEFAULT_WINDOW - connRecv;
        PutFrame(WindowUpdateFrame(0, increment));
        connRecv := connRecv + increment;
      }
      assert log == before + RefillFrames(0, connUp);
      if window < DEFAULT_WINDOW / 2 {
        var increment := DEFAULT_WINDOW - window;
        PutFrame(WindowUpdateFrame(sid, increment));
        window := window + increment;
      }
      assert log == before + RefillFrames(0, connUp) + RefillFrames(sid, up);
      assert log == before + (RefillFrames(0, connUp) + RefillFrames(sid, up));
      streams := streams[sid := st.(recvWindow := window)];
    }

    method OnData(f: Frame)
      requires Valid()
      modifies this
      ensures taken == old(taken)
      ensures Valid() && View() == HandleData(old(View()), f)
    {
      hide Serialize, EndOfStream, CountData, Unpadded, HasFlag, Goaway;
      if f.sid == 0 {
        SendGoaway(PROTOCOL_ERROR, "DATA on stream 0");
        return;
      }
      if f.sid !in streams {
        PutFrame(RstStreamFrame(f.sid, STREAM_CLOSED));
        return;
      }
      match Unpadded(f) {
        case Fault(code) =>
          SendGoaway(code, "");
        case Content(data) =>
          var st := streams[f.sid];
          streams := streams[f.sid := st.(body := st.body + data)];
          Count(f.sid, |data|);
          assert f.sid in streams
              by { CountKeepsKey(old(View()).(streams := old(streams)[f.sid := st.(body := st.body + data)]),
                f.sid, |data|); }
          if HasFlag(f, END_STREAM) {
            FinishStream(f.sid);
          }
      }
    }

    static lemma CountKeepsKey(s: Session, sid: nat, n: nat)
      requires sid in s.streams
      ensures sid in CountData(s, sid, n).streams
    {
    }

    /** apply_headers: the list, field by field, then the end of the stream. */
    method ApplyHeaders(sid: nat, hs: seq<Field>, end: bool)
      requires Valid() && mode.Server? && sid in streams
      modifies this`outputBuf, this`log, this`encoder, this`streams, this`dispatched, this`completed
      ensures Valid() && View() == ApplyRequest(old(View()), sid, hs, end)
    {
      hide Serialize, EndOfStream, ReceiveField;
      var st := streams[sid];
      var req := st.req;
      for i := 0 to |hs|
        invariant ReceiveFields(req, hs[i..]) == ReceiveFields(st.req, hs)
      {
        assert hs[i..][1..] == hs[i + 1..];
        req := ReceiveField(req, hs[i]);
      }
      streams := streams[sid := st.(headersComplete := true, req := req.(version := Http2))];
      if end {
        FinishStream(sid);
      }
    }

    method ApplyResponseHeaders(sid: nat, hs: seq<Field>, end: bool)
      requires Valid() && mode.Client? && sid in streams
      modifies this`outputBuf, this`log, this`encoder, this`streams, this`dispatched, this`completed
      ensures Valid() && View() == ApplyResponse(old(View()), sid, hs, end)
    {
      hide Serialize, EndOfStream, ReceiveStatus;
      var st := streams[sid];
      var resp := st.resp;
      for i := 0 to |hs|
        invariant ReceiveResponse(resp, hs[i..]) == ReceiveResponse(st.resp, hs)
      {
        assert hs[i..][1..] == hs[i + 1..];
        resp := ReceiveStatus(resp, hs[i]);
      }
      streams := streams[sid := st.(headersComplete := true, resp := resp.(version := Http2))];
      if end {
        FinishStream(sid);
      }
    }

    method DecodeAndApply(sid: nat, block: seq<byte>, end: bool)
      requires Valid() && sid in streams
      modifies this`outputBuf, this`log, this`encoder, this`streams, this`dispatched, this`completed, this`dyn,
        this`alive, this`fate
      ensures Valid() && View() == ApplyBlock(old(View()), sid, block, end)
    {
      hide Serialize, DecodeBlock, ApplyRequest, ApplyResponse;
      var d := DecodeBlock(encoder.tables, dyn, block);
      dyn := d.dyn;
      if d.fate != Returned {
        alive, fate := false, d.fate;
      } else if mode.Server? {
        ApplyHeaders(sid, d.headers, end);
      } else {
        ApplyResponseHeaders(sid, d.headers, end);
      }
    }

    method BeginBlock(f: Frame, fragment: seq<byte>)
      requires Valid() && f.sid in streams
      modifies this
      ensures taken == old(taken)
      ensures Valid() && View() == StartBlock(old(View()), f, fragment)
    {
      hide Serialize, ApplyBlock, HasFlag;
      if HasFlag(f, END_HEADERS) {
        DecodeAndApply(f.sid, fragment, HasFlag(f, END_STREAM));
      } else {
        var st := streams[f.sid].(pendingBlock := fragment);
        if HasFlag(f, END_STREAM) {
          st := st.(endStream := true);
        }
        streams := streams[f.sid := st];
        contSid := f.sid;
      }
    }

    method OnHeaders(f: Frame)
      requires Valid()
      modifies this
      ensures taken == old(taken)
      ensures Valid() && View() == HandleHeaders(old(View()), f)
    {
      hide Serialize, StartBlock, Fragment, Goaway;
      if f.sid == 0 {
        SendGoaway(PROTOCOL_ERROR, "HEADERS on stream 0");
        return;
      }
      match Fragment(f) {
        case Fault(code) =>
          SendGoaway(code, "");
        case Content(fragment) =>
          if mode.Server? {
            var st := if f.sid in streams then streams[f.sid] else FreshStream();
            streams := streams[f.sid := st.(phase := Open)];
            lastClient := if lastClient < f.sid then f.sid else lastClient;
            BeginBlock(f, fragment);
          } else if f.sid in streams {
            BeginBlock(f, fragment);
          }
      }
    }

    method OnContinuation(f: Frame)
      requires Valid()
      modifies this
      ensures taken == old(taken)
      ensures Valid() && View() == HandleContinuation(old(View()), f)
    {
      hide Serialize, ApplyBlock, HasFlag, Goaway;
      if f.sid !in streams {
        SendGoaway(PROTOCOL_ERROR, "CONTINUATION for unknown stream");
        return;
      }
      var st := streams[f.sid];
      var block := st.pendingBlock + f.payload;
      if HasFlag(f, END_HEADERS) {
        contSid := 0;
        streams := streams[f.sid := st.(pendingBlock := [])];
        DecodeAndApply(f.sid, block, st.endStream);
      } else {
        streams := streams[f.sid := st.(pendingBlock := block)];
      }
    }

    /** Add a difference to every stream's send window. */
    method ShiftAll(delta: int)
      modifies this`streams
      ensures streams == ShiftWindows(old(streams), delta)
    {
      var todo := streams.Keys;
      while todo != {}
        invariant todo <= streams.Keys == old(streams).Keys
        invariant forall k :: k in todo ==> streams[k] == old(streams)[k]
        invariant forall k :: k in streams && k !in todo ==> streams[k] == ShiftWindows(old(streams), delta)[k]
        decreases |todo|
      {
        var k :| k in todo;
        streams := streams[k := streams[k].(sendWindow := streams[k].sendWindow + delta)];
        todo := todo - {k};
      }
    }

    method OnSetting(x: Setting)
      requires Valid()
      modifies this
      ensures taken == old(taken)
      ensures Valid() && View() == ApplySetting(old(View()), x)
    {
      hide Serialize, SetMaxTableSize, ShiftWindows, Goaway;
      if x.id == HEADER_TABLE_SIZE {
        encoder := SetMaxTableSize(encoder, x.value);
      } else if x.id == INITIAL_WINDOW_SIZE {
        if x.value > MAX_WINDOW_SIZE {
          SendGoaway(FLOW_CONTROL_ERROR, "");
        } else {
          ShiftAll(x.value - peerInitial);
          peerInitial := x.value;
        }
      } else if x.id == MAX_FRAME_SIZE {
        if x.value < 16384 || x.value > 16777215 {
          SendGoaway(PROTOCOL_ERROR, "Invalid MAX_FRAME_SIZE");
        } else {
          peerMaxFrame := x.value;
        }
      } else if x.id == ENABLE_PUSH {
        enablePush := x.value != 0;
      }
    }

    method OnSettings(f: Frame)
      requires Valid() && alive
      modifies this
      ensures taken == old(taken)
      ensures Valid() && View() == HandleSettings(old(View()), f)
    {
      hide Serialize, ApplySetting, ParseSettings, HasFlag, Goaway;
      if f.sid != 0 {
        SendGoaway(PROTOCOL_ERROR, "SETTINGS on non-zero stream");
        return;
      }
      if HasFlag(f, ACK) {
        return;
      }
      if |f.payload| % 6 != 0 {
        SendGoaway(FRAME_SIZE_ERROR, "");
        return;
      }
      var xs := ParseSettings(f.payload);
      for i := 0 to |xs|
        invariant Valid() && alive && taken == old(taken)
        invariant ApplySettings(View(), xs[i..]) == ApplySettings(old(View()), xs)
      {
        assert xs[i..][1..] == xs[i + 1..];
        OnSetting(xs[i]);
        if !alive {
          return;
        }
      }
      PutFrame(SettingsAck());
    }

    method OnPing(f: Frame)
      requires Valid()
      modifies this
      ensures taken == old(taken)
      ensures Valid() && View() == HandlePing(old(View()), f)
    {
      hide Serialize, Goaway, HasFlag;
      if f.sid != 0 {
        SendGoaway(PROTOCOL_ERROR, "PING on non-zero stream");
      } else if |f.payload| != 8 {
        SendGoaway(FRAME_SIZE_ERROR, "");
      } else if !HasFlag(f, ACK) {
        PutFrame(PingAck(f.payload));
      }
    }

    method OnWindowUpdate(f: Frame)
      requires Valid()
      modifies this
      ensures taken == old(taken)
      ensures Valid() && View() == HandleWindowUpdate(old(View()), f)
    {
      hide Serialize, Goaway, ParseWindowUpdate;
      if |f.payload| != 4 {
        SendGoaway(FRAME_SIZE_ERROR, "");
        return;
      }
      var increment := ParseWindowUpdate(f.payload);
      if increment == 0 {
        if f.sid == 0 {
          SendGoaway(PROTOCOL_ERROR, "WINDOW_UPDATE 0 increment");
        } else {
          PutFrame(RstStreamFrame(f.sid, PROTOCOL_ERROR));
        }
        return;
      }
      if f.sid == 0 {
        connSend := connSend + increment;
        if connSend > MAX_WINDOW_SIZE {
          SendGoaway(FLOW_CONTROL_ERROR, "");
        }
      } else if f.sid in streams {
        var st := streams[f.sid];
        streams := streams[f.sid := st.(sendWindow := st.sendWindow + increment)];
        if st.sendWindow + increment > MAX_WINDOW_SIZE {
          PutFrame(RstStreamFrame(f.sid, FLOW_CONTROL_ERROR));
        }
      }
    }

    method OnRstStream(f: Frame)
      requires Valid()
      modifies this
      ensures taken == old(taken)
      ensures Valid() && View() == HandleRstStream(old(View()), f)
    {
      hide Serialize, Goaway;
      if |f.payload| != 4 {
        SendGoaway(FRAME_SIZE_ERROR, "");
        return;
      }
      if f.sid in streams {
        if streams[f.sid].promise {
          completed := completed + [Reset(f.sid)];
        }
        streams := streams - {f.sid};
      }
    }

    method OnPushPromise(f: Frame)
      requires Valid()
      modifies this
      ensures taken == old(taken)
      ensures Valid() && View() == HandlePushPromise(old(View()), f)
    {
      hide Serialize, Goaway, DecodeBlock, From32;
      if mode.Server? {
        SendGoaway(PROTOCOL_ERROR, "PUSH_PROMISE on server");
        return;
      }
      var promised, block: seq<byte> := 0, [];
      if |f.payload| >= 4 {
        promised, block := From32(f.payload) % SID_LIMIT, f.payload[4..];
      }
      var d := DecodeBlock(encoder.tables, dyn, block);
      dyn := d.dyn;
      if d.fate != Returned {
        alive, fate := false, d.fate;
        return;
      }
      var st := if promised in streams then streams[promised] else FreshStream();
      streams := streams[promised := st.(phase := Open, promise := true)];
    }

    method OnFrame(f: Frame)
      requires Valid() && alive
      modifies this
      ensures taken == old(taken)
      ensures Valid() && View() == ProcessFrame(old(View()), f)
    {
      hide Serialize, HandleData, HandleHeaders, HandleContinuation, HandleSettings, HandlePing, HandleWindowUpdate,
        HandleRstStream, HandlePushPromise, Goaway;
      if contSid != 0 {
        if f.kind != CONTINUATION || f.sid != contSid {
          SendGoaway(PROTOCOL_ERROR, "Expected CONTINUATION");
        } else {
          OnContinuation(f);
        }
      } else if f.kind == DATA {
        OnData(f);
      } else if f.kind == HEADERS {
        OnHeaders(f);
      } else if f.kind == RST_STREAM {
        OnRstStream(f);
      } else if f.kind == SETTINGS {
        OnSettings(f);
      } else if f.kind == PUSH_PROMISE {
        OnPushPromise(f);
      } else if f.kind == PING {
        OnPing(f);
      } else if f.kind == GOAWAY {
        alive := false;
      } else if f.kind == WINDOW_UPDATE {
        OnWindowUpdate(f);
      } else if f.kind == CONTINUATION {
        SendGoaway(PROTOCOL_ERROR, "Unexpected CONTINUATION");
      }
    }

    // -------------------------------------------------------------- the feed loop

    /** Process the frames the reader holds, until none is left or the session dies. */
    method Drain()
      requires Valid() && reader.Valid() && alive
      modifies this, reader
      ensures taken == old(taken)
      ensures Valid() && reader.Valid()
      ensures View() == Run(old(View()), Parse(old(reader.Pending())).frames)
      ensures alive ==> !reader.HasFrame() && reader.Pending() == Parse(old(reader.Pending())).rest
    {
      hide Serialize, ProcessFrame, FirstFrame, StartsWithFrame;
      reader.HasFrameMeans();
      while reader.HasFrame()
        invariant Valid() && reader.Valid() && alive && taken == old(taken)
        invariant Run(View(), Parse(reader.Pending()).frames) == Run(old(View()), Parse(old(reader.Pending())).frames)
        invariant Parse(reader.Pending()).rest == Parse(old(reader.Pending())).rest
        decreases |reader.Pending()|
      {
        reader.HasFrameMeans();
        ghost var p := reader.Pending();
        var f := reader.TakeFrame();
        assert p[FrameEnd(p)..] == [] == reader.Pending();
        ghost var s := View();
        assert Parse(p).frames == [f] + Parse([]).frames;
        assert Parse(p).frames[1..] == Parse([]).frames;
        assert Run(s, Parse(p).frames) == Run(ProcessFrame(s, f), Parse([]).frames);
        OnFrame(f);
        if !alive {
          return;
        }
      }
      reader.HasFrameMeans();
    }

    /**
      One turn of the feed loop always makes progress, so the source's test for a turn that consumed nothing never
      fires.
     */
    method FeedSome(data: seq<byte>) returns (consumed: nat)
      requires Ready() && alive && data != []
      modifies this, reader, reader.headerBuf
      ensures taken == old(taken)
      ensures Ready() && 0 < consumed <= |data|
      ensures View() == Run(old(View()), Parse(old(reader.Pending()) + data[..consumed]).frames)
      ensures alive ==> reader.Pending() == Parse(old(reader.Pending()) + data[..consumed]).rest
    {
      hide Run, StartsWithFrame, Serialize, Parse;
      assert reader.Pending() + data[..0] == reader.Pending();
      reader.HasFrameMeans();
      consumed := reader.Feed(data);
      reader.HasFrameMeans();
      Drain();
    }

    /**
      feed: while the session lives it consumes its whole input and has processed exactly the
      frames a one-shot parse of everything fed so far yields; once dead it refuses input.
     */
    method Feed(data: seq<byte>) returns (r: int)
      requires Ready()
      modifies this, reader, reader.headerBuf
      ensures Ready() && taken == old(taken)
      ensures !old(alive) ==> r == -1 && View() == old(View())
      ensures old(alive) ==> 0 <= r <= |data| && View() == Run(old(View()), Parse(old(reader.Pending()) + data).frames)
      ensures alive ==> r == |data| && reader.Pending() == Parse(old(reader.Pending()) + data).rest
    {
      hide Run, StartsWithFrame, Serialize, Parse;
      if !alive {
        return -1;
      }
      ghost var start, before := reader.Pending(), View();
      FeedStart(before, start, reader);
      assert start + data[..0] == start;
      var total := 0;
      while total < |data| && alive
        invariant 0 <= total <= |data| && taken == old(taken)
        invariant Ready()
        invariant View() == Run(before, Parse(start + data[..total]).frames)
        invariant alive ==> reader.Pending() == Parse(start + data[..total]).rest
        decreases |data| - total
      {
        var consumed := FeedSome(data[total..]);
        FeedStep(before, start, data, total, consumed);
        total := total + consumed;
      }
      assert data[..|data|] == data;
      if !alive {
        DeadStays(before, start, data, total);
      }
      r := total;
    }
  }

  lemma FeedStart(s: Session, start: seq<byte>, reader: FrameReader)
    requires reader.Valid() && start == reader.Pending() && !reader.HasFrame()
    ensures Run(s, Parse(start).frames) == s && Parse(start).rest == start
  {
    hide ProcessFrame;
    reader.HasFrameMeans();
  }

  /** One chunk more: its frames run after the earlier ones. */
  lemma FeedStep(s: Session, start: seq<byte>, data: seq<byte>, total: nat, consumed: nat)
    requires total + consumed <= |data|
    ensures var p := Parse(start + data[..total]);
            var q := Parse(p.rest + data[total..][..consumed]);
            var w := Parse(start + data[..total + consumed]);
            Run(Run(s, p.frames), q.frames) == Run(s, w.frames) && q.rest == w.rest
  {
    hide Run, Parse;
    var chunk := data[total..][..consumed];
    assert start + data[..total] + chunk == start + data[..total + consumed];
    ParseAppend(start + data[..total], chunk);
    RunConcat(s, Parse(start + data[..total]).frames, Parse(Parse(start + data[..total]).rest + chunk).frames);
  }

  /** What comes after the frame that ended the session changes nothing. */
  lemma DeadStays(s: Session, start: seq<byte>, data: seq<byte>, total: nat)
    requires total <= |data| && !Run(s, Parse(start + data[..total]).frames).alive
    ensures Run(s, Parse(start + data).frames) == Run(s, Parse(start + data[..total]).frames)
  {
    hide ProcessFrame, Parse;
    assert data[..total + (|data| - total)] == data;
    FeedStep(s, start, data, total, |data| - total);
  }
}
