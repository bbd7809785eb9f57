/**
  On a client a submission and a received frame commute: what the frames of earlier streams do does not depend on
  whether a later request has already been submitted, nor on what the client has sent so far.
 */
module H2Commute {
  import opened Bytes
  import opened DynamicTable
  import opened H2Frame
  import opened HttpTypes
  import opened Hpack
  import opened H2Session

  /** A session without its output. */
  function Bare(c: Session): Session {
    c.(output := [])
  }

  /** What a submission changes beside the output. */
  function Asking(c: Session): Session {
    WithStream(c, c.nextSid, StreamOf(c, c.nextSid).(phase := Open, promise := true))
      .(nextSid := c.nextSid + 2, encoder := AfterBlock(c.encoder))
  }

  lemma SubmitIsAsking(c: Session, req: Request)
    ensures Bare(SubmitRequest(c, req, false)) == Asking(Bare(c))
  {
    hide HeaderFrames, DataFrames, RequestFields, EncodeBlock, FreshStream;
  }

  /** The frames a server utters in a conversation. */
  ghost predicate Uttered(f: Frame) {
    || f.kind == HEADERS || f.kind == CONTINUATION || f.kind == DATA || f.kind == WINDOW_UPDATE
    || f == SettingsAck() || f == SettingsFrame(InitialSettings())
  }

  // ---------------------------------------------------------------- the output does not matter

  lemma GoawayBare(c: Session, code: nat, debug: string)
    ensures Bare(Goaway(Bare(c), code, debug)) == Bare(Goaway(c, code, debug))
  {
    hide Ascii;
  }

  lemma CompleteBare(c: Session, sid: nat)
    requires sid in c.streams
    ensures CompletePromise(Bare(c), sid) == Bare(CompletePromise(c, sid))
  {
    if c.streams[sid].promise {
    }
  }

  lemma EndBare(c: Session, sid: nat)
    requires c.mode.Client? && sid in c.streams
    ensures EndOfStream(Bare(c), sid) == Bare(EndOfStream(c, sid))
  {
    hide CompletePromise;
    CompleteBare(WithStream(c, sid, c.streams[sid].(endStream := true)), sid);
  }

  lemma ResponseBare(c: Session, sid: nat, fs: seq<Field>, end: bool)
    requires c.mode.Client? && sid in c.streams
    ensures ApplyResponse(Bare(c), sid, fs, end) == Bare(ApplyResponse(c, sid, fs, end))
  {
    hide EndOfStream, ReceiveResponse;
    var st := c.streams[sid];
    EndBare(WithStream(c, sid, st.(headersComplete := true, resp := ReceiveResponse(st.resp, fs).(version := Http2))),
      sid);
  }

  lemma BlockBare(c: Session, sid: nat, block: seq<byte>, end: bool)
    requires c.mode.Client? && sid in c.streams
    ensures ApplyBlock(Bare(c), sid, block, end) == Bare(ApplyBlock(c, sid, block, end))
  {
    hide DecodeBlock, ApplyResponse;
    var d := DecodeBlock(c.encoder.tables, c.dyn, block);
    ResponseBare(c.(dyn := d.dyn), sid, d.headers, end);
  }

  lemma CountBare(c: Session, sid: nat, n: nat)
    requires sid in c.streams
    ensures Bare(CountData(Bare(c), sid, n)) == Bare(CountData(c, sid, n))
  {
    hide RefillFrames, Refill;
  }

  lemma TakenBare(c: Session, sid: nat, data: seq<byte>, end: bool)
    requires c.mode.Client? && sid in c.streams
    ensures Bare(TakeData(Bare(c), sid, data, end)) == Bare(TakeData(c, sid, data, end))
  {
    hide EndOfStream, CountData;
    var st := c.streams[sid];
    var filled := WithStream(c, sid, st.(body := st.body + data));
    CountBare(filled, sid, |data|);
    assert Bare(filled) == WithStream(Bare(c), sid, st.(body := st.body + data));
    var s1, s2 := CountData(filled, sid, |data|), CountData(Bare(filled), sid, |data|);
    CountKeeps(filled, sid, |data|);
    CountKeeps(Bare(filled), sid, |data|);
    if end {
      EndBare(s1, sid);
      EndBare(s2, sid);
    }
  }

  lemma CountKeeps(c: Session, sid: nat, n: nat)
    requires sid in c.streams
    ensures sid in CountData(c, sid, n).streams && CountData(c, sid, n).mode == c.mode
  {
    hide RefillFrames, Refill;
  }

  /** An accepted DATA frame's content. */
  function TakeData(c: Session, sid: nat, data: seq<byte>, end: bool): Session
    requires sid in c.streams
  {
    var st := c.streams[sid];
    var s1 := CountData(WithStream(c, sid, st.(body := st.body + data)), sid, |data|);
    if end then EndOfStream(s1, sid) else s1
  }

  lemma DataIsTaken(c: Session, f: Frame)
    requires f.sid != 0 && f.sid in c.streams && Unpadded(f).Content?
    ensures HandleData(c, f) == TakeData(c, f.sid, Unpadded(f).data, HasFlag(f, END_STREAM))
  {
    hide EndOfStream, CountData, Unpadded, HasFlag;
  }

  lemma DataBare(c: Session, f: Frame)
    requires c.mode.Client?
    ensures Bare(HandleData(Bare(c), f)) == Bare(HandleData(c, f))
  {
    hide Goaway, Unpadded, HasFlag, TakeData, CountData, EndOfStream, Be32;
    GoawayBare(c, PROTOCOL_ERROR, "DATA on stream 0");
    if Unpadded(f).Fault? {
      GoawayBare(c, Unpadded(f).code, "");
    } else if f.sid != 0 && f.sid in c.streams {
      DataIsTaken(c, f);
      DataIsTaken(Bare(c), f);
      TakenBare(c, f.sid, Unpadded(f).data, HasFlag(f, END_STREAM));
    }
  }

  lemma HeadersBare(c: Session, f: Frame)
    requires c.mode.Client?
    ensures Bare(HandleHeaders(Bare(c), f)) == Bare(HandleHeaders(c, f))
  {
    hide Goaway, Fragment, StartBlock, FreshStream;
    GoawayBare(c, PROTOCOL_ERROR, "HEADERS on stream 0");
    match Fragment(f)
    case Fault(code) => GoawayBare(c, code, "");
    case Content(fragment) =>
      if f.sid in c.streams {
        StartBare(c, f, fragment);
      }
  }

  lemma StartBare(c: Session, f: Frame, fragment: seq<byte>)
    requires c.mode.Client? && f.sid in c.streams
    ensures StartBlock(Bare(c), f, fragment) == Bare(StartBlock(c, f, fragment))
  {
    hide HasFlag, ApplyBlock;
    BlockBare(c, f.sid, fragment, HasFlag(f, END_STREAM));
  }

  lemma ContinuationBare(c: Session, f: Frame)
    requires c.mode.Client?
    ensures Bare(HandleContinuation(Bare(c), f)) == Bare(HandleContinuation(c, f))
  {
    hide Goaway, HasFlag, ApplyBlock;
    GoawayBare(c, PROTOCOL_ERROR, "CONTINUATION for unknown stream");
    if f.sid in c.streams {
      var st := c.streams[f.sid];
      BlockBare(WithStream(c, f.sid, st.(pendingBlock := [])).(contSid := 0), f.sid, st.pendingBlock + f.payload,
        st.endStream);
    }
  }

  /** Credit for a stream. */
  function Credited(c: Session, sid: nat, increment: nat): Session
    requires sid in c.streams
  {
    var st := c.streams[sid];
    var s1 := WithStream(c, sid, st.(sendWindow := st.sendWindow + increment));
    if st.sendWindow + increment > MAX_WINDOW_SIZE then Enqueue(s1, [RstStreamFrame(sid, FLOW_CONTROL_ERROR)]) else s1
  }

  lemma CreditedBare(c: Session, sid: nat, increment: nat)
    requires sid in c.streams
    ensures Bare(Credited(Bare(c), sid, increment)) == Bare(Credited(c, sid, increment))
  {
    hide Be32;
  }

  lemma UpdateBare(c: Session, f: Frame)
    ensures Bare(HandleWindowUpdate(Bare(c), f)) == Bare(HandleWindowUpdate(c, f))
  {
    hide Goaway, ParseWindowUpdate, Be32;
    GoawayBare(c, FRAME_SIZE_ERROR, "");
    GoawayBare(c, PROTOCOL_ERROR, "WINDOW_UPDATE 0 increment");
    var n := ParseWindowUpdate(f.payload);
    GoawayBare(c.(connSend := c.connSend + n), FLOW_CONTROL_ERROR, "");
    if |f.payload| == 4 && n > 0 && f.sid != 0 && f.sid in c.streams {
      CreditedBare(c, f.sid, n);
      UpdateIsCredit(c, f);
      UpdateIsCredit(Bare(c), f);
    }
  }

  lemma UpdateIsCredit(c: Session, f: Frame)
    requires |f.payload| == 4 && ParseWindowUpdate(f.payload) > 0 && f.sid != 0 && f.sid in c.streams
    ensures HandleWindowUpdate(c, f) == Credited(c, f.sid, ParseWindowUpdate(f.payload))
  {
    hide Goaway, ParseWindowUpdate, Be32;
  }

  lemma NoShift(streams: map<nat, Stream>)
    ensures ShiftWindows(streams, 0) == streams
  {
  }

  /** The settings every session of this library sends tell its peer nothing new. */
  lemma FourTell(c: Session, xs: seq<Setting>)
    requires c.alive && c.peerInitial == 65535 && xs == InitialSettings()
    ensures ApplySettings(c, xs) == c.(enablePush := true)
  {
    hide ShiftWindows;
    NoShift(c.streams);
    var s1 := ApplySetting(c, xs[0]);
    var s2 := ApplySetting(s1, xs[1]);
    var s3 := ApplySetting(s2, xs[2]);
    var s4 := ApplySetting(s3, xs[3]);
    assert xs[1..][1..][1..][1..] == [];
    assert ApplySettings(s4, xs[1..][1..][1..][1..]) == s4;
    assert ApplySettings(s3, xs[1..][1..][1..]) == s4;
    assert ApplySettings(s2, xs[1..][1..]) == s4;
    assert ApplySettings(s1, xs[1..]) == s4;
  }

  lemma SettingsTell(c: Session)
    requires c.alive && c.peerInitial == 65535
    ensures HandleSettings(c, SettingsFrame(InitialSettings())) == Enqueue(c.(enablePush := true), [SettingsAck()])
    ensures HandleSettings(c, SettingsAck()) == c
  {
    hide ApplySettings, ParseSettings, Goaway;
    SettingsRoundTrip(InitialSettings());
    FourTell(c, InitialSettings());
  }

  /** What a frame does to a client does not depend on what the client has sent. */
  lemma FrameBare(c: Session, f: Frame)
    requires c.mode.Client? && c.alive && c.peerInitial == 65535 && Uttered(f)
    ensures Bare(ProcessFrame(Bare(c), f)) == Bare(ProcessFrame(c, f))
  {
    hide HandleData, HandleHeaders, HandleContinuation, HandleWindowUpdate, HandleSettings, Goaway, InitialSettings,
      Bare, SettingsPayload;
    assert Bare(c).contSid == c.contSid && Bare(c).alive && Bare(c).peerInitial == 65535 by { BareKeeps(c); }
    if c.contSid != 0 {
      GoawayBare(c, PROTOCOL_ERROR, "Expected CONTINUATION");
      ContinuationBare(c, f);
    } else if f.kind == SETTINGS {
      SettingsTell(c);
      SettingsTell(Bare(c));
      TellBare(c);
      BareKeeps(c);
      assert ProcessFrame(c, f) == HandleSettings(c, f) && ProcessFrame(Bare(c), f) == HandleSettings(Bare(c), f);
    } else {
      DataBare(c, f);
      HeadersBare(c, f);
      UpdateBare(c, f);
      GoawayBare(c, PROTOCOL_ERROR, "Unexpected CONTINUATION");
    }
  }

  lemma BareKeeps(c: Session)
    ensures Bare(c).contSid == c.contSid && Bare(c).alive == c.alive && Bare(c).peerInitial == c.peerInitial
            && Bare(Bare(c)) == Bare(c)
  {
  }

  lemma TellBare(c: Session)
    ensures Bare(Enqueue(Bare(c).(enablePush := true), [SettingsAck()]))
            == Bare(Enqueue(c.(enablePush := true), [SettingsAck()]))
  {
  }

  // ---------------------------------------------------------------- nor does a later submission

  /** The next stream is still to be made. */
  ghost predicate Unasked(c: Session) {
    c.mode.Client? && c.nextSid !in c.streams
  }

  ghost predicate SameStreams(c: Session, c': Session) {
    && c'.streams.Keys == c.streams.Keys && c'.nextSid == c.nextSid && c'.mode == c.mode
    && c'.encoder == c.encoder && c'.peerMaxFrame == c.peerMaxFrame && c'.peerInitial == c.peerInitial
  }

  lemma StreamAsk(c: Session, sid: nat, st: Stream)
    requires Unasked(c) && sid in c.streams
    ensures WithStream(Asking(c), sid, st) == Asking(WithStream(c, sid, st)) && SameStreams(c, WithStream(c, sid, st))
    ensures Asking(c).streams[sid] == c.streams[sid]
  {
    hide FreshStream;
    assert WithStream(Asking(c), sid, st).streams == Asking(WithStream(c, sid, st)).streams;
  }

  lemma CompleteAsk(c: Session, sid: nat)
    requires Unasked(c) && sid in c.streams
    ensures CompletePromise(Asking(c), sid) == Asking(CompletePromise(c, sid))
            && SameStreams(c, CompletePromise(c, sid))
  {
    hide WithStream, Asking;
    var st := c.streams[sid];
    var resp := st.resp.(body := st.body);
    assert Asking(c).completed == c.completed && sid in Asking(c).streams by { AskKeeps(c); }
    if st.promise {
      var st' := st.(resp := resp.(hdrs := [], body := [], trailers := []), body := []);
      StreamAsk(c, sid, st');
      AskCompleted(WithStream(c, sid, st'), c.completed + [Answered(sid, resp)]);
    } else {
      StreamAsk(c, sid, st.(resp := resp, body := []));
    }
  }

  lemma AskKeeps(c: Session)
    ensures var a := Asking(c);
            && a.mode == c.mode && a.alive == c.alive && a.completed == c.completed && a.contSid == c.contSid
            && a.connRecv == c.connRecv
            && a.connSend == c.connSend && a.dyn == c.dyn && a.encoder.tables == c.encoder.tables
            && a.lastClient == c.lastClient
            && a.peerInitial == c.peerInitial && a.output == c.output
            && a.streams.Keys == c.streams.Keys + {c.nextSid}
            && (forall k :: k in c.streams && k != c.nextSid ==> a.streams[k] == c.streams[k])
  {
    hide FreshStream;
  }

  lemma AskCompleted(c: Session, done: seq<Completion>)
    ensures Asking(c.(completed := done)) == Asking(c).(completed := done)
  {
    hide FreshStream;
  }

  lemma AskDyn(c: Session, dyn: DynTable, fate: Fate)
    ensures Asking(c.(dyn := dyn)) == Asking(c).(dyn := dyn) && Asking(Leave(c, fate)) == Leave(Asking(c), fate)
  {
    hide FreshStream;
  }

  lemma AskOutput(c: Session, fs: seq<Frame>)
    ensures Asking(Enqueue(c, fs)) == Enqueue(Asking(c), fs)
  {
    hide FreshStream;
  }

  lemma AskWindow(c: Session, send: int, recv: int)
    ensures Asking(c.(connSend := send)) == Asking(c).(connSend := send)
            && Asking(c.(connRecv := recv)) == Asking(c).(connRecv := recv)
  {
    hide FreshStream;
  }

  lemma AskFlags(c: Session, cont: nat)
    ensures Asking(c.(contSid := cont)) == Asking(c).(contSid := cont)
            && Asking(c.(enablePush := true)) == Asking(c).(enablePush := true)
    ensures Asking(c.(alive := false)) == Asking(c).(alive := false)
  {
    hide FreshStream;
  }

  lemma GoawayAsk(c: Session, code: nat, debug: string)
    requires Unasked(c)
    ensures Goaway(Asking(c), code, debug) == Asking(Goaway(c, code, debug)) && SameStreams(c, Goaway(c, code, debug))
  {
    hide Ascii, Asking;
    var fs := [GoawayFrame(c.lastClient, code, Ascii(debug))];
    AskKeeps(c);
    AskOutput(c, fs);
    AskFlags(Enqueue(c, fs), 0);
  }

  lemma EndAsk(c: Session, sid: nat)
    requires Unasked(c) && sid in c.streams
    ensures EndOfStream(Asking(c), sid) == Asking(EndOfStream(c, sid)) && SameStreams(c, EndOfStream(c, sid))
  {
    hide CompletePromise, Asking, WithStream;
    var st := c.streams[sid].(endStream := true);
    AskKeeps(c);
    StreamAsk(c, sid, st);
    CompleteAsk(WithStream(c, sid, st), sid);
  }

  lemma ResponseAsk(c: Session, sid: nat, fs: seq<Field>, end: bool)
    requires Unasked(c) && sid in c.streams
    ensures ApplyResponse(Asking(c), sid, fs, end) == Asking(ApplyResponse(c, sid, fs, end))
            && SameStreams(c, ApplyResponse(c, sid, fs, end))
  {
    hide EndOfStream, ReceiveResponse, Asking, WithStream;
    var st := c.streams[sid].(headersComplete := true,
        resp := ReceiveResponse(c.streams[sid].resp, fs).(version := Http2));
    AskKeeps(c);
    StreamAsk(c, sid, st);
    EndAsk(WithStream(c, sid, st), sid);
  }

  lemma BlockAsk(c: Session, sid: nat, block: seq<byte>, end: bool)
    requires Unasked(c) && sid in c.streams
    ensures ApplyBlock(Asking(c), sid, block, end) == Asking(ApplyBlock(c, sid, block, end))
            && SameStreams(c, ApplyBlock(c, sid, block, end))
  {
    hide DecodeBlock, ApplyResponse, Asking;
    var d := DecodeBlock(c.encoder.tables, c.dyn, block);
    AskKeeps(c);
    AskDyn(c, d.dyn, d.fate);
    AskDyn(c.(dyn := d.dyn), d.dyn, d.fate);
    ResponseAsk(c.(dyn := d.dyn), sid, d.headers, end);
  }

  lemma StartAsk(c: Session, f: Frame, fragment: seq<byte>)
    requires Unasked(c) && f.sid in c.streams
    ensures StartBlock(Asking(c), f, fragment) == Asking(StartBlock(c, f, fragment))
            && SameStreams(c, StartBlock(c, f, fragment))
  {
    hide HasFlag, ApplyBlock, Asking, WithStream;
    AskKeeps(c);
    if HasFlag(f, END_HEADERS) {
      BlockAsk(c, f.sid, fragment, HasFlag(f, END_STREAM));
    } else {
      var st := c.streams[f.sid];
      var st' := st.(pendingBlock := fragment, endStream := st.endStream || HasFlag(f, END_STREAM));
      StreamAsk(c, f.sid, st');
      AskFlags(WithStream(c, f.sid, st'), f.sid);
    }
  }

  lemma HeadersAsk(c: Session, f: Frame)
    requires Unasked(c) && f.sid != c.nextSid
    ensures HandleHeaders(Asking(c), f) == Asking(HandleHeaders(c, f)) && SameStreams(c, HandleHeaders(c, f))
  {
    hide Goaway, Fragment, StartBlock, FreshStream, Asking;
    AskKeeps(c);
    GoawayAsk(c, PROTOCOL_ERROR, "HEADERS on stream 0");
    match Fragment(f)
    case Fault(code) => GoawayAsk(c, code, "");
    case Content(fragment) =>
      if f.sid in c.streams {
        StartAsk(c, f, fragment);
      }
  }

  lemma ContinuationAsk(c: Session, f: Frame)
    requires Unasked(c) && f.sid != c.nextSid
    ensures HandleContinuation(Asking(c), f) == Asking(HandleContinuation(c, f))
            && SameStreams(c, HandleContinuation(c, f))
  {
    hide Goaway, HasFlag, ApplyBlock, Asking, WithStream;
    AskKeeps(c);
    GoawayAsk(c, PROTOCOL_ERROR, "CONTINUATION for unknown stream");
    if f.sid in c.streams {
      var st := c.streams[f.sid];
      StreamAsk(c, f.sid, st.(pendingBlock := []));
      StreamAsk(c, f.sid, st.(pendingBlock := st.pendingBlock + f.payload));
      var closed := WithStream(c, f.sid, st.(pendingBlock := []));
      AskFlags(closed, 0);
      BlockAsk(closed.(contSid := 0), f.sid, st.pendingBlock + f.payload, st.endStream);
    }
  }

  lemma CountAsk(c: Session, sid: nat, n: nat)
    requires Unasked(c) && sid in c.streams
    ensures CountData(Asking(c), sid, n) == Asking(CountData(c, sid, n)) && SameStreams(c, CountData(c, sid, n))
  {
    hide RefillFrames, Refill, Asking, WithStream;
    AskKeeps(c);
    var st := c.streams[sid];
    var connUp, up := Refill(c.connRecv - n), Refill(st.recvWindow - n);
    var c1 := WithStream(c, sid, st.(recvWindow := st.recvWindow - n + up));
    StreamAsk(c, sid, st.(recvWindow := st.recvWindow - n + up));
    AskOutput(c1, RefillFrames(0, connUp) + RefillFrames(sid, up));
    AskWindow(Enqueue(c1, RefillFrames(0, connUp) + RefillFrames(sid, up)), 0, c.connRecv - n + connUp);
  }

  lemma TakenAsk(c: Session, sid: nat, data: seq<byte>, end: bool)
    requires Unasked(c) && sid in c.streams
    ensures TakeData(Asking(c), sid, data, end) == Asking(TakeData(c, sid, data, end))
            && SameStreams(c, TakeData(c, sid, data, end))
  {
    hide EndOfStream, CountData, Asking, WithStream;
    AskKeeps(c);
    var st := c.streams[sid].(body := c.streams[sid].body + data);
    StreamAsk(c, sid, st);
    CountAsk(WithStream(c, sid, st), sid, |data|);
    EndAsk(CountData(WithStream(c, sid, st), sid, |data|), sid);
  }

  lemma DataAsk(c: Session, f: Frame)
    requires Unasked(c) && f.sid != c.nextSid
    ensures HandleData(Asking(c), f) == Asking(HandleData(c, f)) && SameStreams(c, HandleData(c, f))
  {
    hide Goaway, Unpadded, HasFlag, TakeData, CountData, EndOfStream, Be32, Asking;
    AskKeeps(c);
    GoawayAsk(c, PROTOCOL_ERROR, "DATA on stream 0");
    if f.sid !in c.streams {
      AskOutput(c, [RstStreamFrame(f.sid, STREAM_CLOSED)]);
    }
    if Unpadded(f).Fault? {
      GoawayAsk(c, Unpadded(f).code, "");
    } else if f.sid != 0 && f.sid in c.streams {
      DataIsTaken(c, f);
      DataIsTaken(Asking(c), f);
      TakenAsk(c, f.sid, Unpadded(f).data, HasFlag(f, END_STREAM));
    }
  }

  lemma CreditedAsk(c: Session, sid: nat, increment: nat)
    requires Unasked(c) && sid in c.streams
    ensures Credited(Asking(c), sid, increment) == Asking(Credited(c, sid, increment))
            && SameStreams(c, Credited(c, sid, increment))
  {
    hide Be32, Asking, WithStream;
    AskKeeps(c);
    var st := c.streams[sid];
    var st' := st.(sendWindow := st.sendWindow + increment);
    StreamAsk(c, sid, st');
    AskOutput(WithStream(c, sid, st'), [RstStreamFrame(sid, FLOW_CONTROL_ERROR)]);
  }

  lemma UpdateAsk(c: Session, f: Frame)
    requires Unasked(c) && f.sid != c.nextSid
    ensures HandleWindowUpdate(Asking(c), f) == Asking(HandleWindowUpdate(c, f))
            && SameStreams(c, HandleWindowUpdate(c, f))
  {
    hide Goaway, ParseWindowUpdate, Be32, Asking, Credited;
    AskKeeps(c);
    GoawayAsk(c, FRAME_SIZE_ERROR, "");
    GoawayAsk(c, PROTOCOL_ERROR, "WINDOW_UPDATE 0 increment");
    var n := ParseWindowUpdate(f.payload);
    AskWindow(c, c.connSend + n, 0);
    GoawayAsk(c.(connSend := c.connSend + n), FLOW_CONTROL_ERROR, "");
    AskOutput(c, [RstStreamFrame(f.sid, PROTOCOL_ERROR)]);
    if |f.payload| == 4 && n > 0 && f.sid != 0 && f.sid in c.streams {
      CreditedAsk(c, f.sid, n);
      UpdateIsCredit(c, f);
      UpdateIsCredit(Asking(c), f);
    }
  }

  lemma TellAsk(c: Session)
    requires Unasked(c)
    ensures var c' := Enqueue(c.(enablePush := true), [SettingsAck()]);
            Enqueue(Asking(c).(enablePush := true), [SettingsAck()]) == Asking(c') && SameStreams(c, c')
  {
    hide Asking;
    AskFlags(c, 0);
    AskOutput(c.(enablePush := true), [SettingsAck()]);
  }

  /** A frame of an earlier stream does the same before and after a submission. */
  lemma FrameAsk(c: Session, f: Frame)
    requires Unasked(c) && c.alive && c.peerInitial == 65535 && Uttered(f) && f.sid != c.nextSid
    ensures ProcessFrame(Asking(c), f) == Asking(ProcessFrame(c, f)) && SameStreams(c, ProcessFrame(c, f))
  {
    hide HandleData, HandleHeaders, HandleContinuation, HandleWindowUpdate, HandleSettings, Goaway, InitialSettings,
      Asking, SettingsPayload;
    AskKeeps(c);
    if c.contSid != 0 {
      GoawayAsk(c, PROTOCOL_ERROR, "Expected CONTINUATION");
      ContinuationAsk(c, f);
    } else if f.kind == SETTINGS {
      SettingsTell(c);
      SettingsTell(Asking(c));
      TellAsk(c);
      assert ProcessFrame(c, f) == HandleSettings(c, f) && ProcessFrame(Asking(c), f) == HandleSettings(Asking(c), f);
    } else {
      DataAsk(c, f);
      HeadersAsk(c, f);
      UpdateAsk(c, f);
      GoawayAsk(c, PROTOCOL_ERROR, "Unexpected CONTINUATION");
    }
  }

  // ---------------------------------------------------------------- whole runs

  ghost predicate Listens(c: Session, fs: seq<Frame>) {
    Unasked(c) && c.peerInitial == 65535 && forall f :: f in fs ==> Uttered(f) && f.sid != c.nextSid
  }

  lemma {:induction false} RunAsk(c: Session, fs: seq<Frame>)
    requires Listens(c, fs)
    ensures Run(Asking(c), fs) == Asking(Run(c, fs)) && SameStreams(c, Run(c, fs))
    decreases |fs|
  {
    hide ProcessFrame, Asking, Uttered;
    AskKeeps(c);
    if |fs| > 0 && c.alive {
      assert fs[0] in fs;
      FrameAsk(c, fs[0]);
      RunAsk(ProcessFrame(c, fs[0]), fs[1..]);
    }
  }

  lemma BareSame(c: Session, d: Session)
    requires Bare(c) == Bare(d)
    ensures d == c.(output := d.output)
  {
  }

  /** One more frame after the same bare state. */
  lemma FrameSame(c: Session, d: Session, f: Frame)
    requires Bare(c) == Bare(d) && c.mode.Client? && c.alive && c.peerInitial == 65535 && Uttered(f)
    ensures Bare(ProcessFrame(c, f)) == Bare(ProcessFrame(d, f))
  {
    hide ProcessFrame, Bare, Uttered;
    BareSame(c, d);
    FrameBare(c, f);
    FrameBare(d, f);
  }
}
