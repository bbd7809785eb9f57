/**
  Flow-control accounting (section 6.9 of RFC 7540): an observer of the wire keeps books of
  what was received, announced and credited, and every window of a session equals what the
  books say, over every run of received frames and submissions.
 */
module H2Books {
  import opened Bytes
  import opened DynamicTable
  import opened H2Frame
  import opened HttpTypes
  import opened Hpack
  import opened H2Session

  /** Everything that can happen to a session. */
  datatype Event =
    | Arrive(f: Frame)
    | Ask(req: Request, keepOpen: bool)
    | Answer(sid: nat, resp: Response)
    | AnswerHead(sid: nat, resp: Response)
    | More(sid: nat, data: seq<byte>, end: bool)
    | Trail(sid: nat, trailers: seq<Field>)

  function Step(s: Session, e: Event): Session {
    match e
    case Arrive(f) => if s.alive then ProcessFrame(s, f) else s
    case Ask(req, keepOpen) => SubmitRequest(s, req, keepOpen)
    case Answer(sid, resp) => SubmitResponse(s, sid, resp)
    case AnswerHead(sid, resp) => SubmitResponseHeaders(s, sid, resp)
    case More(sid, data, end) => SubmitData(s, sid, data, end)
    case Trail(sid, trailers) => SubmitTrailers(s, sid, trailers)
  }

  /** Frames come from the reader, so their lengths and ids fit the wire format. */
  ghost predicate Wire(e: Event) {
    e.Arrive? ==> Fits(e.f)
  }

  // ---------------------------------------------------------------- the observer

  /** The bytes of an accepted DATA frame on a stream, 0 for any other frame. */
  function DataOn(s: Session, e: Event, sid: nat): nat {
    if e.Arrive? && s.alive && s.contSid == 0 && e.f.kind == DATA && e.f.sid != 0 && e.f.sid in s.streams
       && e.f.sid == sid && Unpadded(e.f).Content?
    then |Unpadded(e.f).data| else 0
  }

  /** The same for the connection: every accepted DATA frame counts. */
  function DataOnAny(s: Session, e: Event): nat {
    if e.Arrive? then DataOn(s, e, e.f.sid) else 0
  }

  /** What WINDOW_UPDATE frames in a list of frames announce for an id. */
  function Announced(fs: seq<Frame>, sid: nat): nat {
    if |fs| == 0 then 0
    else
      var first := if fs[0].kind == WINDOW_UPDATE && fs[0].sid == sid then ParseWindowUpdate(fs[0].payload) else 0;
      first + Announced(fs[1..], sid)
  }

  /** The credit a received WINDOW_UPDATE gives an id. */
  function CreditOn(s: Session, e: Event, sid: nat): nat {
    if e.Arrive? && s.alive && s.contSid == 0 && e.f.kind == WINDOW_UPDATE && e.f.sid == sid && |e.f.payload| == 4
    then ParseWindowUpdate(e.f.payload) else 0
  }

  /** The books of one stream since its creation, with the peer's initial window size at that time. */
  datatype Account = Account(received: nat, announced: nat, credit: nat, birth: nat)

  datatype Books = Books(received: nat, announced: nat, credit: nat, accounts: map<nat, Account>)

  /** The frames enqueued by a step, which only ever appends. */
  function NewFrames(s: Session, s': Session): seq<Frame> {
    if s.output <= s'.output then s'.output[|s.output|..] else []
  }

  function AccountOf(b: Books, s: Session, sid: nat): Account {
    if sid in b.accounts then b.accounts[sid] else Account(0, 0, 0, s.peerInitial)
  }

  function Post(a: Account, data: nat, announced: nat, credit: nat): Account {
    a.(received := a.received + data, announced := a.announced + announced, credit := a.credit + credit)
  }

  /** The observer sees the event, the frames it caused and which streams now exist. */
  function Record(b: Books, s: Session, e: Event, s': Session): Books {
    var fs := NewFrames(s, s');
    Books(b.received + DataOnAny(s, e), b.announced + Announced(fs, 0), b.credit + CreditOn(s, e, 0),
          map k | k in s'.streams :: Post(AccountOf(b, s, k), DataOn(s, e, k), Announced(fs, k), CreditOn(s, e, k)))
  }

  // ---------------------------------------------------------------- the invariant

  ghost predicate StreamBalanced(a: Account, st: Stream, peerInitial: nat) {
    && st.recvWindow == DEFAULT_WINDOW - a.received + a.announced
    && DEFAULT_WINDOW / 2 <= st.recvWindow <= DEFAULT_WINDOW
    && st.sendWindow == DEFAULT_WINDOW + (peerInitial - a.birth) + a.credit
  }

  ghost predicate Balanced(b: Books, s: Session) {
    && s.connRecv == DEFAULT_WINDOW - b.received + b.announced
    && DEFAULT_WINDOW / 2 <= s.connRecv <= DEFAULT_WINDOW
    && s.connSend == DEFAULT_WINDOW + b.credit
    && (s.alive ==> s.connSend <= MAX_WINDOW_SIZE)
    && b.accounts.Keys == s.streams.Keys
    && forall k :: k in s.streams && k != 0 ==> StreamBalanced(b.accounts[k], s.streams[k], s.peerInitial)
  }

  // ---------------------------------------------------------------- steps that leave the windows alone

  ghost predicate NoUpdates(fs: seq<Frame>) {
    forall f :: f in fs ==> f.kind != WINDOW_UPDATE
  }

  ghost predicate SameWindows(a: Stream, b: Stream) {
    a.recvWindow == b.recvWindow && a.sendWindow == b.sendWindow
  }

  ghost predicate Neutral(s: Session, s': Session) {
    && s.output <= s'.output && NoUpdates(NewFrames(s, s'))
    && s'.connRecv == s.connRecv && s'.connSend == s.connSend && s'.peerInitial == s.peerInitial
    && (s'.alive ==> s.alive)
    && s.streams.Keys <= s'.streams.Keys
    && forall k :: k in s'.streams ==> SameWindows(s'.streams[k], StreamOf(s, k))
  }

  lemma NeutralTrans(a: Session, b: Session, c: Session)
    requires Neutral(a, b) && Neutral(b, c)
    ensures Neutral(a, c)
  {
    assert NewFrames(a, c) == NewFrames(a, b) + NewFrames(b, c);
  }

  lemma NeutralEnqueue(s: Session, fs: seq<Frame>)
    requires NoUpdates(fs)
    ensures Neutral(s, Enqueue(s, fs))
  {
    hide FreshStream;
    assert NewFrames(s, Enqueue(s, fs)) == fs;
  }

  /** Changing one stream but not its windows, and nothing else that the books see. */
  lemma NeutralStream(s: Session, sid: nat, st: Stream)
    requires SameWindows(st, StreamOf(s, sid))
    ensures Neutral(s, WithStream(s, sid, st))
  {
    hide FreshStream;
    assert NewFrames(s, WithStream(s, sid, st)) == [];
  }

  lemma NeutralHere(s: Session, s': Session)
    requires s'.output == s.output && s'.connRecv == s.connRecv && s'.connSend == s.connSend
             && s'.peerInitial == s.peerInitial
    requires s'.streams == s.streams && (s'.alive ==> s.alive)
    ensures Neutral(s, s')
  {
    hide FreshStream;
    assert NewFrames(s, s') == [];
  }

  lemma NeutralGoaway(s: Session, code: nat, debug: string)
    ensures Neutral(s, Goaway(s, code, debug))
  {
    hide FreshStream, Ascii;
    var fs := [GoawayFrame(s.lastClient, code, Ascii(debug))];
    NeutralEnqueue(s, fs);
    NeutralHere(Enqueue(s, fs), Goaway(s, code, debug));
    NeutralTrans(s, Enqueue(s, fs), Goaway(s, code, debug));
  }

  lemma {:induction false} ContinuationsQuiet(sid: nat, rest: seq<byte>, max: FrameLimit)
    ensures NoUpdates(ContinuationFrames(sid, rest, max))
    decreases |rest|
  {
    if |rest| > max {
      ContinuationsQuiet(sid, rest[max..], max);
    }
  }

  lemma HeadersQuiet(sid: nat, end: bool, block: seq<byte>, max: FrameLimit)
    ensures NoUpdates(HeaderFrames(sid, end, block, max))
  {
    if |block| > max {
      ContinuationsQuiet(sid, block[max..], max);
    }
  }

  lemma {:induction false} DataQuiet(sid: nat, end: bool, body: seq<byte>, max: FrameLimit)
    ensures NoUpdates(DataFrames(sid, end, body, max))
    decreases |body|
  {
    if |body| > max {
      DataQuiet(sid, end, body[max..], max);
    }
  }

  lemma SendNeutral(s: Session, sid: nat, end: bool, fs: seq<Field>)
    ensures Neutral(s, SendFields(s, sid, end, fs))
  {
    hide HeaderFrames, EncodeBlock, Neutral;
    var frames := HeaderFrames(sid, end, EncodeBlock(s.encoder, fs), s.peerMaxFrame);
    HeadersQuiet(sid, end, EncodeBlock(s.encoder, fs), s.peerMaxFrame);
    NeutralEnqueue(s, frames);
    NeutralHere(Enqueue(s, frames), SendFields(s, sid, end, fs));
    NeutralTrans(s, Enqueue(s, frames), SendFields(s, sid, end, fs));
  }

  lemma CloseNeutral(s: Session, sid: nat)
    ensures Neutral(s, CloseStream(s, sid))
  {
    hide Neutral;
    if sid in s.streams {
      NeutralStream(s, sid, s.streams[sid].(phase := Closed));
    } else {
      NeutralHere(s, s);
    }
  }

  lemma ResponseNeutral(s: Session, sid: nat, resp: Response)
    ensures Neutral(s, SubmitResponse(s, sid, resp))
  {
    hide SendFields, DataFrames, ResponseFields, TrailerFields, Neutral, CloseStream;
    var hasTrailers := resp.trailers != [];
    var s1 := SendFields(s, sid, resp.body == [] && !hasTrailers, ResponseFields(resp, true));
    SendNeutral(s, sid, resp.body == [] && !hasTrailers, ResponseFields(resp, true));
    var fs := DataFrames(sid, !hasTrailers, resp.body, s.peerMaxFrame);
    var s2 := Enqueue(s1, fs);
    DataQuiet(sid, !hasTrailers, resp.body, s.peerMaxFrame);
    NeutralEnqueue(s1, fs);
    NeutralTrans(s, s1, s2);
    var s3 := if hasTrailers then SendFields(s2, sid, true, TrailerFields(resp.trailers)) else s2;
    SendNeutral(s2, sid, true, TrailerFields(resp.trailers));
    if hasTrailers {
      NeutralTrans(s, s2, s3);
    }
    CloseNeutral(s3, sid);
    NeutralTrans(s, s3, CloseStream(s3, sid));
  }

  lemma RequestNeutral(s: Session, req: Request, keepOpen: bool)
    ensures Neutral(s, SubmitRequest(s, req, keepOpen))
  {
    hide SendFields, DataFrames, RequestFields, Neutral, FreshStream;
    var sid := s.nextSid;
    var st := StreamOf(s, sid).(phase := Open, promise := true);
    var s1 := WithStream(s, sid, st);
    NeutralStream(s, sid, st);
    var s2 := s1.(nextSid := sid + 2);
    NeutralHere(s1, s2);
    NeutralTrans(s, s1, s2);
    var s3 := SendFields(s2, sid, req.body == [] && !keepOpen, RequestFields(req));
    SendNeutral(s2, sid, req.body == [] && !keepOpen, RequestFields(req));
    NeutralTrans(s, s2, s3);
    var fs := DataFrames(sid, true, req.body, s.peerMaxFrame);
    DataQuiet(sid, true, req.body, s.peerMaxFrame);
    NeutralEnqueue(s3, fs);
    NeutralTrans(s, s3, Enqueue(s3, fs));
  }

  lemma MoreNeutral(s: Session, sid: nat, data: seq<byte>, end: bool)
    ensures Neutral(s, SubmitData(s, sid, data, end))
  {
    hide DataFrames, Neutral, CloseStream;
    var fs := if data == [] then [Frame(DATA, EndFlag(end), sid, [])] else DataFrames(sid, end, data, s.peerMaxFrame);
    DataQuiet(sid, end, data, s.peerMaxFrame);
    var s1 := Enqueue(s, fs);
    NeutralEnqueue(s, fs);
    CloseNeutral(s1, sid);
    NeutralTrans(s, s1, CloseStream(s1, sid));
  }

  lemma TrailNeutral(s: Session, sid: nat, trailers: seq<Field>)
    ensures Neutral(s, SubmitTrailers(s, sid, trailers))
  {
    hide SendFields, TrailerFields, Neutral, CloseStream;
    var s1 := SendFields(s, sid, true, TrailerFields(trailers));
    SendNeutral(s, sid, true, TrailerFields(trailers));
    CloseNeutral(s1, sid);
    NeutralTrans(s, s1, CloseStream(s1, sid));
  }

  lemma EndNeutral(s: Session, sid: nat)
    requires sid in s.streams
    ensures Neutral(s, EndOfStream(s, sid)) && EndOfStream(s, sid).streams.Keys == s.streams.Keys
  {
    hide SubmitResponse, Neutral;
    var st := s.streams[sid].(endStream := true);
    var s1 := WithStream(s, sid, st);
    NeutralStream(s, sid, st);
    if s.mode.Server? {
      var req := st.req.(body := st.body);
      var s2 := WithStream(s1, sid, st.(req := req, body := []));
      NeutralStream(s1, sid, st.(req := req, body := []));
      NeutralTrans(s, s1, s2);
      var s3 := s2.(dispatched := s1.dispatched + [Dispatch(sid, req)]);
      NeutralHere(s2, s3);
      NeutralTrans(s, s2, s3);
      ResponseNeutral(s3, sid, s.handler(req));
      NeutralTrans(s, s3, SubmitResponse(s3, sid, s.handler(req)));
      ResponseKeepsKeys(s3, sid, s.handler(req));
    } else {
      CompleteNeutral(s1, sid);
      NeutralTrans(s, s1, CompletePromise(s1, sid));
    }
  }

  lemma ResponseKeepsKeys(s: Session, sid: nat, resp: Response)
    ensures SubmitResponse(s, sid, resp).streams.Keys == s.streams.Keys
  {
    hide HeaderFrames, EncodeBlock, DataFrames, ResponseFields, TrailerFields;
  }

  lemma CompleteNeutral(s: Session, sid: nat)
    requires sid in s.streams
    ensures Neutral(s, CompletePromise(s, sid)) && CompletePromise(s, sid).streams.Keys == s.streams.Keys
  {
    hide Neutral;
    var st := CompletePromise(s, sid).streams[sid];
    var s1 := WithStream(s, sid, st);
    NeutralStream(s, sid, st);
    NeutralHere(s1, CompletePromise(s, sid));
    NeutralTrans(s, s1, CompletePromise(s, sid));
  }

  lemma BlockNeutral(s: Session, sid: nat, block: seq<byte>, end: bool)
    requires sid in s.streams
    ensures Neutral(s, ApplyBlock(s, sid, block, end))
  {
    hide EndOfStream, DecodeBlock, ReceiveFields, ReceiveResponse, Neutral;
    var st := s.streams[sid];
    var d := DecodeBlock(s.encoder.tables, s.dyn, block);
    var s1 := s.(dyn := d.dyn);
    NeutralHere(s, s1);
    NeutralHere(s, Leave(s1, d.fate));
    var st' := if s.mode.Server?
        then st.(headersComplete := true, req := ReceiveFields(st.req, d.headers).(version := Http2))
               else st.(headersComplete := true, resp := ReceiveResponse(st.resp, d.headers).(version := Http2));
    var s2 := WithStream(s1, sid, st');
    NeutralStream(s1, sid, st');
    NeutralTrans(s, s1, s2);
    if end {
      EndNeutral(s2, sid);
      NeutralTrans(s, s2, EndOfStream(s2, sid));
    }
  }

  lemma StartNeutral(s: Session, f: Frame, fragment: seq<byte>)
    requires f.sid in s.streams
    ensures Neutral(s, StartBlock(s, f, fragment))
  {
    hide ApplyBlock, HasFlag, Neutral;
    var end := HasFlag(f, END_STREAM);
    if HasFlag(f, END_HEADERS) {
      BlockNeutral(s, f.sid, fragment, end);
    } else {
      var st := s.streams[f.sid].(pendingBlock := fragment, endStream := s.streams[f.sid].endStream || end);
      var s1 := WithStream(s, f.sid, st);
      NeutralStream(s, f.sid, st);
      NeutralHere(s1, s1.(contSid := f.sid));
      NeutralTrans(s, s1, s1.(contSid := f.sid));
    }
  }

  lemma HeadersNeutral(s: Session, f: Frame)
    ensures Neutral(s, HandleHeaders(s, f))
  {
    hide StartBlock, Fragment, Neutral, FreshStream, Goaway;
    NeutralGoaway(s, PROTOCOL_ERROR, "HEADERS on stream 0");
    NeutralHere(s, s);
    match Fragment(f)
    case Fault(code) => NeutralGoaway(s, code, "");
    case Content(fragment) =>
      if f.sid != 0 && s.mode.Server? {
        var st := StreamOf(s, f.sid).(phase := Open);
        var s1 := WithStream(s, f.sid, st);
        NeutralStream(s, f.sid, st);
        var s2 := s1.(lastClient := if s.lastClient < f.sid then f.sid else s.lastClient);
        NeutralHere(s1, s2);
        NeutralTrans(s, s1, s2);
        StartNeutral(s2, f, fragment);
        NeutralTrans(s, s2, StartBlock(s2, f, fragment));
      } else if f.sid in s.streams {
        StartNeutral(s, f, fragment);
      }
  }

  lemma ContinuationNeutral(s: Session, f: Frame)
    ensures Neutral(s, HandleContinuation(s, f))
  {
    hide ApplyBlock, HasFlag, Neutral, Goaway;
    NeutralGoaway(s, PROTOCOL_ERROR, "CONTINUATION for unknown stream");
    if f.sid in s.streams {
      var st := s.streams[f.sid];
      var block := st.pendingBlock + f.payload;
      if HasFlag(f, END_HEADERS) {
        var s1 := WithStream(s, f.sid, st.(pendingBlock := []));
        NeutralStream(s, f.sid, st.(pendingBlock := []));
        var s2 := s1.(contSid := 0);
        NeutralHere(s1, s2);
        NeutralTrans(s, s1, s2);
        BlockNeutral(s2, f.sid, block, st.endStream);
        NeutralTrans(s, s2, ApplyBlock(s2, f.sid, block, st.endStream));
      } else {
        NeutralStream(s, f.sid, st.(pendingBlock := block));
      }
    }
  }

  lemma PingNeutral(s: Session, f: Frame)
    ensures Neutral(s, HandlePing(s, f))
  {
    hide Neutral, Goaway, HasFlag;
    NeutralGoaway(s, PROTOCOL_ERROR, "PING on non-zero stream");
    NeutralGoaway(s, FRAME_SIZE_ERROR, "");
    NeutralHere(s, s);
    NeutralEnqueue(s, [PingAck(f.payload)]);
  }

  lemma PushNeutral(s: Session, f: Frame)
    ensures Neutral(s, HandlePushPromise(s, f))
  {
    hide Neutral, Goaway, DecodeBlock, FreshStream;
    NeutralGoaway(s, PROTOCOL_ERROR, "PUSH_PROMISE on server");
    var s' := HandlePushPromise(s, f);
    if s.mode.Client? && Escapes(s, if |f.payload| < 4 then [] else f.payload[4..]) {
      NeutralHere(s, s');
    } else if s.mode.Client? {
      var promised := if |f.payload| < 4 then 0 else From32(f.payload) % SID_LIMIT;
      var st := StreamOf(s, promised).(phase := Open, promise := true);
      NeutralStream(s, promised, st);
      NeutralHere(WithStream(s, promised, st), s');
      NeutralTrans(s, WithStream(s, promised, st), s');
    }
  }

  // ---------------------------------------------------------------- the books balance

  lemma {:induction false} AnnouncedNone(fs: seq<Frame>, sid: nat)
    requires NoUpdates(fs)
    ensures Announced(fs, sid) == 0
  {
    if |fs| > 0 {
      assert fs[0] in fs;
      AnnouncedNone(fs[1..], sid);
    }
  }

  lemma {:induction false} AnnouncedConcat(a: seq<Frame>, b: seq<Frame>, sid: nat)
    ensures Announced(a + b, sid) == Announced(a, sid) + Announced(b, sid)
  {
    if |a| == 0 {
      assert a + b == b;
    } else {
      AnnouncedConcat(a[1..], b, sid);
      assert (a + b)[1..] == a[1..] + b;
    }
  }

  /** The event brings neither data nor credit. */
  ghost predicate Quiet(s: Session, e: Event) {
    DataOnAny(s, e) == 0 && forall k :: DataOn(s, e, k) == 0 && CreditOn(s, e, k) == 0
  }

  lemma QuietNeutral(b: Books, s: Session, e: Event, s': Session)
    requires Balanced(b, s) && Neutral(s, s') && Quiet(s, e)
    ensures Balanced(Record(b, s, e, s'), s')
  {
    hide DataOn, DataOnAny, CreditOn, Announced;
    var fs := NewFrames(s, s');
    forall k: nat ensures Announced(fs, k) == 0 {
      AnnouncedNone(fs, k);
    }
    assert FreshStream().recvWindow == DEFAULT_WINDOW && FreshStream().sendWindow == DEFAULT_WINDOW;
  }

  /** A quiet event that neither creates nor removes streams and announces nothing leaves the books as they are. */
  lemma QuietRecord(b: Books, s: Session, e: Event, s': Session)
    requires b.accounts.Keys == s.streams.Keys == s'.streams.Keys && Quiet(s, e) && NoUpdates(NewFrames(s, s'))
    ensures Record(b, s, e, s') == b
  {
    hide DataOn, DataOnAny, CreditOn, Announced;
    var fs := NewFrames(s, s');
    forall k: nat ensures Announced(fs, k) == 0 {
      AnnouncedNone(fs, k);
    }
  }

  /** A neutral continuation within one event does not disturb the balance reached so far. */
  lemma NeutralAfter(b: Books, s: Session, e: Event, s1: Session, s': Session)
    requires s.output <= s1.output && Neutral(s1, s') && s'.streams.Keys == s1.streams.Keys
    requires Balanced(Record(b, s, e, s1), s1)
    ensures Balanced(Record(b, s, e, s'), s')
  {
    hide DataOn, DataOnAny, CreditOn, Announced;
    var f1, f2 := NewFrames(s, s1), NewFrames(s1, s');
    assert NewFrames(s, s') == f1 + f2;
    forall k: nat ensures Announced(f1 + f2, k) == Announced(f1, k) {
      AnnouncedConcat(f1, f2, k);
      AnnouncedNone(f2, k);
    }
    assert Record(b, s, e, s').accounts == Record(b, s, e, s1).accounts;
  }

  // ---------------------------------------------------------------- DATA

  lemma RefillAnnounced(sid: nat, connUp: nat, up: nat, k: nat)
    requires sid != 0 && connUp < SID_LIMIT && up < SID_LIMIT
    ensures Announced(RefillFrames(0, connUp) + RefillFrames(sid, up), k) == if k == 0 then connUp
            else if k == sid then up else 0
  {
    hide ParseWindowUpdate;
    var a, c := RefillFrames(0, connUp), RefillFrames(sid, up);
    AnnouncedConcat(a, c, k);
    OneAnnounced(0, connUp, k);
    OneAnnounced(sid, up, k);
  }

  lemma OneAnnounced(sid: nat, up: nat, k: nat)
    requires up < SID_LIMIT
    ensures Announced(RefillFrames(sid, up), k) == if k == sid then up else 0
  {
    hide ParseWindowUpdate;
    WindowUpdateRoundTrip(sid, up);
    if up > 0 {
      var fs := [WindowUpdateFrame(sid, up)];
      assert fs[1..] == [];
      assert Announced(fs[1..], k) == 0;
    }
  }

  /** The state after counting n bytes of data, window by window. */
  ghost predicate Counted(s: Session, sid: nat, n: nat, connUp: nat, up: nat, s1: Session)
    requires sid in s.streams
  {
    && s1.connRecv == s.connRecv - n + connUp && s1.connSend == s.connSend && s1.alive == s.alive
    && s1.peerInitial == s.peerInitial
    && s1.streams.Keys == s.streams.Keys
    && s1.streams[sid].recvWindow == s.streams[sid].recvWindow - n + up
    && s1.streams[sid].sendWindow == s.streams[sid].sendWindow
    && (forall k :: k in s.streams && k != sid ==> s1.streams[k] == s.streams[k])
    && s.output <= s1.output && NewFrames(s, s1) == RefillFrames(0, connUp) + RefillFrames(sid, up)
  }

  lemma CountEffect(s: Session, sid: nat, data: seq<byte>)
    requires sid in s.streams
    ensures var st, n := s.streams[sid], |data|;
            Counted(s, sid, n, Refill(s.connRecv - n), Refill(st.recvWindow - n),
                    CountData(WithStream(s, sid, st.(body := st.body + data)), sid, n))
  {
    hide RefillFrames, Refill, FreshStream;
    var st, n := s.streams[sid], |data|;
    var s1 := CountData(WithStream(s, sid, st.(body := st.body + data)), sid, n);
    assert NewFrames(s, s1) == RefillFrames(0, Refill(s.connRecv - n)) + RefillFrames(sid, Refill(st.recvWindow - n));
  }

  lemma CountRecorded(b: Books, s: Session, f: Frame, n: nat, connUp: nat, up: nat, s1: Session)
    requires Balanced(b, s) && f.sid != 0 && f.sid in s.streams && Counted(s, f.sid, n, connUp, up, s1)
             && n < LENGTH_LIMIT
    requires connUp == Refill(s.connRecv - n) && up == Refill(s.streams[f.sid].recvWindow - n)
    requires f.kind == DATA && forall k :: DataOn(s, Arrive(f), k) == if k == f.sid then n else 0
    ensures Balanced(Record(b, s, Arrive(f), s1), s1)
  {
    hide Announced, RefillFrames, FreshStream, ParseWindowUpdate, Refill, DataOn, NewFrames;
    var sid := f.sid;
    forall k: nat ensures Announced(NewFrames(s, s1), k) == if k == 0 then connUp else if k == sid then up else 0 {
      RefillAnnounced(sid, connUp, up, k);
    }
  }

  lemma CountBalanced(b: Books, s: Session, f: Frame, data: seq<byte>)
    requires Balanced(b, s) && Fits(f) && s.alive && s.contSid == 0
    requires f.kind == DATA && f.sid != 0 && f.sid in s.streams && Unpadded(f) == Content(data)
    ensures var st := s.streams[f.sid];
            var s1 := CountData(WithStream(s, f.sid, st.(body := st.body + data)), f.sid, |data|);
            && s.output <= s1.output && s1.streams.Keys == s.streams.Keys
            && Balanced(Record(b, s, Arrive(f), s1), s1)
  {
    hide Unpadded, Refill, Balanced, Record, CountData;
    var sid, n, st := f.sid, |data|, s.streams[f.sid];
    assert n < LENGTH_LIMIT by { ContentLength(f); }
    CountEffect(s, sid, data);
    CountRecorded(b, s, f, n, Refill(s.connRecv - n), Refill(st.recvWindow - n),
                  CountData(WithStream(s, sid, st.(body := st.body + data)), sid, n));
  }

  lemma ContentLength(f: Frame)
    requires Unpadded(f).Content?
    ensures |Unpadded(f).data| <= |f.payload|
  {
  }

  lemma DataBalanced(b: Books, s: Session, f: Frame)
    requires Balanced(b, s) && Fits(f) && s.alive && s.contSid == 0 && f.kind == DATA
    ensures Balanced(Record(b, s, Arrive(f), HandleData(s, f)), HandleData(s, f))
  {
    hide Record, Balanced, EndOfStream, Unpadded, CountData, Goaway, Neutral, HasFlag;
    var e := Arrive(f);
    if f.sid == 0 {
      NeutralGoaway(s, PROTOCOL_ERROR, "DATA on stream 0");
      QuietNeutral(b, s, e, HandleData(s, f));
    } else if f.sid !in s.streams {
      NeutralEnqueue(s, [RstStreamFrame(f.sid, STREAM_CLOSED)]);
      QuietNeutral(b, s, e, HandleData(s, f));
    } else {
      match Unpadded(f)
      case Fault(code) =>
        NeutralGoaway(s, code, "");
        QuietNeutral(b, s, e, HandleData(s, f));
      case Content(data) =>
        var st := s.streams[f.sid];
        var s1 := CountData(WithStream(s, f.sid, st.(body := st.body + data)), f.sid, |data|);
        CountBalanced(b, s, f, data);
        if HasFlag(f, END_STREAM) {
          EndNeutral(s1, f.sid);
          NeutralAfter(b, s, e, s1, EndOfStream(s1, f.sid));
        }
    }
  }

  // ---------------------------------------------------------------- SETTINGS, WINDOW_UPDATE, RST_STREAM

  /** Leaving the windows alone without creating streams keeps the same books balanced. */
  lemma SameBooks(b: Books, s: Session, s': Session)
    requires Balanced(b, s) && Neutral(s, s') && s'.streams.Keys == s.streams.Keys
    ensures Balanced(b, s') && s.output <= s'.output && NoUpdates(NewFrames(s, s'))
  {
  }

  /** A new initial window size shifts every stream's send window by the same amount. */
  lemma ShiftBalanced(b: Books, s: Session, initial: nat)
    requires Balanced(b, s)
    ensures var s' := s.(streams := ShiftWindows(s.streams, initial - s.peerInitial), peerInitial := initial);
            Balanced(b, s') && NewFrames(s, s') == [] && s'.streams.Keys == s.streams.Keys
  {
    hide FreshStream;
    var s' := s.(streams := ShiftWindows(s.streams, initial - s.peerInitial), peerInitial := initial);
    assert NewFrames(s, s') == [];
  }

  lemma SettingBalanced(b: Books, s: Session, x: Setting)
    requires Balanced(b, s)
    ensures var s' := ApplySetting(s, x);
            Balanced(b, s') && s.output <= s'.output && NoUpdates(NewFrames(s, s')) && s'.streams.Keys == s.streams.Keys
  {
    hide Balanced, Neutral, NewFrames, ShiftWindows, SetMaxTableSize, Ascii;
    var s' := ApplySetting(s, x);
    if x.id == INITIAL_WINDOW_SIZE && x.value <= MAX_WINDOW_SIZE {
      ShiftBalanced(b, s, x.value);
    } else {
      NeutralGoaway(s, FLOW_CONTROL_ERROR, "");
      NeutralGoaway(s, PROTOCOL_ERROR, "Invalid MAX_FRAME_SIZE");
      if s'.output == s.output {
        NeutralHere(s, s');
      }
      SameBooks(b, s, s');
    }
  }

  lemma {:induction false} SettingsBalanced(b: Books, s: Session, xs: seq<Setting>)
    requires Balanced(b, s)
    ensures var s' := ApplySettings(s, xs);
            Balanced(b, s') && s.output <= s'.output && NoUpdates(NewFrames(s, s')) && s'.streams.Keys == s.streams.Keys
    decreases |xs|
  {
    hide ApplySetting, Balanced;
    if |xs| > 0 && s.alive {
      var s1 := ApplySetting(s, xs[0]);
      SettingBalanced(b, s, xs[0]);
      SettingsBalanced(b, s1, xs[1..]);
      assert NewFrames(s, ApplySettings(s1, xs[1..])) == NewFrames(s, s1) + NewFrames(s1, ApplySettings(s1, xs[1..]));
    } else {
      assert NewFrames(s, s) == [];
    }
  }

  lemma SettingsFrameBalanced(b: Books, s: Session, f: Frame)
    requires Balanced(b, s) && s.alive && s.contSid == 0 && f.kind == SETTINGS
    ensures Balanced(Record(b, s, Arrive(f), HandleSettings(s, f)), HandleSettings(s, f))
  {
    hide Record, Balanced, ApplySettings, ParseSettings, Goaway, Neutral, HasFlag;
    var e := Arrive(f);
    NeutralGoaway(s, PROTOCOL_ERROR, "SETTINGS on non-zero stream");
    NeutralGoaway(s, FRAME_SIZE_ERROR, "");
    NeutralHere(s, s);
    var s1 := ApplySettings(s, ParseSettings(f.payload));
    SettingsBalanced(b, s, ParseSettings(f.payload));
    if f.sid != 0 || HasFlag(f, ACK) || |f.payload| % 6 != 0 {
      QuietNeutral(b, s, e, HandleSettings(s, f));
    } else {
      assert b.accounts.Keys == s.streams.Keys by { KeysBalanced(b, s); }
      QuietRecord(b, s, e, s1);
      NeutralEnqueue(s1, [SettingsAck()]);
      NeutralAfter(b, s, e, s1, Enqueue(s1, [SettingsAck()]));
    }
  }

  lemma KeysBalanced(b: Books, s: Session)
    requires Balanced(b, s)
    ensures b.accounts.Keys == s.streams.Keys
  {
  }

  lemma CreditConnection(b: Books, s: Session, f: Frame)
    requires Balanced(b, s) && s.alive && s.contSid == 0 && f.kind == WINDOW_UPDATE && f.sid == 0 && |f.payload| == 4
    ensures var s1 := s.(connSend := s.connSend + ParseWindowUpdate(f.payload),
            alive := s.connSend + ParseWindowUpdate(f.payload) <= MAX_WINDOW_SIZE);
            Balanced(Record(b, s, Arrive(f), s1), s1)
  {
    hide ParseWindowUpdate, FreshStream;
  }

  lemma CreditStream(b: Books, s: Session, f: Frame)
    requires Balanced(b, s) && s.alive && s.contSid == 0 && f.kind == WINDOW_UPDATE && f.sid != 0 && |f.payload| == 4
    ensures f.sid in s.streams ==>
              var st := s.streams[f.sid];
              var s1 := WithStream(s, f.sid, st.(sendWindow := st.sendWindow + ParseWindowUpdate(f.payload)));
              Balanced(Record(b, s, Arrive(f), s1), s1)
    ensures f.sid !in s.streams ==> Balanced(Record(b, s, Arrive(f), s), s)
  {
    hide ParseWindowUpdate, FreshStream;
  }

  lemma UpdateBalanced(b: Books, s: Session, f: Frame)
    requires Balanced(b, s) && s.alive && s.contSid == 0 && f.kind == WINDOW_UPDATE
    ensures Balanced(Record(b, s, Arrive(f), HandleWindowUpdate(s, f)), HandleWindowUpdate(s, f))
  {
    hide Record, Balanced, ParseWindowUpdate, Neutral;
    var e := Arrive(f);
    var s' := HandleWindowUpdate(s, f);
    NeutralGoaway(s, FRAME_SIZE_ERROR, "");
    NeutralGoaway(s, PROTOCOL_ERROR, "WINDOW_UPDATE 0 increment");
    NeutralEnqueue(s, [RstStreamFrame(f.sid, PROTOCOL_ERROR)]);
    if |f.payload| != 4 {
      QuietNeutral(b, s, e, s');
    } else {
      var increment := ParseWindowUpdate(f.payload);
      if increment == 0 {
        QuietNeutral(b, s, e, s');
      } else if f.sid == 0 {
        CreditConnection(b, s, f);
        var s1 := s.(connSend := s.connSend + increment, alive := s.connSend + increment <= MAX_WINDOW_SIZE);
        if !s1.alive {
          NeutralGoaway(s1, FLOW_CONTROL_ERROR, "");
          assert s' == Goaway(s1, FLOW_CONTROL_ERROR, "");
          NeutralAfter(b, s, e, s1, s');
        }
      } else {
        CreditStream(b, s, f);
        if f.sid in s.streams {
          var st := s.streams[f.sid];
          var s1 := WithStream(s, f.sid, st.(sendWindow := st.sendWindow + increment));
          NeutralEnqueue(s1, [RstStreamFrame(f.sid, FLOW_CONTROL_ERROR)]);
          if s' != s1 {
            NeutralAfter(b, s, e, s1, s');
          }
        }
      }
    }
  }

  lemma ResetBalanced(b: Books, s: Session, f: Frame)
    requires Balanced(b, s) && s.alive && s.contSid == 0 && f.kind == RST_STREAM
    ensures Balanced(Record(b, s, Arrive(f), HandleRstStream(s, f)), HandleRstStream(s, f))
  {
    hide Neutral, FreshStream, Goaway;
    var e := Arrive(f);
    if |f.payload| != 4 {
      NeutralGoaway(s, FRAME_SIZE_ERROR, "");
      QuietNeutral(b, s, e, HandleRstStream(s, f));
    } else {
      var s' := HandleRstStream(s, f);
      assert NewFrames(s, s') == [];
      assert forall k: nat :: Announced([], k) == 0;
    }
  }

  // ---------------------------------------------------------------- whole runs

  lemma ArriveBalanced(b: Books, s: Session, f: Frame)
    requires Balanced(b, s) && Fits(f) && s.alive
    ensures Balanced(Record(b, s, Arrive(f), ProcessFrame(s, f)), ProcessFrame(s, f))
  {
    hide Record, Balanced, Neutral, HandleData, HandleHeaders, HandleContinuation, HandleSettings, HandlePing,
      HandleRstStream, HandleWindowUpdate, HandlePushPromise, Goaway;
    var e, s' := Arrive(f), ProcessFrame(s, f);
    NeutralGoaway(s, PROTOCOL_ERROR, "Expected CONTINUATION");
    NeutralGoaway(s, PROTOCOL_ERROR, "Unexpected CONTINUATION");
    ContinuationNeutral(s, f);
    HeadersNeutral(s, f);
    PingNeutral(s, f);
    PushNeutral(s, f);
    NeutralHere(s, s);
    NeutralHere(s, s.(alive := false));
    if s.contSid == 0 && f.kind == DATA {
      DataBalanced(b, s, f);
    } else if s.contSid == 0 && f.kind == SETTINGS {
      SettingsFrameBalanced(b, s, f);
    } else if s.contSid == 0 && f.kind == WINDOW_UPDATE {
      UpdateBalanced(b, s, f);
    } else if s.contSid == 0 && f.kind == RST_STREAM {
      ResetBalanced(b, s, f);
    } else {
      QuietNeutral(b, s, e, s');
    }
  }

  lemma StepBalanced(b: Books, s: Session, e: Event)
    requires Balanced(b, s) && Wire(e)
    ensures Balanced(Record(b, s, e, Step(s, e)), Step(s, e))
  {
    hide Record, Balanced, Neutral, ProcessFrame, SubmitRequest, SubmitResponse, SubmitResponseHeaders, SubmitData,
      SubmitTrailers;
    match e
    case Arrive(f) =>
      if s.alive {
        ArriveBalanced(b, s, f);
      } else {
        NeutralHere(s, s);
        QuietNeutral(b, s, e, s);
      }
    case Ask(req, keepOpen) =>
      RequestNeutral(s, req, keepOpen);
      QuietNeutral(b, s, e, Step(s, e));
    case Answer(sid, resp) =>
      ResponseNeutral(s, sid, resp);
      QuietNeutral(b, s, e, Step(s, e));
    case AnswerHead(sid, resp) =>
      HeadNeutral(s, sid, resp);
      QuietNeutral(b, s, e, Step(s, e));
    case More(sid, data, end) =>
      MoreNeutral(s, sid, data, end);
      QuietNeutral(b, s, e, Step(s, e));
    case Trail(sid, trailers) =>
      TrailNeutral(s, sid, trailers);
      QuietNeutral(b, s, e, Step(s, e));
  }

  lemma HeadNeutral(s: Session, sid: nat, resp: Response)
    ensures Neutral(s, SubmitResponseHeaders(s, sid, resp))
  {
    hide SendFields, Neutral;
    SendNeutral(s, sid, false, ResponseFields(resp, false));
  }

  function Reach(s: Session, es: seq<Event>): Session {
    if |es| == 0 then s else Step(Reach(s, es[..|es| - 1]), es[|es| - 1])
  }

  function BooksOf(s: Session, es: seq<Event>): Books {
    if |es| == 0 then Books(0, 0, 0, map[])
    else
      var front := Reach(s, es[..|es| - 1]);
      Record(BooksOf(s, es[..|es| - 1]), front, es[|es| - 1], Step(front, es[|es| - 1]))
  }

  /** In every reachable session every window is what the books say, and every receive window is at least half full. */
  lemma {:induction false} WindowsBalance(mode: Mode, tb: Tables, handler: Request -> Response, es: seq<Event>)
    requires forall e :: e in es ==> Wire(e)
    ensures var s0 := NewSession(mode, tb, handler); Balanced(BooksOf(s0, es), Reach(s0, es))
  {
    hide Step, Record;
    if |es| > 0 {
      var s0 := NewSession(mode, tb, handler);
      assert es[|es| - 1] in es;
      WindowsBalance(mode, tb, handler, es[..|es| - 1]);
      StepBalanced(BooksOf(s0, es[..|es| - 1]), Reach(s0, es[..|es| - 1]), es[|es| - 1]);
    }
  }

  /**
    A stream's send window is the one section 6.9.2 prescribes exactly when the peer's initial size was 65535 at its
    creation.
   */
  lemma SendWindowMatchesRfc(mode: Mode, tb: Tables, handler: Request -> Response, es: seq<Event>, sid: nat)
    requires forall e :: e in es ==> Wire(e)
    requires sid != 0 && sid in Reach(NewSession(mode, tb, handler), es).streams
    ensures var s0 := NewSession(mode, tb, handler);
            var s, b := Reach(s0, es), BooksOf(s0, es);
            && sid in b.accounts
            && (s.streams[sid].sendWindow == s.peerInitial + b.accounts[sid].credit <==>
              b.accounts[sid].birth == DEFAULT_WINDOW)
  {
    hide Reach, BooksOf;
    WindowsBalance(mode, tb, handler, es);
  }

  /** The peer's initial window arrives, then the client's owner asks. */
  function EarlySettings(size: nat, req: Request): seq<Event> {
    [Arrive(SettingsFrame([Setting(INITIAL_WINDOW_SIZE, size)])), Ask(req, false)]
  }

  lemma OneSetting(s: Session, size: nat)
    requires s.alive && s.contSid == 0 && size <= MAX_WINDOW_SIZE && s.streams == map[]
    ensures var s' := ProcessFrame(s, SettingsFrame([Setting(INITIAL_WINDOW_SIZE, size)]));
            && s'.peerInitial == size && s'.streams == map[] && s'.nextSid == s.nextSid
  {
    hide ParseSettings, Goaway;
    var xs := [Setting(INITIAL_WINDOW_SIZE, size)];
    SettingsRoundTrip(xs);
    assert xs[1..] == [];
    var s1 := ApplySetting(s, xs[0]);
    assert s1.streams == map[];
    assert ApplySettings(s1, xs[1..]) == s1;
    assert |SettingsPayload(xs)| == 6 by { assert SettingsPayload(xs[1..]) == []; }
  }

  lemma AskedFirst(s: Session, req: Request)
    requires s.streams == map[] && s.nextSid == 1
    ensures var s' := SubmitRequest(s, req, false);
            1 in s'.streams && s'.streams[1].sendWindow == DEFAULT_WINDOW && s'.peerInitial == s.peerInitial
  {
    hide HeaderFrames, EncodeBlock, DataFrames, RequestFields, AfterBlock;
  }

  /**
    A client that has been told an initial window and then asks still starts the stream at 65535: with 100000, or any
    size but 65535, its send window is not the one prescribed.
   */
  lemma WrongStart(tb: Tables, handler: Request -> Response, req: Request, size: nat)
    requires size <= MAX_WINDOW_SIZE
    ensures var s0, es := NewSession(Client, tb, handler), EarlySettings(size, req);
            var s, b := Reach(s0, es), BooksOf(s0, es);
            && 1 in s.streams && s.streams[1].sendWindow == DEFAULT_WINDOW && s.peerInitial == size
            && 1 in b.accounts && b.accounts[1].birth == size && b.accounts[1].credit == 0
            && (s.streams[1].sendWindow == s.peerInitial + b.accounts[1].credit <==> size == 65535)
  {
    hide ProcessFrame, SubmitRequest, InitialSettings, SettingsFrame, Announced;
    var s0, es := NewSession(Client, tb, handler), EarlySettings(size, req);
    assert es[..1] == [es[0]] && es[..1][..0] == [];
    var s1 := Reach(s0, es[..1]);
    assert s1 == ProcessFrame(s0, es[0].f) by { assert Reach(s0, es[..1][..0]) == s0; }
    OneSetting(s0, size);
    AskedFirst(s1, req);
    assert 1 !in BooksOf(s0, es[..1]).accounts by { assert s1.streams == map[]; }
    assert Reach(s0, es) == SubmitRequest(s1, req, false);
    assert BooksOf(s0, es) == Record(BooksOf(s0, es[..1]), s1, es[1], Reach(s0, es));
  }
}
