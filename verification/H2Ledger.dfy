/**
  How much credit a conversation can produce: a client announces no more than the response bytes it has received, and a
  server's send windows hold no more than that beyond their initial size.
 */
module H2Ledger {
  import opened Bytes
  import opened H2Frame
  import opened HttpTypes
  import opened Hpack
  import opened H2Session
  import opened H2Books
  import opened H2Replies
  import opened H2EndToEnd
  import opened H2Responses
  import opened H2Answers
  import opened H2Commute

  // ---------------------------------------------------------------- bytes of data

  function DataIn(f: Frame): nat {
    if f.kind == DATA then |f.payload| else 0
  }

  function DataBytes(fs: seq<Frame>): nat {
    if |fs| == 0 then 0 else DataBytes(fs[..|fs| - 1]) + DataIn(fs[|fs| - 1])
  }

  lemma {:induction false} DataBytesConcat(a: seq<Frame>, b: seq<Frame>)
    ensures DataBytes(a + b) == DataBytes(a) + DataBytes(b)
    decreases |b|
  {
    if |b| == 0 {
      assert a + b == a;
    } else {
      DataBytesConcat(a, b[..|b| - 1]);
      assert (a + b)[..|a + b| - 1] == a + b[..|b| - 1];
    }
  }

  lemma DataBytesPrefix(a: seq<Frame>, b: seq<Frame>)
    requires a <= b
    ensures DataBytes(a) <= DataBytes(b)
  {
    hide DataBytes;
    DataBytesConcat(a, b[|a|..]);
    assert a + b[|a|..] == b;
  }

  lemma {:induction false} NoDataBytes(fs: seq<Frame>)
    requires forall f :: f in fs ==> f.kind != DATA
    ensures DataBytes(fs) == 0
  {
    if |fs| > 0 {
      assert fs[|fs| - 1] in fs;
      NoDataBytes(fs[..|fs| - 1]);
    }
  }

  lemma {:induction false} ContinuationsCarryNone(sid: nat, rest: seq<byte>, max: FrameLimit)
    ensures forall f :: f in ContinuationFrames(sid, rest, max) ==> f.kind == CONTINUATION && f.sid == sid
    decreases |rest|
  {
    if |rest| > max {
      ContinuationsCarryNone(sid, rest[max..], max);
    }
  }

  lemma HeadersCarryNone(sid: nat, end: bool, block: seq<byte>, max: FrameLimit)
    ensures forall f :: f in HeaderFrames(sid, end, block, max) ==>
              (f.kind == HEADERS || f.kind == CONTINUATION) && f.sid == sid
  {
    hide ContinuationFrames;
    if |block| > max {
      ContinuationsCarryNone(sid, block[max..], max);
    }
  }

  lemma {:induction false} DataCarryAll(sid: nat, end: bool, body: seq<byte>, max: FrameLimit)
    ensures DataBytes(DataFrames(sid, end, body, max)) == |body|
    ensures forall f :: f in DataFrames(sid, end, body, max) ==> f.kind == DATA && f.sid == sid
    decreases |body|
  {
    if |body| > max {
      var f := Frame(DATA, 0, sid, body[..max]);
      DataCarryAll(sid, end, body[max..], max);
      DataBytesConcat([f], DataFrames(sid, end, body[max..], max));
      assert [f][..0] == [];
      assert DataBytes([f]) == DataBytes([]) + max;
    } else if |body| > 0 {
      var f := Frame(DATA, EndFlag(end), sid, body);
      assert [f][..0] == [];
      assert DataBytes([f]) == DataBytes([]) + |body|;
    }
  }

  /** The frames of an answer are on its stream, and their data is its body. */
  lemma AnswerCarries(e: Encoder, max: FrameLimit, sid: nat, resp: Response)
    ensures DataBytes(AnswerFrames(e, max, sid, resp)) == |resp.body|
    ensures forall f :: f in AnswerFrames(e, max, sid, resp) ==>
              (f.kind == HEADERS || f.kind == CONTINUATION || f.kind == DATA) && f.sid == sid
  {
    hide HeaderFrames, DataFrames, EncodeBlock, ResponseFields, TrailerFields, DataBytes;
    var hasTrailers := resp.trailers != [];
    var hs := HeaderFrames(sid, resp.body == [] && !hasTrailers, EncodeBlock(e, ResponseFields(resp, true)), max);
    var ds := DataFrames(sid, !hasTrailers, resp.body, max);
    var ts := if hasTrailers
        then HeaderFrames(sid, true, EncodeBlock(AfterBlock(e), TrailerFields(resp.trailers)), max) else [];
    HeadersCarryNone(sid, resp.body == [] && !hasTrailers, EncodeBlock(e, ResponseFields(resp, true)), max);
    HeadersCarryNone(sid, true, EncodeBlock(AfterBlock(e), TrailerFields(resp.trailers)), max);
    DataCarryAll(sid, !hasTrailers, resp.body, max);
    NoDataBytes(hs);
    NoDataBytes(ts);
    DataBytesConcat(hs, ds);
    DataBytesConcat(hs + ds, ts);
  }

  /** The bytes of all response bodies. */
  function AnswerBytes(ds: seq<Dispatch>, handler: Request -> Response): nat {
    if |ds| == 0 then 0 else AnswerBytes(ds[..|ds| - 1], handler) + |handler(ds[|ds| - 1].req).body|
  }

  lemma TalkCarries(x: Exchange)
    requires AllCredits(x.credits)
    ensures DataBytes(Talk(x)) == |x.resp.body|
    ensures forall f :: f in Talk(x) ==>
              f.kind == WINDOW_UPDATE
              || ((f.kind == HEADERS || f.kind == CONTINUATION || f.kind == DATA) && f.sid == x.sid)
  {
    hide AnswerFrames, DataBytes;
    AnswerCarries(x.enc, x.max, x.sid, x.resp);
    NoDataBytes(x.credits);
    DataBytesConcat(x.credits, AnswerFrames(x.enc, x.max, x.sid, x.resp));
  }

  lemma {:induction false} TranscriptCarries(tb: Tables, xs: seq<Exchange>, ds: seq<Dispatch>,
        handler: Request -> Response)
    requires |xs| == |ds|
    requires forall i :: 0 <= i < |xs| ==>
               Proper(xs[i], tb) && xs[i].sid == ds[i].sid && xs[i].resp == handler(ds[i].req)
    ensures DataBytes(Transcript(xs)) == AnswerBytes(ds, handler)
  {
    hide Talk, DataBytes, Speaks, Sizable;
    if |xs| > 0 {
      var n := |xs| - 1;
      TranscriptCarries(tb, xs[..n], ds[..n], handler);
      TalkCarries(xs[n]);
      DataBytesConcat(Transcript(xs[..n]), Talk(xs[n]));
    } else {
      NoDataBytes([]);
    }
  }

  // ---------------------------------------------------------------- the server's send windows

  /** Settings that leave the initial window at 65535. */
  ghost predicate Tame(f: Frame) {
    Fits(f) && (f.kind == SETTINGS ==> f == SettingsAck() || f == SettingsFrame(InitialSettings()))
  }

  lemma DataKeepsInitial(s: Session, f: Frame)
    ensures HandleData(s, f).peerInitial == s.peerInitial
  {
    hide EndOfStream, Unpadded, RefillFrames, Refill, Ascii, HasFlag;
    if f.sid in s.streams && Unpadded(f).Content? {
      var st, data := s.streams[f.sid], Unpadded(f).data;
      EndNeutral(CountData(WithStream(s, f.sid, st.(body := st.body + data)), f.sid, |data|), f.sid);
    }
  }

  lemma NeutralInitial(s: Session, s': Session)
    requires Neutral(s, s')
    ensures s'.peerInitial == s.peerInitial
  {
  }

  lemma UpdateKeepsInitial(s: Session, f: Frame)
    ensures HandleWindowUpdate(s, f).peerInitial == s.peerInitial && HandleRstStream(s, f).peerInitial == s.peerInitial
  {
    hide Ascii, ParseWindowUpdate, Be32;
  }

  lemma FrameKeepsInitial(s: Session, f: Frame)
    requires s.alive && s.peerInitial == 65535 && Tame(f)
    ensures ProcessFrame(s, f).peerInitial == 65535
  {
    hide HandleData, HandleHeaders, HandleContinuation, HandleSettings, HandlePing, HandlePushPromise,
      HandleWindowUpdate, HandleRstStream, Ascii, Neutral, InitialSettings;
    DataKeepsInitial(s, f);
    HeadersNeutral(s, f);
    NeutralInitial(s, HandleHeaders(s, f));
    ContinuationNeutral(s, f);
    NeutralInitial(s, HandleContinuation(s, f));
    PingNeutral(s, f);
    NeutralInitial(s, HandlePing(s, f));
    PushNeutral(s, f);
    NeutralInitial(s, HandlePushPromise(s, f));
    UpdateKeepsInitial(s, f);
    SettingsTell(s);
  }

  /** No stream's books hold more credit than the frames announced for it, and each stream began with 65535. */
  ghost predicate Modest(b: Books, fs: seq<Frame>) {
    forall k :: k in b.accounts ==> b.accounts[k].credit <= Announced(fs, k) && b.accounts[k].birth == 65535
  }

  lemma ModestStep(b: Books, s: Session, f: Frame, s': Session, fs: seq<Frame>)
    requires Modest(b, fs) && s.peerInitial == 65535
    ensures Modest(Record(b, s, Arrive(f), s'), fs + [f])
  {
    hide ParseWindowUpdate;
    var b' := Record(b, s, Arrive(f), s');
    forall k | k in b'.accounts ensures b'.accounts[k].credit <= Announced(fs + [f], k)
    && b'.accounts[k].birth == 65535 {
      AnnouncedConcat(fs, [f], k);
      OneFrame(f, k);
    }
  }

  lemma OneFrame(f: Frame, k: nat)
    ensures Announced([f], k) == if f.kind == WINDOW_UPDATE && f.sid == k then ParseWindowUpdate(f.payload) else 0
  {
    assert [f][1..] == [];
    assert Announced([f][1..], k) == 0;
  }

  lemma {:induction false} ServerModest(tb: Tables, handler: Request -> Response, fs: seq<Frame>)
    requires forall f :: f in fs ==> Tame(f)
    ensures var s0 := NewSession(Server, tb, handler);
            Run(s0, fs).peerInitial == 65535 && Modest(BooksOf(s0, Arrivals(fs)), fs)
    decreases |fs|
  {
    hide ProcessFrame, Tame, InitialSettings, Record, Run;
    var s0 := NewSession(Server, tb, handler);
    if |fs| == 0 {
      assert fs == [];
      RunNone(s0);
    } else {
      var front, f := fs[..|fs| - 1], fs[|fs| - 1];
      assert fs == front + [f] && f in fs;
      ServerModest(tb, handler, front);
      RunConcat(s0, front, [f]);
      var s := Run(s0, front);
      RunIsReach(s0, front);
      RunIsReach(s0, fs);
      assert Arrivals(fs)[..|fs| - 1] == Arrivals(front);
      if s.alive {
        RunOne(s, f);
        FrameKeepsInitial(s, f);
      } else {
        RunDead(s, [f]);
      }
      ModestStep(BooksOf(s0, Arrivals(front)), s, f, Run(s0, fs), front);
    }
  }

  /** A server's send window never exceeds 65535 and what the frames received announce for the stream. */
  lemma ServerWindow(tb: Tables, handler: Request -> Response, fs: seq<Frame>, k: nat)
    requires (forall f :: f in fs ==> Tame(f)) && k != 0 && k in Run(NewSession(Server, tb, handler), fs).streams
    ensures Run(NewSession(Server, tb, handler), fs).streams[k].sendWindow <= DEFAULT_WINDOW + Announced(fs, k)
  {
    hide Run, Reach, BooksOf, Tame, NewSession, Announced;
    var s0 := NewSession(Server, tb, handler);
    forall e | e in Arrivals(fs) ensures Wire(e) {
      var i :| 0 <= i < |fs| && Arrivals(fs)[i] == e;
      assert fs[i] in fs;
      assert Fits(fs[i]) by { TameFits(fs[i]); }
    }
    WindowsBalance(Server, tb, handler, Arrivals(fs));
    RunIsReach(s0, fs);
    ServerModest(tb, handler, fs);
  }

  lemma TameFits(f: Frame)
    requires Tame(f)
    ensures Fits(f)
  {
  }

  // ---------------------------------------------------------------- the client's credit

  /** What the books say was announced for an id. */
  function BookedFor(b: Books, k: nat): nat {
    if k == 0 then b.announced else if k in b.accounts then b.accounts[k].announced else 0
  }

  /** The books cover all credit announced, and no more data than was heard. */
  ghost predicate Covered(b: Books, c: Session, heard: seq<Frame>) {
    && (forall k :: Announced(c.output, k) == BookedFor(b, k))
    && b.received <= DataBytes(heard)
    && (forall k :: k in b.accounts ==> b.accounts[k].received <= DataBytes(heard))
    && b.accounts.Keys == c.streams.Keys
  }

  function HeardOf(e: Event): seq<Frame> {
    if e.Arrive? then [e.f] else []
  }

  lemma DataOnBound(s: Session, e: Event, k: nat)
    ensures DataOn(s, e, k) <= DataBytes(HeardOf(e)) && DataOnAny(s, e) <= DataBytes(HeardOf(e))
  {
    if e.Arrive? {
      assert [e.f][..0] == [];
      assert DataBytes([e.f]) == DataBytes([]) + DataIn(e.f);
      if Unpadded(e.f).Content? {
        ContentLength(e.f);
      }
    } else {
      assert DataBytes([]) == 0;
    }
  }

  lemma CoveredStep(b: Books, c: Session, e: Event, c': Session, heard: seq<Frame>)
    requires Covered(b, c, heard) && c.output <= c'.output && c.streams.Keys <= c'.streams.Keys && 0 !in c'.streams
    requires forall k :: k != 0 && k !in c'.streams ==> Announced(NewFrames(c, c'), k) == 0
    ensures Covered(Record(b, c, e, c'), c', heard + HeardOf(e))
  {
    hide Announced, DataBytes, DataOn, DataOnAny, CreditOn;
    var b' := Record(b, c, e, c');
    var fs := NewFrames(c, c');
    assert c'.output == c.output + fs;
    DataBytesConcat(heard, HeardOf(e));
    DataOnBound(c, e, 0);
    forall k ensures Announced(c'.output, k) == BookedFor(b', k) {
      AnnouncedConcat(c.output, fs, k);
    }
    forall k | k in b'.accounts ensures b'.accounts[k].received <= DataBytes(heard + HeardOf(e)) {
      DataOnBound(c, e, k);
    }
  }

  /** Every window update goes to the connection or to a stream there is. */
  ghost predicate Ours(fs: seq<Frame>, c: Session) {
    forall a :: a in fs && a.kind == WINDOW_UPDATE ==> a.sid == 0 || a.sid in c.streams
  }

  lemma {:induction false} AnnouncedElsewhere(fs: seq<Frame>, c: Session, k: nat)
    requires Ours(fs, c) && k != 0 && k !in c.streams
    ensures Announced(fs, k) == 0
    decreases |fs|
  {
    if |fs| > 0 {
      assert fs[0] in fs;
      AnnouncedElsewhere(fs[1..], c, k);
    }
  }

  lemma EndSilent(c: Session, sid: nat)
    requires c.mode.Client? && sid in c.streams
    ensures EndOfStream(c, sid).output == c.output
  {
    hide CompletePromise;
    CompleteSilent(WithStream(c, sid, c.streams[sid].(endStream := true)), sid);
  }

  lemma TakenSays(c: Session, sid: nat, data: seq<byte>, end: bool)
    requires c.mode.Client? && sid in c.streams
    ensures TakeData(c, sid, data, end).output
         == c.output + (RefillFrames(0, Refill(c.connRecv - |data|))
           + RefillFrames(sid, Refill(c.streams[sid].recvWindow - |data|)))
  {
    hide EndOfStream, RefillFrames, Refill;
    var st := c.streams[sid];
    EndSilent(CountData(WithStream(c, sid, st.(body := st.body + data)), sid, |data|), sid);
  }

  lemma DataOurs(c: Session, f: Frame)
    requires c.mode.Client? && HandleData(c, f).alive
    ensures Ours(NewFrames(c, HandleData(c, f)), c)
  {
    hide Goaway, Unpadded, HasFlag, Refill, Be32, TakeData, CountData, EndOfStream;
    var c' := HandleData(c, f);
    GoawayEnds(c, PROTOCOL_ERROR, "DATA on stream 0");
    if f.sid !in c.streams {
      assert NewFrames(c, c') == [RstStreamFrame(f.sid, STREAM_CLOSED)];
    } else if Unpadded(f).Fault? {
      GoawayEnds(c, Unpadded(f).code, "");
    } else {
      var data, st := Unpadded(f).data, c.streams[f.sid];
      DataIsTaken(c, f);
      TakenSays(c, f.sid, data, HasFlag(f, END_STREAM));
      assert NewFrames(c, c')
          == RefillFrames(0, Refill(c.connRecv - |data|)) + RefillFrames(f.sid, Refill(st.recvWindow - |data|));
    }
  }

  lemma UpdateOurs(c: Session, f: Frame)
    requires HandleWindowUpdate(c, f).alive && Fits(f)
    ensures Ours(NewFrames(c, HandleWindowUpdate(c, f)), c)
  {
    hide ParseWindowUpdate, Goaway, Be32;
    var s', n := HandleWindowUpdate(c, f), ParseWindowUpdate(f.payload);
    GoawayEnds(c, FRAME_SIZE_ERROR, "");
    GoawayEnds(c, PROTOCOL_ERROR, "WINDOW_UPDATE 0 increment");
    GoawayEnds(c.(connSend := c.connSend + n), FLOW_CONTROL_ERROR, "");
    if s'.output == c.output {
      assert NewFrames(c, s') == [];
    } else {
      assert NewFrames(c, s') == [RstStreamFrame(f.sid, if n == 0 then PROTOCOL_ERROR else FLOW_CONTROL_ERROR)];
    }
  }

  lemma SilentOurs(c: Session, c': Session)
    requires c'.output == c.output
    ensures Ours(NewFrames(c, c'), c)
  {
    assert NewFrames(c, c') == [];
  }

  lemma FrameOurs(c: Session, f: Frame)
    requires c.mode.Client? && c.alive && c.peerInitial == 65535 && Uttered(f) && Fits(f) && ProcessFrame(c, f).alive
    ensures Ours(NewFrames(c, ProcessFrame(c, f)), c)
  {
    hide HandleData, HandleHeaders, HandleContinuation, HandleSettings, HandleWindowUpdate, Goaway, Ours, NewFrames,
      InitialSettings, SettingsPayload;
    var c' := ProcessFrame(c, f);
    GoawayEnds(c, PROTOCOL_ERROR, "Expected CONTINUATION");
    GoawayEnds(c, PROTOCOL_ERROR, "Unexpected CONTINUATION");
    if c.contSid != 0 {
      ContinuationSilent(c, f);
      SilentOurs(c, c');
    } else if f.kind == DATA {
      DataOurs(c, f);
    } else if f.kind == HEADERS {
      HeadersSilent(c, f);
      SilentOurs(c, c');
    } else if f.kind == WINDOW_UPDATE {
      UpdateOurs(c, f);
    } else {
      SettingsTell(c);
      AckOurs(c, c');
    }
  }

  lemma AckOurs(c: Session, c': Session)
    requires c'.output == c.output || c'.output == c.output + [SettingsAck()]
    ensures Ours(NewFrames(c, c'), c)
  {
    assert NewFrames(c, c') == [] || NewFrames(c, c') == [SettingsAck()];
  }
}
