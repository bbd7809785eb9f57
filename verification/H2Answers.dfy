/**
  The whole round trip: requests submitted on a client reach the server's handler, and the handler's
  responses settle the client's promises, in order, however both byte streams are cut.
 */
module H2Answers {
  import opened Bytes
  import opened H2Frame
  import opened HttpTypes
  import opened Hpack
  import opened H2Session
  import opened H2Books
  import opened H2Replies
  import opened H2Splitting
  import opened H2EndToEnd
  import opened H2Responses
  import PrefixInt

  ghost predicate AllCredits(fs: seq<Frame>) {
    forall f :: f in fs ==> Fits(f) && IsCredit(f)
  }

  /** Frames for the connection or one stream. */
  ghost predicate AllOn(fs: seq<Frame>, sid: nat) {
    forall f :: f in fs ==> f.sid == 0 || f.sid == sid
  }

  // ---------------------------------------------------------------- credit on the client's side

  /** Credit changes windows only. */
  ghost predicate Unmoved(c: Session, c': Session) {
    && Asker(c') && c'.encoder.tables == c.encoder.tables && c'.completed == c.completed
    && c'.streams.Keys == c.streams.Keys
    && forall k :: k in c.streams ==> SameTalk(c'.streams[k], c.streams[k])
  }

  lemma CreditHeard(c: Session, a: Frame)
    requires Asker(c) && IsCredit(a) && c.connSend <= MAX_WINDOW_SIZE
    ensures var c', n := ProcessFrame(c, a), Announced([a], 0);
            && (c.connSend + n <= MAX_WINDOW_SIZE ==> Unmoved(c, c') && c'.connSend == c.connSend + n)
            && (c.connSend + n > MAX_WINDOW_SIZE ==> !c'.alive && c'.completed == c.completed)
  {
    hide Ascii, HandleData, HandleHeaders, ParseWindowUpdate, Be32;
    assert [a][1..] == [];
    assert Announced([a][1..], 0) == 0;
  }

  lemma {:induction false} CreditsHeard(c: Session, cs: seq<Frame>)
    requires Asker(c) && AllCredits(cs) && c.connSend <= MAX_WINDOW_SIZE
    ensures var c', n := Run(c, cs), Announced(cs, 0);
            && (c.connSend + n <= MAX_WINDOW_SIZE ==> Unmoved(c, c') && c'.connSend == c.connSend + n)
            && (c.connSend + n > MAX_WINDOW_SIZE ==> !c'.alive && c'.completed == c.completed)
    decreases |cs|
  {
    hide ProcessFrame, IsCredit;
    if |cs| > 0 {
      assert cs[0] in cs;
      var c1 := ProcessFrame(c, cs[0]);
      CreditHeard(c, cs[0]);
      assert Announced(cs, 0) == Announced([cs[0]], 0) + Announced(cs[1..], 0) by {
        AnnouncedConcat([cs[0]], cs[1..], 0);
        assert [cs[0]] + cs[1..] == cs;
      }
      assert AllCredits(cs[1..]);
      if c1.alive {
        CreditsHeard(c1, cs[1..]);
      }
    }
  }

  // ---------------------------------------------------------------- the server's side

  /** What the server's next answer depends on. */
  ghost predicate SameVoice(s: Session, s': Session) {
    s'.encoder == AfterBlock(s.encoder) && s'.peerMaxFrame == s.peerMaxFrame && s'.handler == s.handler
  }

  ghost predicate SameEncoder(s: Session, s': Session) {
    s'.encoder == s.encoder && s'.peerMaxFrame == s.peerMaxFrame && s'.handler == s.handler
  }

  /** Completing a request appends exactly its answer. */
  lemma EndAnswers(s: Session, sid: nat)
    requires s.mode.Server? && sid in s.streams
    ensures var s', st := EndOfStream(s, sid), s.streams[sid];
            && s'.output == s.output + AnswerFrames(s.encoder, s.peerMaxFrame, sid, s.handler(st.req.(body := st.body)))
            && SameVoice(s, s') && s'.connRecv == s.connRecv
  {
    hide SubmitResponse, HeaderFrames, DataFrames, EncodeBlock, ResponseFields, TrailerFields;
    var st := s.streams[sid].(endStream := true);
    var req := st.req.(body := st.body);
    var s2 := WithStream(WithStream(s, sid, st), sid,
        st.(req := req, body := [])).(dispatched := s.dispatched + [Dispatch(sid, req)]);
    ResponseAppends(s2, sid, s.handler(req));
    VoiceAfter(s2, sid, s.handler(req));
  }

  lemma VoiceAfter(s: Session, sid: nat, resp: Response)
    ensures SameVoice(s, SubmitResponse(s, sid, resp)) && SubmitResponse(s, sid, resp).connRecv == s.connRecv
  {
    hide HeaderFrames, DataFrames, EncodeBlock, ResponseFields, TrailerFields;
  }

  /** A header block answers at once if it ends the stream, and is silent otherwise. */
  lemma BlockAnswers(s: Session, sid: nat, block: seq<byte>, end: bool)
    requires s.mode.Server? && sid in s.streams
    ensures var s', st := ApplyBlock(s, sid, block, end), s.streams[sid];
            var req := ReceiveFields(st.req, DecodeBlock(s.encoder.tables, s.dyn, block).headers).(version := Http2);
            if Escapes(s, block) then EndedBy(s', s, block) else
            && (end ==>
                  && SameVoice(s, s')
                  && s'.output
                  == s.output + AnswerFrames(s.encoder, s.peerMaxFrame, sid, s.handler(req.(body := st.body))))
            && (!end ==>
                  && SameEncoder(s, s') && s'.output == s.output && sid in s'.streams
                  && s'.streams[sid].recvWindow == st.recvWindow)
            && s'.connRecv == s.connRecv
  {
    hide EndOfStream, DecodeBlock, ReceiveFields, AnswerFrames;
    var st := s.streams[sid];
    var d := DecodeBlock(s.encoder.tables, s.dyn, block);
    var s1 := WithStream(s.(dyn := d.dyn), sid,
        st.(headersComplete := true, req := ReceiveFields(st.req, d.headers).(version := Http2)));
    if end {
      EndAnswers(s1, sid);
    }
  }

  /** A receive window after n bytes, refilled if it has to be. */
  function Topped(w: int, n: nat): int {
    w - n + Refill(w - n)
  }

  /** The same after n bytes in frames of at most max. */
  function Counted(w: int, n: nat, max: FrameLimit): int
    decreases n
  {
    if n == 0 then w
    else if n <= max then Topped(w, n)
    else Counted(Topped(w, max), n - max, max)
  }

  /** The two windows a body is counted against. */
  ghost predicate Roomy(s: Session, sid: nat) {
    sid in s.streams && Full(s.connRecv) && Full(s.streams[sid].recvWindow)
  }

  lemma PieceAnswered(s: Session, f: Frame) returns (credits: seq<Frame>)
    requires Receiver(s) && f.kind == DATA && f.flags == 0 && 0 < f.sid < SID_LIMIT && Roomy(s, f.sid)
             && |f.payload| < LENGTH_LIMIT
    ensures var s', st := ProcessFrame(s, f), s.streams[f.sid];
            && s'.output == s.output + credits && AllCredits(credits) && AllOn(credits, f.sid) && SameEncoder(s, s')
            && Roomy(s', f.sid)
            && s'.streams[f.sid].req == st.req && s'.streams[f.sid].body == st.body + f.payload
            && s'.connRecv == Topped(s.connRecv, |f.payload|) == s.connRecv - |f.payload| + Announced(credits, 0)
  {
    hide RefillFrames, Refill, Be32, ParseWindowUpdate, Announced;
    RefillAnnounced(f.sid, Refill(s.connRecv - |f.payload|), Refill(s.streams[f.sid].recvWindow - |f.payload|), 0);
    PlainFlags(f);
    var a, b := s.connRecv - |f.payload|, s.streams[f.sid].recvWindow - |f.payload|;
    CreditFrames(0, a);
    CreditFrames(f.sid, b);
    credits := RefillFrames(0, Refill(a)) + RefillFrames(f.sid, Refill(b));
  }

  lemma CreditFrames(sid: nat, window: int)
    requires sid < SID_LIMIT && window <= DEFAULT_WINDOW && DEFAULT_WINDOW - window < SID_LIMIT
    ensures AllCredits(RefillFrames(sid, Refill(window))) && AllOn(RefillFrames(sid, Refill(window)), sid)
  {
    hide ParseWindowUpdate, Be32;
    WindowUpdateRoundTrip(sid, Refill(window));
  }

  lemma LastPieceAnswered(s: Session, f: Frame) returns (credits: seq<Frame>)
    requires Receiver(s) && f.kind == DATA && f.flags == END_STREAM && 0 < f.sid < SID_LIMIT && Roomy(s, f.sid)
             && |f.payload| < LENGTH_LIMIT
    ensures var s', st := ProcessFrame(s, f), s.streams[f.sid];
            && AllCredits(credits) && AllOn(credits, f.sid) && SameVoice(s, s')
            && s'.output == s.output + credits
                 + AnswerFrames(s.encoder, s.peerMaxFrame, f.sid, s.handler(st.req.(body := st.body + f.payload)))
            && s'.connRecv == Topped(s.connRecv, |f.payload|) == s.connRecv - |f.payload| + Announced(credits, 0)
  {
    hide RefillFrames, Refill, EndOfStream, AnswerFrames, Be32, ParseWindowUpdate, Announced;
    RefillAnnounced(f.sid, Refill(s.connRecv - |f.payload|), Refill(s.streams[f.sid].recvWindow - |f.payload|), 0);
    PlainFlags(f);
    assert HasFlag(f, END_STREAM);
    var st := s.streams[f.sid];
    var a, b := s.connRecv - |f.payload|, st.recvWindow - |f.payload|;
    CreditFrames(0, a);
    CreditFrames(f.sid, b);
    credits := RefillFrames(0, Refill(a)) + RefillFrames(f.sid, Refill(b));
    var s1 := CountData(WithStream(s, f.sid, st.(body := st.body + f.payload)), f.sid, |f.payload|);
    assert s1.output == s.output + credits;
    EndAnswers(s1, f.sid);
  }

  lemma {:induction false} BodyAnswers(s: Session, sid: nat, body: seq<byte>, max: FrameLimit)
      returns (credits: seq<Frame>)
    requires Receiver(s) && 0 < sid < SID_LIMIT && Roomy(s, sid) && body != []
    ensures var s', st := Run(s, DataFrames(sid, true, body, max)), s.streams[sid];
            && AllCredits(credits) && AllOn(credits, sid) && SameVoice(s, s')
            && s'.output == s.output + credits + AnswerFrames(s.encoder, s.peerMaxFrame, sid,
              s.handler(st.req.(body := st.body + body)))
            && s'.connRecv == Counted(s.connRecv, |body|, max) == s.connRecv - |body| + Announced(credits, 0)
    decreases |body|
  {
    hide ProcessFrame, AnswerFrames, IsCredit, Announced, Topped;
    var st := s.streams[sid];
    if |body| <= max {
      var f := Frame(DATA, END_STREAM, sid, body);
      RunOne(s, f);
      credits := LastPieceAnswered(s, f);
    } else {
      var f := Frame(DATA, 0, sid, body[..max]);
      RunConcat(s, [f], DataFrames(sid, true, body[max..], max));
      RunOne(s, f);
      var first := PieceAnswered(s, f);
      DataStep(s, f);
      var s1 := ProcessFrame(s, f);
      var rest := BodyAnswers(s1, sid, body[max..], max);
      assert st.body + body[..max] + body[max..] == st.body + body;
      credits := first + rest;
      AnnouncedConcat(first, rest, 0);
      var answer := AnswerFrames(s.encoder, s.peerMaxFrame, sid, s.handler(st.req.(body := st.body + body)));
      assert s.output + first + rest + answer == s.output + credits + answer;
    }
  }

  /** A whole request is answered by credit frames and exactly the handler's response. */
  lemma RequestAnswered(s: Session, sid: nat, block: seq<byte>, body: seq<byte>, max: FrameLimit)
      returns (credits: seq<Frame>)
    requires Receiver(s) && 0 < sid < SID_LIMIT && sid !in s.streams && Full(s.connRecv)
    ensures var s' := Run(s, RequestFrames(sid, block, body, max));
            var req := Assembled(DecodeBlock(s.encoder.tables, s.dyn, block).headers, body);
            if Escapes(s, block) then EndedBy(s', s, block) else
            && AllCredits(credits) && AllOn(credits, sid) && SameVoice(s, s')
            && s'.output == s.output + credits + AnswerFrames(s.encoder, s.peerMaxFrame, sid, s.handler(req))
            && s'.connRecv == Counted(s.connRecv, |body|, max) == s.connRecv - |body| + Announced(credits, 0)
  {
    hide ApplyBlock, HeaderFrames, DataFrames, DecodeBlock, ReceiveFields, AnswerFrames, Run, IsCredit;
    var started := Started(s, sid);
    var fs := DecodeBlock(s.encoder.tables, s.dyn, block).headers;
    FreshIsClear();
    HeadersArrive(s, sid, body == [], block, max);
    BlockAnswers(started, sid, block, body == []);
    ReceiveKeepsBody(EmptyRequest(), fs);
    RunConcat(s, HeaderFrames(sid, body == [], block, max), DataFrames(sid, true, body, max));
    var s1 := ApplyBlock(started, sid, block, body == []);
    if Escapes(s, block) {
      credits := [];
      RunDead(Run(s, HeaderFrames(sid, body == [], block, max)), DataFrames(sid, true, body, max));
    } else if body == [] {
      NoDataFrames(sid, max);
      RunNone(s1);
      credits := [];
      assert s.output + [] == s.output;
    } else {
      BlockApplied(started, sid, block, false);
      credits := BodyAnswers(s1, sid, body, max);
      assert [] + body == body;
    }
  }

  // ---------------------------------------------------------------- exchanges

  /** One answered request: credit for its body, then the response. */
  datatype Exchange = Exchange(sid: nat, credits: seq<Frame>, enc: Encoder, max: FrameLimit, resp: Response)

  function Talk(x: Exchange): seq<Frame> {
    x.credits + AnswerFrames(x.enc, x.max, x.sid, x.resp)
  }

  function Transcript(xs: seq<Exchange>): seq<Frame> {
    if |xs| == 0 then [] else Transcript(xs[..|xs| - 1]) + Talk(xs[|xs| - 1])
  }

  ghost predicate Proper(x: Exchange, tb: Tables) {
    AllCredits(x.credits) && AllOn(x.credits, x.sid) && Speaks(x.enc, tb) && Sizable(x.resp) && 0 < x.sid < SID_LIMIT
  }

  function Settled(tb: Tables, xs: seq<Exchange>): seq<Completion> {
    if |xs| == 0 then [] else Settled(tb, xs[..|xs| - 1]) + [Answered(xs[|xs| - 1].sid, Heard(tb, xs[|xs| - 1].resp))]
  }

  lemma AnswerQuiet(e: Encoder, max: FrameLimit, sid: nat, resp: Response)
    ensures NoUpdates(AnswerFrames(e, max, sid, resp))
  {
    hide HeaderFrames, DataFrames, EncodeBlock, ResponseFields, TrailerFields;
    var hasTrailers := resp.trailers != [];
    HeadersQuiet(sid, resp.body == [] && !hasTrailers, EncodeBlock(e, ResponseFields(resp, true)), max);
    DataQuiet(sid, !hasTrailers, resp.body, max);
    HeadersQuiet(sid, true, EncodeBlock(AfterBlock(e), TrailerFields(resp.trailers)), max);
  }

  lemma TalkCredit(x: Exchange)
    ensures Announced(Talk(x), 0) == Announced(x.credits, 0)
  {
    hide AnswerFrames, Announced;
    var answer := AnswerFrames(x.enc, x.max, x.sid, x.resp);
    AnswerQuiet(x.enc, x.max, x.sid, x.resp);
    AnnouncedNone(answer, 0);
    AnnouncedConcat(x.credits, answer, 0);
  }

  /** The client after one exchange. */
  ghost predicate Talked(c: Session, c': Session, tb: Tables, x: Exchange) {
    && Asker(c') && c'.encoder.tables == tb && c'.connSend == c.connSend + Announced(Talk(x), 0)
    && c'.streams.Keys == c.streams.Keys
    && c'.completed == c.completed + [Answered(x.sid, Heard(tb, x.resp))]
    && forall k :: k in c.streams && k != x.sid ==> SameTalk(c'.streams[k], c.streams[k])
  }

  /** One exchange on a stream that waits for it. */
  lemma TalkHeard(c: Session, tb: Tables, x: Exchange)
    requires Asker(c) && c.encoder.tables == tb && c.connSend <= MAX_WINDOW_SIZE
    requires Proper(x, tb) && x.sid in c.streams && Awaiting(c.streams[x.sid])
    ensures var c', n := Run(c, Talk(x)), Announced(Talk(x), 0);
            if c.connSend + n <= MAX_WINDOW_SIZE then Talked(c, c', tb, x) else !c'.alive && c'.completed == c.completed
  {
    hide AnswerFrames, Announced, ProcessFrame, Heard, Sizable, Speaks;
    TalkCredit(x);
    CreditsHeard(c, x.credits);
    var c1 := Run(c, x.credits);
    RunConcat(c, x.credits, AnswerFrames(x.enc, x.max, x.sid, x.resp));
    if c1.alive {
      assert x.enc.tables == tb by { SpeaksIt(x.enc, tb); }
      AnswerHeard(c1, x.enc, x.max, x.sid, x.resp);
    }
  }

  lemma SpeaksIt(e: Encoder, tb: Tables)
    requires Speaks(e, tb)
    ensures e.tables == tb
  {
  }

  /** Streams in the order of their exchanges. */
  ghost predicate Ordered(xs: seq<Exchange>) {
    forall i, j :: 0 <= i < j < |xs| ==> xs[i].sid < xs[j].sid
  }

  ghost predicate NotIn(xs: seq<Exchange>, sid: nat) {
    forall x :: x in xs ==> x.sid != sid
  }

  /** The client after a whole transcript. */
  ghost predicate Through(c: Session, c': Session, tb: Tables, xs: seq<Exchange>) {
    && Asker(c') && c'.encoder.tables == tb && c'.connSend == c.connSend + Announced(Transcript(xs), 0)
    && c'.streams.Keys == c.streams.Keys
    && c'.completed == c.completed + Settled(tb, xs)
    && forall k :: k in c.streams && NotIn(xs, k) ==> SameTalk(c'.streams[k], c.streams[k])
  }

  lemma ThroughNone(c: Session, tb: Tables)
    requires Asker(c) && c.encoder.tables == tb
    ensures Through(c, c, tb, [])
  {
    assert c.completed + [] == c.completed;
  }

  lemma ThroughMore(c: Session, c1: Session, c2: Session, tb: Tables, xs: seq<Exchange>)
    requires |xs| > 0 && Through(c, c1, tb, xs[..|xs| - 1]) && Talked(c1, c2, tb, xs[|xs| - 1])
    ensures Through(c, c2, tb, xs)
  {
    hide Announced, Talk, Heard;
    var front, x := xs[..|xs| - 1], xs[|xs| - 1];
    AnnouncedConcat(Transcript(front), Talk(x), 0);
    assert c.completed + Settled(tb, front) + [Answered(x.sid, Heard(tb, x.resp))] == c.completed + Settled(tb, xs);
    forall k | k in c.streams && NotIn(xs, k) ensures SameTalk(c2.streams[k], c.streams[k]) {
      assert x in xs;
      assert NotIn(front, k);
    }
  }

  lemma ThroughMeans(c: Session, c': Session, tb: Tables, xs: seq<Exchange>)
    requires Through(c, c', tb, xs)
    ensures Asker(c') && c'.encoder.tables == tb && c'.connSend == c.connSend + Announced(Transcript(xs), 0)
    ensures c'.completed == c.completed + Settled(tb, xs)
  {
  }

  lemma NextAwaits(c: Session, c1: Session, tb: Tables, xs: seq<Exchange>)
    requires |xs| > 0 && Ordered(xs) && Through(c, c1, tb, xs[..|xs| - 1])
    requires xs[|xs| - 1].sid in c.streams && Awaiting(c.streams[xs[|xs| - 1].sid])
    ensures xs[|xs| - 1].sid in c1.streams && Awaiting(c1.streams[xs[|xs| - 1].sid])
  {
    hide Announced, Transcript, Settled, Asker;
    assert NotIn(xs[..|xs| - 1], xs[|xs| - 1].sid);
  }

  lemma {:induction false} TranscriptHeard(c: Session, tb: Tables, xs: seq<Exchange>)
    requires Asker(c) && c.encoder.tables == tb && c.connSend <= MAX_WINDOW_SIZE && Ordered(xs)
    requires forall x :: x in xs ==> Proper(x, tb) && x.sid in c.streams && Awaiting(c.streams[x.sid])
    ensures var c', n := Run(c, Transcript(xs)), Announced(Transcript(xs), 0);
            if c.connSend + n <= MAX_WINDOW_SIZE then Through(c, c', tb, xs)
            else !c'.alive && c'.completed <= c.completed + Settled(tb, xs)
  {
    hide ProcessFrame, Talk, Announced, Proper, Awaiting, Through, Talked;
    if |xs| == 0 {
      ThroughNone(c, tb);
      assert Announced(Transcript(xs), 0) == 0 by { AnnouncedNone([], 0); }
      assert xs == [];
    } else {
      var front, x := xs[..|xs| - 1], xs[|xs| - 1];
      assert x in xs && forall y :: y in front ==> y in xs;
      TranscriptHeard(c, tb, front);
      var c1 := Run(c, Transcript(front));
      RunConcat(c, Transcript(front), Talk(x));
      AnnouncedConcat(Transcript(front), Talk(x), 0);
      assert c.completed + Settled(tb, front) <= c.completed + Settled(tb, xs);
      if c.connSend + Announced(Transcript(front), 0) <= MAX_WINDOW_SIZE {
        ThroughMeans(c, c1, tb, front);
        NextAwaits(c, c1, tb, xs);
        TalkHeard(c1, tb, x);
        if c1.connSend + Announced(Talk(x), 0) <= MAX_WINDOW_SIZE {
          ThroughMore(c, c1, Run(c1, Talk(x)), tb, xs);
        }
      }
    }
  }

  // ---------------------------------------------------------------- the server's transcript

  lemma {:induction false} RunIsReach(s: Session, fs: seq<Frame>)
    ensures Run(s, fs) == Reach(s, Arrivals(fs))
    decreases |fs|
  {
    hide ProcessFrame;
    if |fs| == 0 {
      RunNone(s);
      assert fs == [];
    } else {
      var front, f := fs[..|fs| - 1], fs[|fs| - 1];
      assert fs == front + [f];
      RunIsReach(s, front);
      RunConcat(s, front, [f]);
      assert Arrivals(fs)[..|fs| - 1] == Arrivals(front);
      if Run(s, front).alive {
        RunOne(Run(s, front), f);
      }
    }
  }

  function Arrivals(fs: seq<Frame>): (es: seq<Event>)
    ensures |es| == |fs| && forall i :: 0 <= i < |fs| ==> es[i] == Arrive(fs[i])
  {
    seq(|fs|, i requires 0 <= i < |fs| => Arrive(fs[i]))
  }

  lemma ServerFull(tb: Tables, handler: Request -> Response, fs: seq<Frame>)
    requires forall f :: f in fs ==> Fits(f)
    ensures Full(Run(NewSession(Server, tb, handler), fs).connRecv)
  {
    hide Run, Reach, BooksOf;
    RunIsReach(NewSession(Server, tb, handler), fs);
    forall e | e in Arrivals(fs) ensures Wire(e) {
      var i :| 0 <= i < |fs| && Arrivals(fs)[i] == e;
      assert fs[i] in fs;
    }
    WindowsBalance(Server, tb, handler, Arrivals(fs));
  }

  /** What a server has said before any request: its settings, and the acknowledgement of the client's. */
  function Hello(): seq<Frame> {
    [SettingsFrame(InitialSettings()), SettingsAck()]
  }

  /** The server's half of a conversation of submissions. */
  ghost predicate Speaking(tb: Tables, s: Session, xs: seq<Exchange>, ds: seq<Dispatch>, handler: Request -> Response) {
    && s.output == Hello() + Transcript(xs) && s.handler == handler && s.encoder.max < PrefixInt.WORD64
    && |xs| == |ds|
    && forall i :: 0 <= i < |xs| ==> Proper(xs[i], tb) && xs[i].sid == ds[i].sid && xs[i].resp == handler(ds[i].req)
  }

  /** The bytes of the bodies submitted. */
  function BodyBytes(ops: seq<ClientOp>): nat {
    if |ops| == 0 then 0 else BodyBytes(ops[..|ops| - 1]) + if ops[|ops| - 1].Submit?
      then |ops[|ops| - 1].req.body| else 0
  }

  /** The server's connection window after them, from their sizes alone. */
  function WindowAfter(ops: seq<ClientOp>): int {
    if |ops| == 0 then DEFAULT_WINDOW
    else if ops[|ops| - 1].Submit? then Counted(WindowAfter(ops[..|ops| - 1]), |ops[|ops| - 1].req.body|, 16384)
    else WindowAfter(ops[..|ops| - 1])
  }

  /** The server's connection window is the predicted one, and the credit it has announced makes up for the bodies. */
  ghost predicate Booked(s: Session, xs: seq<Exchange>, ops: seq<ClientOp>) {
    s.connRecv == WindowAfter(ops) == DEFAULT_WINDOW - BodyBytes(ops) + Announced(Transcript(xs), 0)
  }

  lemma FirstWords(tb: Tables, handler: Request -> Response)
    ensures var s := Run(NewSession(Server, tb, handler), [SettingsFrame(InitialSettings())]);
            Speaking(tb, s, [], [], handler) && Booked(s, [], [])
  {
    hide ApplySettings, ParseSettings, InitialSettings, Ascii, HandleData, HandleHeaders, Run;
    var s0, xs := NewSession(Server, tb, handler), InitialSettings();
    var f := SettingsFrame(xs);
    RunOne(s0, f);
    FourOfThem();
    SettingsRoundTrip(xs) by { SmallSettings(); }
    FourSettings(s0, xs);
    FourQuiet(s0, xs);
    assert !HasFlag(f, ACK);
    assert s0.output + [SettingsAck()] == Hello();
    assert Hello() + Transcript([]) == Hello();
  }

  lemma FourQuiet(s: Session, xs: seq<Setting>)
    requires s.alive && xs == InitialSettings()
    ensures ApplySettings(s, xs).output == s.output && ApplySettings(s, xs).handler == s.handler
    ensures ApplySettings(s, xs).connRecv == s.connRecv
  {
    hide ShiftWindows;
    var s1 := ApplySetting(s, xs[0]);
    var s2 := ApplySetting(s1, xs[1]);
    var s3 := ApplySetting(s2, xs[2]);
    var s4 := ApplySetting(s3, xs[3]);
    assert xs[1..][1..][1..][1..] == [];
    assert ApplySettings(s4, xs[1..][1..][1..][1..]) == s4;
    assert ApplySettings(s3, xs[1..][1..][1..]) == s4;
    assert ApplySettings(s2, xs[1..][1..]) == s4;
    assert ApplySettings(s1, xs[1..]) == s4;
  }

  lemma SpeakingMore(tb: Tables, s: Session, s': Session, xs: seq<Exchange>, x: Exchange, ds: seq<Dispatch>,
        d: Dispatch, handler: Request -> Response)
    requires Speaking(tb, s, xs, ds, handler) && Proper(x, tb) && x.sid == d.sid && x.resp == handler(d.req)
    requires s'.output == s.output + Talk(x) && s'.handler == handler && s'.encoder.max < PrefixInt.WORD64
    ensures Speaking(tb, s', xs + [x], ds + [d], handler)
  {
    hide Talk, Proper, Hello;
    assert (xs + [x])[..|xs|] == xs;
    assert Hello() + Transcript(xs) + Talk(x) == Hello() + (Transcript(xs) + Talk(x));
  }

  lemma BookedMore(s: Session, s': Session, xs: seq<Exchange>, x: Exchange, ops: seq<ClientOp>, req: Request)
    requires Booked(s, xs, ops)
             && s'.connRecv == Counted(s.connRecv, |req.body|,
               16384) == s.connRecv - |req.body| + Announced(x.credits, 0)
    ensures Booked(s', xs + [x], ops + [Submit(req)])
  {
    hide Talk, Announced, Counted;
    assert (xs + [x])[..|xs|] == xs && (ops + [Submit(req)])[..|ops|] == ops;
    TalkCredit(x);
    AnnouncedConcat(Transcript(xs), Talk(x), 0);
  }

  /** One more submission: the server answers it and nothing else. */
  lemma SubmissionAnswered(tb: Tables, c: Session, s: Session, ops: seq<ClientOp>, req: Request, xs: seq<Exchange>,
                           handler: Request -> Response) returns (x: Exchange)
    requires ClientOk(tb, c, ops) && ServerOk(tb, c, s, ops) && Ordinary(c, Submit(req)) && Addressable(tb)
    requires Full(s.connRecv) && Speaking(tb, s, xs, Expected(tb, ops), handler) && forall r :: Sizable(handler(r))
    requires Booked(s, xs, ops) && c.peerMaxFrame == 16384
    ensures var s' := Run(s,
            RequestFrames(c.nextSid, EncodeBlock(c.encoder, RequestFields(req)), req.body, c.peerMaxFrame));
            Speaking(tb, s', xs + [x], Expected(tb, ops + [Submit(req)]), handler)
            && Booked(s', xs + [x], ops + [Submit(req)])
  {
    hide EncodeBlock, RequestFields, RequestFrames, DecodeBlock, Assembled, DeliveredFields, Run, Announced, Sizable,
      AnswerFrames, Hello, Transcript;
    var fs := RequestFields(req);
    var block := EncodeBlock(c.encoder, fs);
    BlockTransfer(c.encoder, s.dyn, fs);
    var credits := RequestAnswered(s, c.nextSid, block, req.body, c.peerMaxFrame);
    var asked := Assembled(DeliveredFields(tb, fs), req.body);
    x := Exchange(c.nextSid, credits, s.encoder, s.peerMaxFrame, handler(asked));
    assert (ops + [Submit(req)])[..|ops|] == ops;
    var s' := Run(s, RequestFrames(c.nextSid, block, req.body, c.peerMaxFrame));
    assert s.output + credits + AnswerFrames(x.enc, x.max, x.sid, x.resp) == s.output + Talk(x);
    SpeakingMore(tb, s, s', xs, x, Expected(tb, ops), Dispatch(c.nextSid, asked), handler);
    BookedMore(s, s', xs, x, ops, req);
  }

  /** For every list of submissions the server's output is its greeting and one exchange per request, in order. */
  lemma {:induction false} ServerTalks(tb: Tables, onClient: Request -> Response, onServer: Request -> Response,
        ops: seq<ClientOp>)
    returns (xs: seq<Exchange>)
    requires Addressable(tb) && OrdinaryRun(NewSession(Client, tb, onClient), ops)
             && forall op :: op in ops ==> op.Submit?
    requires forall r :: Sizable(onServer(r))
    ensures var c := ClientRun(NewSession(Client, tb, onClient), ops);
            var s := Run(NewSession(Server, tb, onServer), c.output);
            Speaking(tb, s, xs, Expected(tb, ops), onServer) && Booked(s, xs, ops) && Full(s.connRecv)
    decreases |ops|
  {
    hide Run, ProcessFrame, SubmitRequest, InitialSettings, Sizable, Speaking, Announced, Booked, Waits;
    var c0, s0 := NewSession(Client, tb, onClient), NewSession(Server, tb, onServer);
    if |ops| == 0 {
      FirstWords(tb, onServer);
      xs := [];
      NewFull(tb, onClient, onServer);
    } else {
      var front, op := ops[..|ops| - 1], ops[|ops| - 1];
      assert ops == front + [op] && op in ops;
      xs := ServerTalks(tb, onClient, onServer, front);
      StepByStep(tb, onClient, onServer, front);
      SubmissionsWithinCredit(tb, onClient, front);
      var c := ClientRun(c0, front);
      var s := Run(s0, c.output);
      ClientWaits(tb, onClient, front);
      SubmitKeepsClient(tb, c, front, op.req);
      var frames := RequestFrames(c.nextSid, EncodeBlock(c.encoder, RequestFields(op.req)), op.req.body,
          c.peerMaxFrame);
      RunConcat(s0, c.output, frames);
      var x := SubmissionAnswered(tb, c, s, front, op.req, xs, onServer);
      xs := xs + [x];
      ServerFull(tb, onServer, c.output + frames);
    }
  }

  lemma NewFull(tb: Tables, onClient: Request -> Response, onServer: Request -> Response)
    ensures Full(Run(NewSession(Server, tb, onServer), NewSession(Client, tb, onClient).output).connRecv)
  {
    hide Run, InitialSettings;
    FourOfThem();
    ServerFull(tb, onServer, NewSession(Client, tb, onClient).output);
  }

  // ---------------------------------------------------------------- the client before its answers

  /** A client that has only submitted: one waiting stream per submission. */
  ghost predicate Waits(c: Session, n: nat) {
    && Asker(c) && c.connSend == DEFAULT_WINDOW && c.completed == [] && c.nextSid == 2 * n + 1
    && (forall k :: k in c.streams ==> k < c.nextSid)
    && forall i :: 0 <= i < n ==> 2 * i + 1 in c.streams && Awaiting(c.streams[2 * i + 1])
  }

  lemma SubmitWaits(c: Session, n: nat, req: Request)
    requires Waits(c, n)
    ensures Waits(SubmitRequest(c, req, false), n + 1) && SubmitRequest(c, req, false).peerMaxFrame == c.peerMaxFrame
  {
    hide RequestFields, HeaderFrames, EncodeBlock, DataFrames, EmptyResponse;
    var c' := SubmitRequest(c, req, false);
    assert Awaiting(c'.streams[2 * n + 1]);
    forall i | 0 <= i < n + 1 ensures 2 * i + 1 in c'.streams && Awaiting(c'.streams[2 * i + 1]) {
      if i < n {
        assert c'.streams[2 * i + 1] == c.streams[2 * i + 1];
      }
    }
  }

  lemma NewWaits(tb: Tables, handler: Request -> Response)
    ensures Waits(NewSession(Client, tb, handler), 0)
  {
    hide InitialSettings;
  }

  lemma {:induction false} ClientWaits(tb: Tables, handler: Request -> Response, ops: seq<ClientOp>)
    requires forall op :: op in ops ==> op.Submit?
    ensures var c := ClientRun(NewSession(Client, tb, handler), ops);
            Waits(c, |Expected(tb, ops)|) && c.encoder.tables == tb && c.peerMaxFrame == 16384
  {
    hide SubmitRequest, Assembled, DeliveredFields, RequestFields, InitialSettings, Waits;
    if |ops| == 0 {
      NewWaits(tb, handler);
    } else {
      assert ops[|ops| - 1] in ops;
      ClientWaits(tb, handler, ops[..|ops| - 1]);
      var c := ClientRun(NewSession(Client, tb, handler), ops[..|ops| - 1]);
      SubmitWaits(c, |Expected(tb, ops[..|ops| - 1])|, ops[|ops| - 1].req);
      SubmitEffect(c, ops[|ops| - 1].req);
    }
  }

  lemma {:induction false} ExpectedSids(tb: Tables, ops: seq<ClientOp>, i: nat)
    requires i < |Expected(tb, ops)|
    ensures Expected(tb, ops)[i].sid == 2 * i + 1
  {
    hide Assembled, DeliveredFields, RequestFields;
    if |ops| > 0 && i < |Expected(tb, ops[..|ops| - 1])| {
      ExpectedSids(tb, ops[..|ops| - 1], i);
    }
  }

  /** The server's greeting changes nothing a client's answers depend on. */
  lemma HelloHeard(c: Session)
    requires Asker(c)
    ensures Unmoved(c, Run(c, Hello())) && Run(c, Hello()).connSend == c.connSend
  {
    hide InitialSettings, ProcessFrame;
    var f := SettingsFrame(InitialSettings());
    assert Hello() == [f] + [SettingsAck()];
    RunConcat(c, [f], [SettingsAck()]);
    RunOne(c, f);
    SettingsHeard(c);
    RunOne(ProcessFrame(c, f), SettingsAck());
    AckHeard(ProcessFrame(c, f));
  }

  lemma AckHeard(c: Session)
    requires Asker(c)
    ensures ProcessFrame(c, SettingsAck()) == c
  {
    hide ApplySettings, ParseSettings, Ascii, HandleData, HandleHeaders;
  }

  lemma SettingsHeard(c: Session)
    requires Asker(c)
    ensures var c' := ProcessFrame(c, SettingsFrame(InitialSettings())); Unmoved(c, c') && c'.connSend == c.connSend
  {
    hide ApplySettings, ParseSettings, InitialSettings, Ascii, HandleData, HandleHeaders;
    var xs := InitialSettings();
    FourOfThem();
    SettingsRoundTrip(xs) by { SmallSettings(); }
    FourHeard(c, xs);
    assert !HasFlag(SettingsFrame(xs), ACK);
  }

  lemma SmallSettings()
    ensures forall s :: s in InitialSettings() ==> s.id < 0x1_0000 && s.value < WORD32
  {
  }

  lemma FourHeard(c: Session, xs: seq<Setting>)
    requires Asker(c) && xs == InitialSettings()
    ensures Unmoved(c, ApplySettings(c, xs)) && ApplySettings(c, xs).connSend == c.connSend
  {
    var s1 := ApplySetting(c, xs[0]);
    var s2 := ApplySetting(s1, xs[1]);
    var s3 := ApplySetting(s2, xs[2]);
    var s4 := ApplySetting(s3, xs[3]);
    assert xs[1..][1..][1..][1..] == [];
    assert ApplySettings(s4, xs[1..][1..][1..][1..]) == s4;
    assert ApplySettings(s3, xs[1..][1..][1..]) == s4;
    assert ApplySettings(s2, xs[1..][1..]) == s4;
    assert ApplySettings(s1, xs[1..]) == s4;
  }

  // ---------------------------------------------------------------- the theorem

  lemma AnswerFits(x: Exchange, tb: Tables)
    requires Proper(x, tb)
    ensures forall f :: f in Talk(x) ==> Fits(f)
  {
    hide HeaderFrames, DataFrames, EncodeBlock, ResponseFields, TrailerFields, IsCredit;
    var hasTrailers := x.resp.trailers != [];
    HeaderSplit(x.sid, x.resp.body == [] && !hasTrailers, EncodeBlock(x.enc, ResponseFields(x.resp, true)), x.max);
    DataSplit(x.sid, !hasTrailers, x.resp.body, x.max);
    HeaderSplit(x.sid, true, EncodeBlock(AfterBlock(x.enc), TrailerFields(x.resp.trailers)), x.max);
  }

  lemma {:induction false} TranscriptFits(xs: seq<Exchange>, tb: Tables)
    requires forall x :: x in xs ==> Proper(x, tb)
    ensures forall f :: f in Transcript(xs) ==> Fits(f)
  {
    hide Talk, Proper, Fits;
    if |xs| > 0 {
      assert xs[|xs| - 1] in xs;
      TranscriptFits(xs[..|xs| - 1], tb);
      AnswerFits(xs[|xs| - 1], tb);
    }
  }

  lemma HelloFits()
    ensures forall f :: f in Hello() ==> Fits(f)
    ensures NoUpdates(Hello())
  {
    FourOfThem();
  }

  /** A session fed a serialised list of frames in any pieces has processed that list. */
  lemma FedInPieces(s: Session, fs: seq<Frame>, chunks: seq<seq<byte>>)
    requires (forall f :: f in fs ==> Fits(f)) && Concat(chunks) == Serialize(fs)
    ensures FeedAll(Inbox(s, []), chunks).session == Run(s, fs)
  {
    hide Run, Parse, Serialize, FeedAll, Concat, Fits;
    ChunkingIrrelevant(Inbox(s, []), chunks);
    var wire := Serialize(fs);
    assert [] + wire == wire && wire + [] == wire;
    SerializeParse(fs, []);
    NothingNew([]);
    assert fs + [] == fs;
  }

  /** One completion per dispatched request, with what the client hears of the handler's response. */
  function AnswersTo(tb: Tables, ds: seq<Dispatch>, handler: Request -> Response): seq<Completion> {
    seq(|ds|, i requires 0 <= i < |ds| => Answered(ds[i].sid, Heard(tb, handler(ds[i].req))))
  }

  lemma {:induction false} SettledAre(tb: Tables, xs: seq<Exchange>, ds: seq<Dispatch>, handler: Request -> Response)
    requires |xs| == |ds| && forall i :: 0 <= i < |xs| ==> xs[i].sid == ds[i].sid && xs[i].resp == handler(ds[i].req)
    ensures Settled(tb, xs) == AnswersTo(tb, ds, handler)
  {
    hide Heard;
    if |xs| > 0 {
      SettledAre(tb, xs[..|xs| - 1], ds[..|ds| - 1], handler);
    }
  }

  lemma StillAwaiting(a: Stream, b: Stream)
    requires Awaiting(a) && SameTalk(b, a)
    ensures Awaiting(b)
  {
  }

  /** Once the greeting is heard, every stream that will be answered still waits. */
  lemma AllAwaiting(tb: Tables, c: Session, c1: Session, s: Session, xs: seq<Exchange>, ops: seq<ClientOp>,
        handler: Request -> Response)
    requires Waits(c, |Expected(tb, ops)|) && Speaking(tb, s, xs, Expected(tb, ops), handler) && Unmoved(c, c1)
    ensures Ordered(xs)
    ensures forall x :: x in xs ==> Proper(x, tb) && x.sid in c1.streams && Awaiting(c1.streams[x.sid])
  {
    hide Expected, Transcript, Hello, Proper, Awaiting;
    var ds := Expected(tb, ops);
    forall i | 0 <= i < |ds| ensures ds[i].sid == 2 * i + 1 {
      ExpectedSids(tb, ops, i);
    }
    forall x | x in xs ensures Proper(x, tb) && x.sid in c1.streams && Awaiting(c1.streams[x.sid]) {
      var i :| 0 <= i < |xs| && xs[i] == x;
      assert x.sid == 2 * i + 1;
      StillAwaiting(c.streams[x.sid], c1.streams[x.sid]);
    }
  }

  /** What a client that has submitted makes of all its server says. */
  lemma ConversationHeard(tb: Tables, c: Session, s: Session, xs: seq<Exchange>, ops: seq<ClientOp>,
        handler: Request -> Response)
    requires Waits(c, |Expected(tb, ops)|) && c.encoder.tables == tb && Speaking(tb, s, xs, Expected(tb, ops), handler)
    ensures var c' := Run(c, s.output);
            && (c'.alive <==> DEFAULT_WINDOW + Announced(s.output, 0) <= MAX_WINDOW_SIZE)
            && (c'.alive ==> c'.completed == AnswersTo(tb, Expected(tb, ops), handler))
            && c'.completed <= AnswersTo(tb, Expected(tb, ops), handler)
    ensures Announced(s.output, 0) == Announced(Transcript(xs), 0)
    ensures forall f :: f in s.output ==> Fits(f)
  {
    hide Run, Expected, Transcript, Announced, Hello, Proper, AnswersTo, Fits, Awaiting, Ordered;
    var ds := Expected(tb, ops);
    HelloHeard(c);
    var c1 := Run(c, Hello());
    RunConcat(c, Hello(), Transcript(xs));
    AnnouncedConcat(Hello(), Transcript(xs), 0);
    HelloFits();
    AnnouncedNone(Hello(), 0);
    AllAwaiting(tb, c, c1, s, xs, ops, handler);
    TranscriptFits(xs, tb);
    TranscriptHeard(c1, tb, xs);
    SettledAre(tb, xs, ds, handler);
    assert [] + AnswersTo(tb, ds, handler) == AnswersTo(tb, ds, handler);
  }

  /** The client never debits its send window: it survives these submissions exactly when this holds of their sizes. */
  ghost predicate Affordable(ops: seq<ClientOp>) {
    BodyBytes(ops) + WindowAfter(ops) <= MAX_WINDOW_SIZE
  }

  lemma {:induction false} CountedIsFull(w: int, n: nat, max: FrameLimit)
    requires Full(w)
    ensures Full(Counted(w, n, max))
    decreases n
  {
    hide Refill;
    if n > max {
      CountedIsFull(Topped(w, max), n - max, max);
    }
  }

  /** Bodies of 2^31 - 65536 bytes in all are always affordable, more than 2^31 - 32768 never are. */
  lemma {:induction false} AffordableBounds(ops: seq<ClientOp>)
    ensures Full(WindowAfter(ops))
    ensures BodyBytes(ops) <= MAX_WINDOW_SIZE - DEFAULT_WINDOW ==> Affordable(ops)
    ensures BodyBytes(ops) > MAX_WINDOW_SIZE - DEFAULT_WINDOW / 2 ==> !Affordable(ops)
  {
    hide Counted;
    if |ops| > 0 {
      AffordableBounds(ops[..|ops| - 1]);
      if ops[|ops| - 1].Submit? {
        CountedIsFull(WindowAfter(ops[..|ops| - 1]), |ops[|ops| - 1].req.body|, 16384);
      }
    }
  }

  /**
    Round trip: whatever requests a client submits, with both byte streams cut in any way, its promises are settled in
    the order of the requests, each with the response the handler gave to that request. The client stays alive exactly
    as long as the credit the server announces for the request bodies fits its window, which the sizes of the bodies
    tell beforehand.
   */
  lemma RoundTrip(tb: Tables, onClient: Request -> Response, onServer: Request -> Response, ops: seq<ClientOp>,
                  there: seq<seq<byte>>, back: seq<seq<byte>>)
    requires Addressable(tb) && OrdinaryRun(NewSession(Client, tb, onClient), ops)
             && forall op :: op in ops ==> op.Submit?
    requires forall r :: Sizable(onServer(r))
    requires Concat(there) == Serialize(ClientRun(NewSession(Client, tb, onClient), ops).output)
    requires Concat(back) == Serialize(FeedAll(Inbox(NewSession(Server, tb, onServer), []), there).session.output)
    ensures var c := ClientRun(NewSession(Client, tb, onClient), ops);
            var s := FeedAll(Inbox(NewSession(Server, tb, onServer), []), there).session;
            var c' := FeedAll(Inbox(c, []), back).session;
            && s.alive && s.dispatched == Expected(tb, ops)
            && (c'.alive <==> DEFAULT_WINDOW + Announced(s.output, 0) <= MAX_WINDOW_SIZE)
            && (c'.alive <==> Affordable(ops))
            && (c'.alive ==> c'.completed == AnswersTo(tb, Expected(tb, ops), onServer))
            && c'.completed <= AnswersTo(tb, Expected(tb, ops), onServer)
  {
    hide Run, ClientRun, OrdinaryRun, Serialize, NewSession, Expected, Announced, FeedAll, Concat, Speaking, Waits,
      Sizable, AnswersTo, Fits, Transcript, BodyBytes, WindowAfter;
    var c, s0 := ClientRun(NewSession(Client, tb, onClient), ops), NewSession(Server, tb, onServer);
    StepByStep(tb, onClient, onServer, ops);
    SubmissionsWithinCredit(tb, onClient, ops);
    FedInPieces(s0, c.output, there);
    var s := Run(s0, c.output);
    var xs := ServerTalks(tb, onClient, onServer, ops);
    ClientWaits(tb, onClient, ops);
    ConversationHeard(tb, c, s, xs, ops, onServer);
    FedInPieces(c, s.output, back);
  }
}
