/**
  What a session says about the connection (sections 6.4, 6.7 and 6.8 of RFC 7540): every PING is answered with its own
  eight bytes, a session leaves with the error its peer made and the highest stream it has seen begun, and a reset
  settles the promise that waits for it. An observer of the wire knows all three.
 */
module H2Control {
  import opened Bytes
  import opened DynamicTable
  import opened H2Frame
  import opened HttpTypes
  import opened Hpack
  import opened H2Session
  import opened H2Books
  import opened H2Splitting
  import H2Atomicity
  import H2EndToEnd

  // ---------------------------------------------------------------- what a session has said

  /** The stream, the last stream named and the error code of a GOAWAY frame. */
  datatype Goodbye = Goodbye(sid: nat, last: nat, code: nat)

  function PongsIn(fs: seq<Frame>): seq<Frame> {
    if |fs| == 0 then []
    else PongsIn(fs[..|fs| - 1]) + if fs[|fs| - 1].kind == 0x6 then [fs[|fs| - 1]] else []
  }

  /** A GOAWAY frame too short to name a stream and a code would name none. */
  function GoodbyesIn(fs: seq<Frame>): seq<Goodbye> {
    if |fs| == 0 then []
    else
      var f := fs[|fs| - 1];
      GoodbyesIn(fs[..|fs| - 1])
      + if f.kind != 0x7 then []
        else [if |f.payload| < 8 then Goodbye(f.sid, 0, 0)
              else Goodbye(f.sid, From32(f.payload), From32(f.payload[4..]))]
  }

  function ResetsIn(cs: seq<Completion>): seq<nat> {
    if |cs| == 0 then []
    else ResetsIn(cs[..|cs| - 1]) + if cs[|cs| - 1].Reset? then [cs[|cs| - 1].sid] else []
  }

  /** A stream reset by this side, and the error code. */
  datatype Refusal = Refusal(sid: nat, code: nat)

  function RefusalsIn(fs: seq<Frame>): seq<Refusal> {
    if |fs| == 0 then []
    else
      var f := fs[|fs| - 1];
      RefusalsIn(fs[..|fs| - 1])
      + if f.kind != 0x3 then []
        else [if |f.payload| != 4 then Refusal(f.sid, 0) else Refusal(f.sid, From32(f.payload))]
  }

  datatype Sayings = Sayings(pongs: seq<Frame>, goodbyes: seq<Goodbye>, refusals: seq<Refusal>, resets: seq<nat>)

  function SaidBy(s: Session): Sayings {
    Sayings(PongsIn(s.output), GoodbyesIn(s.output), RefusalsIn(s.output), ResetsIn(s.completed))
  }

  function Plus(a: Sayings, b: Sayings): Sayings {
    Sayings(a.pongs + b.pongs, a.goodbyes + b.goodbyes, a.refusals + b.refusals, a.resets + b.resets)
  }

  function Silence(): Sayings {
    Sayings([], [], [], [])
  }

  // ---------------------------------------------------------------- what the peer has caused

  predicate Bit(f: Frame, value: nat)
    requires value > 0
  {
    f.flags / value % 2 == 1
  }

  /** The error in the padding of a frame, or in the priority behind it (sections 6.1 and 6.2). */
  function PaddingError(f: Frame): Option<nat> {
    if !Bit(f, 0x8) then None
    else if f.payload == [] then Some(6)
    else if |f.payload| <= f.payload[0] then Some(1)
    else None
  }

  function PriorityError(f: Frame): Option<nat> {
    var rest := |f.payload| - if Bit(f, 0x8) && f.payload != [] then 1 + f.payload[0] as int else 0;
    if PaddingError(f).Some? then PaddingError(f) else if Bit(f, 0x20) && rest < 5 then Some(6) else None
  }

  /** The first forbidden setting: a window too large is a flow-control error, a frame size out of range another one. */
  function SettingError(xs: seq<Setting>): Option<nat> {
    if |xs| == 0 then None
    else if xs[0].id == 4 && xs[0].value >= 0x8000_0000 then Some(3)
    else if xs[0].id == 5 && !(0x4000 <= xs[0].value < 0x100_0000) then Some(1)
    else SettingError(xs[1..])
  }

  /** The connection error of a frame. */
  function Blame(s: Session, f: Frame): Option<nat> {
    if s.contSid != 0 then if f.kind == 0x9 && f.sid == s.contSid && f.sid in s.streams then None else Some(1)
    else if f.kind in {0x0, 0x1} && f.sid == 0 then Some(1)
    else if f.kind == 0x0 then if f.sid in s.streams then PaddingError(f) else None
    else if f.kind == 0x1 then PriorityError(f)
    else if f.kind == 0x3 then if |f.payload| == 4 then None else Some(6)
    else if f.kind == 0x4 then
      if f.sid != 0 then Some(1)
      else if Bit(f, 0x1) then None
      else if |f.payload| % 6 != 0 then Some(6)
      else SettingError(ParseSettings(f.payload))
    else if f.kind == 0x5 then if s.mode.Server? then Some(1) else None
    else if f.kind == 0x6 then if f.sid != 0 then Some(1) else if |f.payload| != 8 then Some(6) else None
    else if f.kind == 0x8 then
      if |f.payload| != 4 then Some(6)
      else
        var n := From32(f.payload) % 0x8000_0000;
        if f.sid != 0 then None
        else if n == 0 then Some(1)
        else if s.connSend + n >= 0x8000_0000 then Some(3)
        else None
    else if f.kind == 0x9 then Some(1)
    else None
  }

  /**
    The error of a stream, for which it is reset: data on one not known, and increments of zero or beyond the limit.
   */
  function StreamError(s: Session, f: Frame): Option<nat> {
    if s.contSid != 0 || f.sid == 0 then None
    else if f.kind == 0x0 && f.sid !in s.streams then Some(5)
    else if f.kind == 0x8 && |f.payload| == 4 then
      var n := From32(f.payload) % 0x8000_0000;
      if n == 0 then Some(1)
      else if f.sid in s.streams && s.streams[f.sid].sendWindow + n >= 0x8000_0000 then Some(3)
      else None
    else None
  }

  /** What an event makes a session say, last being the highest stream its peer has begun. */
  function Due(s: Session, e: Event, last: nat): Sayings {
    if !e.Arrive? || !s.alive then Silence()
    else
      var f := e.f;
      var heard := s.contSid == 0;
      Sayings(
        if heard && f.kind == 0x6 && Blame(s, f).None? && !Bit(f, 0x1) then [Frame(0x6, 0x1, 0, f.payload)] else [],
        match Blame(s, f) case None => [] case Some(code) => [Goodbye(0, last, code)],
        match StreamError(s, f) case None => [] case Some(code) => [Refusal(f.sid, code)],
        if heard && f.kind == 0x3 && Blame(s, f).None? && f.sid in s.streams && s.streams[f.sid].promise
        then [f.sid] else [])
  }

  /** A frame that begins a stream on a server, or begins it again. */
  predicate Begins(s: Session, e: Event) {
    e.Arrive? && s.alive && s.mode.Server? && s.contSid == 0 && e.f.kind == 0x1 && Blame(s, e.f).None?
  }

  /** The highest stream the peer of a server has begun. */
  function Highest(s: Session, es: seq<Event>): nat {
    if |es| == 0 then 0
    else
      var front, e := es[..|es| - 1], es[|es| - 1];
      if Begins(Reach(s, front), e) && e.f.sid > Highest(s, front) then e.f.sid else Highest(s, front)
  }

  function AllDue(s: Session, es: seq<Event>): Sayings {
    if |es| == 0 then Silence()
    else
      var front, e := es[..|es| - 1], es[|es| - 1];
      Plus(AllDue(s, front), Due(Reach(s, front), e, Highest(s, front)))
  }

  // ---------------------------------------------------------------- lists

  lemma {:induction false} PongsConcat(a: seq<Frame>, b: seq<Frame>)
    ensures PongsIn(a + b) == PongsIn(a) + PongsIn(b)
    decreases |b|
  {
    if |b| == 0 {
      assert a + b == a;
    } else {
      PongsConcat(a, b[..|b| - 1]);
      assert (a + b)[..|a + b| - 1] == a + b[..|b| - 1];
    }
  }

  lemma {:induction false} GoodbyesConcat(a: seq<Frame>, b: seq<Frame>)
    ensures GoodbyesIn(a + b) == GoodbyesIn(a) + GoodbyesIn(b)
    decreases |b|
  {
    if |b| == 0 {
      assert a + b == a;
    } else {
      GoodbyesConcat(a, b[..|b| - 1]);
      assert (a + b)[..|a + b| - 1] == a + b[..|b| - 1];
    }
  }

  lemma {:induction false} RefusalsConcat(a: seq<Frame>, b: seq<Frame>)
    ensures RefusalsIn(a + b) == RefusalsIn(a) + RefusalsIn(b)
    decreases |b|
  {
    if |b| == 0 {
      assert a + b == a;
    } else {
      RefusalsConcat(a, b[..|b| - 1]);
      assert (a + b)[..|a + b| - 1] == a + b[..|b| - 1];
    }
  }

  lemma {:induction false} ResetsConcat(a: seq<Completion>, b: seq<Completion>)
    ensures ResetsIn(a + b) == ResetsIn(a) + ResetsIn(b)
    decreases |b|
  {
    if |b| == 0 {
      assert a + b == a;
    } else {
      ResetsConcat(a, b[..|b| - 1]);
      assert (a + b)[..|a + b| - 1] == a + b[..|b| - 1];
    }
  }

  lemma {:induction false} NoneIn(fs: seq<Frame>)
    requires Plain(fs)
    ensures PongsIn(fs) == [] && GoodbyesIn(fs) == [] && RefusalsIn(fs) == []
  {
    if |fs| > 0 {
      assert fs[|fs| - 1] in fs;
      NoneIn(fs[..|fs| - 1]);
    }
  }

  // ---------------------------------------------------------------- quiet steps

  /** No PING, GOAWAY or RST_STREAM frame among these. */
  ghost predicate Plain(fs: seq<Frame>) {
    forall f :: f in fs ==> f.kind != 0x3 && f.kind != 0x6 && f.kind != 0x7
  }

  /** Nothing said about the connection, nothing reset, and no stream begun. */
  ghost predicate Quiet(s: Session, s': Session) {
    SaidBy(s') == SaidBy(s) && s'.lastClient == s.lastClient && s'.mode == s.mode
  }

  lemma QuietHere(s: Session, s': Session, fs: seq<Frame>)
    requires s'.output == s.output + fs && Plain(fs)
    requires s'.completed == s.completed && s'.lastClient == s.lastClient && s'.mode == s.mode
    ensures Quiet(s, s')
  {
    PongsConcat(s.output, fs);
    GoodbyesConcat(s.output, fs);
    RefusalsConcat(s.output, fs);
    NoneIn(fs);
    Nothing(SaidBy(s));
  }

  lemma Unsaid(s: Session, s': Session)
    requires s'.output == s.output && s'.completed == s.completed && s'.lastClient == s.lastClient && s'.mode == s.mode
    ensures Quiet(s, s')
  {
  }

  lemma SendQuiet(s: Session, sid: nat, end: bool, fs: seq<Field>)
    ensures Quiet(s, SendFields(s, sid, end, fs))
  {
    hide HeaderFrames, EncodeBlock, Quiet, HasFlag;
    var frames := HeaderFrames(sid, end, EncodeBlock(s.encoder, fs), s.peerMaxFrame);
    HeaderSplit(sid, end, EncodeBlock(s.encoder, fs), s.peerMaxFrame);
    QuietHere(s, SendFields(s, sid, end, fs), frames);
  }

  lemma DataQuiet(s: Session, sid: nat, end: bool, body: seq<byte>, max: FrameLimit)
    ensures Quiet(s, Enqueue(s, DataFrames(sid, end, body, max)))
  {
    hide DataFrames, Quiet, HasFlag;
    DataSplit(sid, end, body, max);
    QuietHere(s, Enqueue(s, DataFrames(sid, end, body, max)), DataFrames(sid, end, body, max));
  }

  lemma ResponseQuiet(s: Session, sid: nat, resp: Response)
    ensures Quiet(s, SubmitResponse(s, sid, resp))
  {
    hide SendFields, DataFrames, ResponseFields, TrailerFields;
    var hasTrailers := resp.trailers != [];
    var s1 := SendFields(s, sid, resp.body == [] && !hasTrailers, ResponseFields(resp, true));
    SendQuiet(s, sid, resp.body == [] && !hasTrailers, ResponseFields(resp, true));
    var s2 := Enqueue(s1, DataFrames(sid, !hasTrailers, resp.body, s.peerMaxFrame));
    DataQuiet(s1, sid, !hasTrailers, resp.body, s.peerMaxFrame);
    SendQuiet(s2, sid, true, TrailerFields(resp.trailers));
  }

  lemma EndQuiet(s: Session, sid: nat)
    requires sid in s.streams
    ensures Quiet(s, EndOfStream(s, sid))
  {
    hide SubmitResponse;
    var st := s.streams[sid].(endStream := true);
    if s.mode.Server? {
      var req := st.req.(body := st.body);
      var s1 := WithStream(s, sid, st);
      var s2 := WithStream(s1, sid, st.(req := req, body := [])).(dispatched := s1.dispatched + [Dispatch(sid, req)]);
      ResponseQuiet(s2, sid, s.handler(req));
    } else if st.promise {
      ResetsConcat(s.completed, [Answered(sid, st.resp.(body := st.body))]);
      OneAnswer(Answered(sid, st.resp.(body := st.body)));
      assert ResetsIn(s.completed) + [] == ResetsIn(s.completed);
    }
  }

  lemma OneAnswer(c: Completion)
    ensures ResetsIn([c]) == if c.Reset? then [c.sid] else []
  {
    assert [c][..0] == [];
  }

  lemma BlockQuiet(s: Session, sid: nat, block: seq<byte>, end: bool)
    requires sid in s.streams
    ensures Quiet(s, ApplyBlock(s, sid, block, end))
  {
    hide EndOfStream, DecodeBlock, ReceiveFields, ReceiveResponse;
    var st := s.streams[sid];
    var d := DecodeBlock(s.encoder.tables, s.dyn, block);
    if end {
      if s.mode.Server? {
        EndQuiet(WithStream(s.(dyn := d.dyn), sid,
          st.(headersComplete := true, req := ReceiveFields(st.req, d.headers).(version := Http2))), sid);
      } else {
        EndQuiet(WithStream(s.(dyn := d.dyn), sid,
          st.(headersComplete := true, resp := ReceiveResponse(st.resp, d.headers).(version := Http2))), sid);
      }
    }
  }

  lemma CountQuiet(s: Session, sid: nat, n: nat)
    requires sid in s.streams
    ensures Quiet(s, CountData(s, sid, n)) && sid in CountData(s, sid, n).streams
  {
    hide Refill, Quiet, Be32;
    var st := s.streams[sid];
    var fs := RefillFrames(0, Refill(s.connRecv - n)) + RefillFrames(sid, Refill(st.recvWindow - n));
    QuietHere(s, CountData(s, sid, n), fs);
  }

  // ---------------------------------------------------------------- leaving

  lemma Says32(a: nat, b: nat, rest: seq<byte>)
    requires a < WORD32 && b < WORD32
    ensures var p := Be32(a) + Be32(b) + rest; |p| >= 8 && From32(p) == a && From32(p[4..]) == b
  {
    hide Be32, From32;
    var p := Be32(a) + Be32(b) + rest;
    assert p == Be32(a) + (Be32(b) + rest);
    Be32RoundTrip(a, Be32(b) + rest);
    assert p[4..] == Be32(b) + rest;
    Be32RoundTrip(b, rest);
  }

  /** One GOAWAY frame on the connection, naming the highest stream and the error, and the session is over. */
  ghost predicate Leaves(s: Session, s': Session, code: nat) {
    && !s'.alive && s'.lastClient == s.lastClient && s'.mode == s.mode
    && SaidBy(s') == Plus(SaidBy(s), Sayings([], [Goodbye(0, s.lastClient, code)], [], []))
  }

  lemma GoawayLeaves(s: Session, code: nat, debug: string)
    requires s.lastClient < SID_LIMIT && code < WORD32
    ensures Leaves(s, Goaway(s, code, debug), code)
  {
    hide Be32, From32, Ascii;
    var f := GoawayFrame(s.lastClient, code, Ascii(debug));
    Says32(s.lastClient, code, Ascii(debug));
    Same(s.lastClient);
    PongsConcat(s.output, [f]);
    GoodbyesConcat(s.output, [f]);
    assert [f][..0] == [];
    RefusalsConcat(s.output, [f]);
    assert PongsIn([f]) == [] && GoodbyesIn([f]) == [Goodbye(0, s.lastClient, code)] && RefusalsIn([f]) == [];
    Nothing(SaidBy(s));
  }

  lemma Same(n: nat)
    requires n < SID_LIMIT
    ensures n % SID_LIMIT == n
  {
  }

  lemma LeavesFrom(a: Session, b: Session, c: Session, code: nat)
    requires Quiet(a, b) && Leaves(b, c, code)
    ensures Leaves(a, c, code)
  {
  }

  // ---------------------------------------------------------------- one frame

  /** What a frame makes a session say, and whether it leaves with it. */
  ghost predicate Answers(s: Session, f: Frame, s': Session) {
    match Blame(s, f)
    case Some(code) => Leaves(s, s', code)
    case None => SaidBy(s') == Plus(SaidBy(s), Due(s, Arrive(f), s.lastClient)) && s'.mode == s.mode
                 && s'.lastClient == (if Begins(s, Arrive(f)) && f.sid > s.lastClient then f.sid else s.lastClient)
  }

  lemma NothingDue(s: Session, f: Frame, s': Session)
    requires s.alive && Blame(s, f).None? && StreamError(s, f).None? && Quiet(s, s') && !Begins(s, Arrive(f))
    requires s.contSid != 0 || (f.kind != 0x6 && f.kind != 0x3)
    ensures Answers(s, f, s')
  {
    hide Blame;
    Nothing(SaidBy(s));
  }

  lemma RefusalSaid(s: Session, sid: nat, code: nat)
    requires code < WORD32
    ensures SaidBy(Enqueue(s, [RstStreamFrame(sid, code)]))
            == Plus(SaidBy(s), Sayings([], [], [Refusal(sid, code)], []))
  {
    hide Be32, From32;
    var f := RstStreamFrame(sid, code);
    Be32RoundTrip(code, []);
    assert Be32(code) + [] == Be32(code);
    PongsConcat(s.output, [f]);
    GoodbyesConcat(s.output, [f]);
    RefusalsConcat(s.output, [f]);
    assert [f][..0] == [];
    assert PongsIn([f]) == [] && GoodbyesIn([f]) == [] && RefusalsIn([f]) == [Refusal(sid, code)];
    Nothing(SaidBy(s));
  }

  lemma RefusalDue(s: Session, f: Frame, s': Session, code: nat)
    requires s.alive && Blame(s, f).None? && StreamError(s, f) == Some(code)
    requires s'.lastClient == s.lastClient && s'.mode == s.mode
    requires SaidBy(s') == Plus(SaidBy(s), Sayings([], [], [Refusal(f.sid, code)], []))
    ensures Answers(s, f, s')
  {
    hide Blame, SaidBy;
  }

  lemma PaddingIs(f: Frame)
    ensures Unpadded(f) == match PaddingError(f)
      case Some(code) => Fault(code)
      case None => Content(if Bit(f, 0x8) then f.payload[1..|f.payload| - f.payload[0]] else f.payload)
  {
  }

  lemma PriorityIs(f: Frame)
    ensures Fragment(f).Fault? <==> PriorityError(f).Some?
    ensures Fragment(f).Fault? ==> Some(Fragment(f).code) == PriorityError(f)
  {
    PaddingIs(f);
  }

  lemma CodesFit(s: Session, f: Frame)
    ensures Blame(s, f).Some? ==> Blame(s, f).value in {1, 3, 6}
  {
    hide From32, Bit, ParseSettings;
    CodeFits(ParseSettings(f.payload));
  }

  lemma {:induction false} CodeFits(xs: seq<Setting>)
    ensures SettingError(xs).Some? ==> SettingError(xs).value in {1, 3}
  {
    if |xs| > 0 {
      CodeFits(xs[1..]);
    }
  }

  lemma DataAnswers(s: Session, f: Frame)
    requires s.alive && s.contSid == 0 && f.kind == DATA && s.lastClient < SID_LIMIT
    ensures Answers(s, f, HandleData(s, f))
  {
    hide Leaves, Quiet, SaidBy, Goaway, Unpadded, CountData, EndOfStream, HasFlag, Bit, Answers, Ascii;
    var s' := HandleData(s, f);
    PaddingIs(f);
    if f.sid == 0 {
      GoawayLeaves(s, 1, "DATA on stream 0");
      AnswersLeaving(s, f, s', 1);
    } else if f.sid !in s.streams {
      RefusalSaid(s, f.sid, STREAM_CLOSED);
      RefusalDue(s, f, s', STREAM_CLOSED);
    } else if Unpadded(f).Fault? {
      GoawayLeaves(s, Unpadded(f).code, "");
      AnswersLeaving(s, f, s', Unpadded(f).code);
    } else {
      DataReceived(s, f);
      NothingDue(s, f, s');
    }
  }

  lemma AnswersLeaving(s: Session, f: Frame, s': Session, code: nat)
    requires Blame(s, f) == Some(code) && Leaves(s, s', code)
    ensures Answers(s, f, s')
  {
  }

  lemma DataReceived(s: Session, f: Frame)
    requires f.sid != 0 && f.sid in s.streams && Unpadded(f).Content?
    ensures Quiet(s, HandleData(s, f))
  {
    hide Unpadded, CountData, EndOfStream, HasFlag;
    var st, data := s.streams[f.sid], Unpadded(f).data;
    var s0 := WithStream(s, f.sid, st.(body := st.body + data));
    CountQuiet(s0, f.sid, |data|);
    EndQuiet(CountData(s0, f.sid, |data|), f.sid);
  }

  lemma HeadersAnswer(s: Session, f: Frame)
    requires s.alive && s.contSid == 0 && f.kind == HEADERS && s.lastClient < SID_LIMIT
    ensures Answers(s, f, HandleHeaders(s, f))
  {
    hide Leaves, Quiet, SaidBy, Goaway, Fragment, StartBlock, Bit, Answers, Ascii, PriorityError, FreshStream;
    var s' := HandleHeaders(s, f);
    PriorityIs(f);
    CodesFit(s, f);
    if f.sid == 0 {
      GoawayLeaves(s, 1, "HEADERS on stream 0");
      AnswersLeaving(s, f, s', 1);
    } else if Fragment(f).Fault? {
      GoawayLeaves(s, Fragment(f).code, "");
      AnswersLeaving(s, f, s', Fragment(f).code);
    } else if s.mode.Server? || f.sid in s.streams {
      H2Atomicity.HeadersAre(s, f);
      StartQuiet(H2Atomicity.Begun(s, f.sid), f, Fragment(f).data);
      HeadersBegin(s, f, s');
    } else {
      Unsaid(s, s);
      NothingDue(s, f, s');
    }
  }

  lemma StartQuiet(s: Session, f: Frame, fragment: seq<byte>)
    requires f.sid in s.streams
    ensures Quiet(s, StartBlock(s, f, fragment))
  {
    hide ApplyBlock, HasFlag;
    if HasFlag(f, END_HEADERS) {
      BlockQuiet(s, f.sid, fragment, HasFlag(f, END_STREAM));
    }
  }

  lemma HeadersBegin(s: Session, f: Frame, s': Session)
    requires s.alive && s.contSid == 0 && f.kind == HEADERS && f.sid != 0 && Blame(s, f).None?
    requires Quiet(H2Atomicity.Begun(s, f.sid), s')
    ensures Answers(s, f, s')
  {
    hide Blame, FreshStream;
    Nothing(SaidBy(s));
  }

  lemma ContinuationAnswers(s: Session, f: Frame)
    requires s.alive && s.contSid != 0 && s.lastClient < SID_LIMIT
    ensures Answers(s, f, ProcessFrame(s, f))
  {
    hide Leaves, Quiet, SaidBy, Goaway, ApplyBlock, HasFlag, Answers, Ascii;
    var s' := ProcessFrame(s, f);
    if f.kind != CONTINUATION || f.sid != s.contSid {
      GoawayLeaves(s, 1, "Expected CONTINUATION");
      AnswersLeaving(s, f, s', 1);
    } else if f.sid !in s.streams {
      GoawayLeaves(s, 1, "CONTINUATION for unknown stream");
      AnswersLeaving(s, f, s', 1);
    } else {
      NextQuiet(s, f);
      NothingDue(s, f, s');
    }
  }

  lemma NextQuiet(s: Session, f: Frame)
    requires f.sid in s.streams
    ensures Quiet(s, HandleContinuation(s, f))
  {
    hide ApplyBlock, HasFlag;
    var st := s.streams[f.sid];
    var closed := WithStream(s, f.sid, st.(pendingBlock := [])).(contSid := 0);
    BlockQuiet(closed, f.sid, st.pendingBlock + f.payload, st.endStream);
  }

  lemma {:induction false} SettingsAnswer(s: Session, xs: seq<Setting>)
    requires s.alive && s.lastClient < SID_LIMIT
    ensures var s' := ApplySettings(s, xs);
            match SettingError(xs)
            case Some(code) => Leaves(s, s', code)
            case None => Quiet(s, s') && s'.alive
    decreases |xs|
  {
    hide ApplySetting, Quiet, Leaves, SaidBy;
    if |xs| == 0 {
      Unsaid(s, s);
    } else {
      SettingAnswers(s, xs[0]);
      var s1 := ApplySetting(s, xs[0]);
      if SettingError([xs[0]]).None? {
        QuietLast(s, s1);
        SettingsAnswer(s1, xs[1..]);
        OneSetting(xs);
        if SettingError(xs).Some? {
          LeavesFrom(s, s1, ApplySettings(s, xs), SettingError(xs).value);
        } else {
          QuietTrans(s, s1, ApplySettings(s, xs));
        }
      } else {
        OneSetting(xs);
        LeavesDead(s, s1, SettingError([xs[0]]).value);
      }
    }
  }

  lemma QuietLast(s: Session, s': Session)
    requires Quiet(s, s')
    ensures s'.lastClient == s.lastClient
  {
  }

  lemma QuietTrans(a: Session, b: Session, c: Session)
    requires Quiet(a, b) && Quiet(b, c)
    ensures Quiet(a, c)
  {
  }

  lemma LeavesDead(s: Session, s': Session, code: nat)
    requires Leaves(s, s', code)
    ensures !s'.alive
  {
  }

  lemma OneSetting(xs: seq<Setting>)
    requires |xs| > 0
    ensures SettingError(xs) == if SettingError([xs[0]]).Some? then SettingError([xs[0]]) else SettingError(xs[1..])
  {
    assert [xs[0]][1..] == [];
    assert SettingError([]) == None;
  }

  lemma SettingAnswers(s: Session, x: Setting)
    requires s.alive && s.lastClient < SID_LIMIT
    ensures var s' := ApplySetting(s, x);
            match SettingError([x])
            case Some(code) => Leaves(s, s', code)
            case None => Quiet(s, s') && s'.alive
  {
    hide Quiet, Leaves, Goaway, ShiftWindows, Resize, Kept, Ascii;
    GoawayLeaves(s, 3, "");
    GoawayLeaves(s, 1, "Invalid MAX_FRAME_SIZE");
    assert [x][1..] == [];
    assert SettingError([]) == None;
    if SettingError([x]).None? {
      Unsaid(s, ApplySetting(s, x));
    }
  }

  lemma SettingsFrameAnswers(s: Session, f: Frame)
    requires s.alive && s.contSid == 0 && f.kind == SETTINGS && s.lastClient < SID_LIMIT
    ensures Answers(s, f, HandleSettings(s, f))
  {
    hide Leaves, Quiet, SaidBy, Goaway, ApplySettings, ParseSettings, Answers, SettingError, Ascii;
    var s' := HandleSettings(s, f);
    GoawayLeaves(s, 1, "SETTINGS on non-zero stream");
    GoawayLeaves(s, 6, "");
    Unsaid(s, s);
    if f.sid == 0 && !HasFlag(f, ACK) && |f.payload| % 6 == 0 {
      var xs := ParseSettings(f.payload);
      SettingsAnswer(s, xs);
      var s1 := ApplySettings(s, xs);
      if SettingError(xs).None? {
        QuietHere(s1, s', [SettingsAck()]);
        QuietTrans(s, s1, s');
      } else {
        LeavesDead(s, s1, SettingError(xs).value);
      }
    }
    if Blame(s, f).Some? {
      AnswersLeaving(s, f, s', Blame(s, f).value);
    } else {
      NothingDue(s, f, s');
    }
  }

  lemma PongSaid(s: Session, data: seq<byte>)
    ensures SaidBy(Enqueue(s, [PingAck(data)])) == Plus(SaidBy(s), Sayings([Frame(0x6, 0x1, 0, data)], [], [], []))
  {
    var pong := Frame(0x6, 0x1, 0, data);
    PongsConcat(s.output, [pong]);
    GoodbyesConcat(s.output, [pong]);
    assert [pong][..0] == [];
    RefusalsConcat(s.output, [pong]);
    assert PongsIn([pong]) == [pong] && GoodbyesIn([pong]) == [] && RefusalsIn([pong]) == [];
    var said := SaidBy(s);
    assert said.goodbyes + [] == said.goodbyes && said.resets + [] == said.resets;
  }

  lemma Nothing(said: Sayings)
    ensures Plus(said, Silence()) == said
  {
    assert said.pongs + [] == said.pongs && said.goodbyes + [] == said.goodbyes && said.resets + [] == said.resets;
    assert said.refusals + [] == said.refusals;
  }

  lemma PingAnswers(s: Session, f: Frame)
    requires s.alive && s.contSid == 0 && f.kind == PING && s.lastClient < SID_LIMIT
    ensures Answers(s, f, HandlePing(s, f))
  {
    hide Leaves, Goaway, Ascii, SaidBy, Plus;
    GoawayLeaves(s, 1, "PING on non-zero stream");
    GoawayLeaves(s, 6, "");
    if Blame(s, f).None? {
      PongSaid(s, f.payload);
      Nothing(SaidBy(s));
    }
  }

  lemma ResetAnswers(s: Session, f: Frame)
    requires s.alive && s.contSid == 0 && f.kind == RST_STREAM && s.lastClient < SID_LIMIT
    ensures Answers(s, f, HandleRstStream(s, f))
  {
    hide Leaves, Goaway, Ascii;
    GoawayLeaves(s, 6, "");
    if Blame(s, f).None? {
      ResetsConcat(s.completed, [Reset(f.sid)]);
      OneAnswer(Reset(f.sid));
      Nothing(SaidBy(s));
    }
  }

  lemma UpdateAnswers(s: Session, f: Frame)
    requires s.alive && s.contSid == 0 && f.kind == WINDOW_UPDATE && s.lastClient < SID_LIMIT
    ensures Answers(s, f, HandleWindowUpdate(s, f))
  {
    hide Leaves, Quiet, SaidBy, Goaway, Answers, From32, Be32, Ascii;
    var s' := HandleWindowUpdate(s, f);
    GoawayLeaves(s, 6, "");
    GoawayLeaves(s, 1, "WINDOW_UPDATE 0 increment");
    if |f.payload| == 4 {
      var s1 := s.(connSend := s.connSend + ParseWindowUpdate(f.payload));
      Unsaid(s, s1);
      GoawayLeaves(s1, 3, "");
      LeavesFrom(s, s1, Goaway(s1, 3, ""), 3);
    }
    if Blame(s, f).Some? {
      AnswersLeaving(s, f, s', Blame(s, f).value);
    } else {
      StreamUpdateAnswers(s, f);
    }
  }

  lemma StreamUpdateAnswers(s: Session, f: Frame)
    requires s.alive && s.contSid == 0 && f.kind == WINDOW_UPDATE && Blame(s, f).None?
    ensures Answers(s, f, HandleWindowUpdate(s, f))
  {
    hide Quiet, SaidBy, From32, Be32, Answers, Ascii;
    var s' := HandleWindowUpdate(s, f);
    var n := ParseWindowUpdate(f.payload);
    if f.sid == 0 {
      Unsaid(s, s');
      NothingDue(s, f, s');
    } else if n == 0 {
      RefusalSaid(s, f.sid, PROTOCOL_ERROR);
      RefusalDue(s, f, s', PROTOCOL_ERROR);
    } else if f.sid in s.streams {
      var st := s.streams[f.sid];
      var s1 := WithStream(s, f.sid, st.(sendWindow := st.sendWindow + n));
      Unsaid(s, s1);
      SaidAlike(s, s1);
      RefusalSaid(s1, f.sid, FLOW_CONTROL_ERROR);
      if StreamError(s, f).Some? {
        RefusalDue(s, f, s', FLOW_CONTROL_ERROR);
      } else {
        NothingDue(s, f, s');
      }
    } else {
      Unsaid(s, s');
      NothingDue(s, f, s');
    }
  }

  lemma SaidAlike(s: Session, s': Session)
    requires Quiet(s, s')
    ensures SaidBy(s') == SaidBy(s)
  {
  }

  lemma PushAnswers(s: Session, f: Frame)
    requires s.alive && s.contSid == 0 && f.kind == PUSH_PROMISE && s.lastClient < SID_LIMIT
    ensures Answers(s, f, HandlePushPromise(s, f))
  {
    hide Leaves, Quiet, SaidBy, Goaway, Answers, From32, DecodeBlock, FreshStream, Ascii;
    GoawayLeaves(s, 1, "PUSH_PROMISE on server");
    if s.mode.Server? {
      AnswersLeaving(s, f, HandlePushPromise(s, f), 1);
    } else {
      Unsaid(s, HandlePushPromise(s, f));
      NothingDue(s, f, HandlePushPromise(s, f));
    }
  }

  lemma FrameAnswers(s: Session, f: Frame)
    requires s.alive && s.lastClient < SID_LIMIT
    ensures Answers(s, f, ProcessFrame(s, f))
  {
    hide HandleData, HandleHeaders, HandleContinuation, HandleSettings, HandlePing, HandleRstStream, HandleWindowUpdate,
      HandlePushPromise, Goaway, Leaves, Answers, Quiet, SaidBy, Bit, From32, ParseSettings, Ascii;
    if s.contSid != 0 {
      ContinuationAnswers(s, f);
    } else if f.kind == DATA {
      DataAnswers(s, f);
    } else if f.kind == HEADERS {
      HeadersAnswer(s, f);
    } else if f.kind == RST_STREAM {
      ResetAnswers(s, f);
    } else if f.kind == SETTINGS {
      SettingsFrameAnswers(s, f);
    } else if f.kind == PUSH_PROMISE {
      PushAnswers(s, f);
    } else if f.kind == PING {
      PingAnswers(s, f);
    } else if f.kind == WINDOW_UPDATE {
      UpdateAnswers(s, f);
    } else if f.kind == CONTINUATION {
      GoawayLeaves(s, 1, "Unexpected CONTINUATION");
      AnswersLeaving(s, f, ProcessFrame(s, f), 1);
    } else {
      Unsaid(s, ProcessFrame(s, f));
      NothingDue(s, f, ProcessFrame(s, f));
    }
  }

  // ---------------------------------------------------------------- whole runs

  lemma AskQuiet(s: Session, e: Event)
    requires !e.Arrive?
    ensures Quiet(s, Step(s, e))
  {
    hide SendFields, DataFrames, SubmitResponse, RequestFields, ResponseFields, TrailerFields, FreshStream, HasFlag;
    match e
    case Ask(req, keepOpen) =>
      var sid := s.nextSid;
      var s1 := WithStream(s, sid, StreamOf(s, sid).(phase := Open, promise := true)).(nextSid := sid + 2);
      var s2 := SendFields(s1, sid, req.body == [] && !keepOpen, RequestFields(req));
      SendQuiet(s1, sid, req.body == [] && !keepOpen, RequestFields(req));
      DataQuiet(s2, sid, true, req.body, s.peerMaxFrame);
    case Answer(sid, resp) => ResponseQuiet(s, sid, resp);
    case AnswerHead(sid, resp) => SendQuiet(s, sid, false, ResponseFields(resp, false));
    case More(sid, data, end) =>
      if data == [] {
        QuietHere(s, Step(s, e), [Frame(DATA, EndFlag(end), sid, [])]);
      } else {
        DataQuiet(s, sid, end, data, s.peerMaxFrame);
      }
    case Trail(sid, trailers) => SendQuiet(s, sid, true, TrailerFields(trailers));
  }

  /** What a session has said is what was due, its highest stream is the peer's, and a goodbye was its last word. */
  ghost predicate Spoken(s0: Session, es: seq<Event>) {
    var s := Reach(s0, es);
    && SaidBy(s) == AllDue(s0, es) && s.lastClient == Highest(s0, es) < SID_LIMIT
    && |SaidBy(s).goodbyes| <= 1
    && (SaidBy(s).goodbyes != [] ==> !s.alive && SaidBy(s).goodbyes[0].last == s.lastClient)
  }

  lemma StepSpoken(s0: Session, es: seq<Event>, e: Event)
    requires Spoken(s0, es) && Wire(e)
    ensures Spoken(s0, es + [e])
  {
    hide Step, SaidBy, Blame, Quiet;
    assert (es + [e])[..|es|] == es;
    var s := Reach(s0, es);
    Nothing(SaidBy(s));
    if e.Arrive? && s.alive {
      ArriveStep(s, e.f);
      FrameAnswers(s, e.f);
      if Blame(s, e.f).Some? {
        GoodbyeDue(s, e);
      }
    } else {
      StillQuiet(s, e);
    }
  }

  lemma ArriveStep(s: Session, f: Frame)
    requires s.alive
    ensures Step(s, Arrive(f)) == ProcessFrame(s, f)
  {
    hide ProcessFrame;
  }

  lemma GoodbyeDue(s: Session, e: Event)
    requires e.Arrive? && s.alive && Blame(s, e.f).Some?
    ensures Due(s, e, s.lastClient) == Sayings([], [Goodbye(0, s.lastClient, Blame(s, e.f).value)], [], [])
  {
    hide From32;
  }

  lemma StillQuiet(s: Session, e: Event)
    requires !e.Arrive? || !s.alive
    ensures SaidBy(Step(s, e)) == SaidBy(s) && Step(s, e).lastClient == s.lastClient
    ensures Step(s, e).alive ==> s.alive
  {
    hide ProcessFrame, SaidBy, SubmitRequest, SubmitResponse, SubmitResponseHeaders, SubmitData, SubmitTrailers;
    if e.Arrive? {
    } else {
      AskQuiet(s, e);
      AskAlive(s, e);
    }
  }

  lemma AskAlive(s: Session, e: Event)
    requires !e.Arrive?
    ensures Step(s, e).alive == s.alive
  {
    hide HeaderFrames, DataFrames, EncodeBlock, AfterBlock, RequestFields, ResponseFields, TrailerFields, FreshStream;
  }

  /**
    Over every run: the PING frames sent are the answers to those received, each with its own eight bytes; a session
    leaves at most once, naming the error of the frame it leaves for and the highest stream its peer has begun; and the
    promises settled by a reset are those that waited when it came.
   */
  lemma {:induction false} SaysWhatIsDue(mode: Mode, tb: Tables, handler: Request -> Response, es: seq<Event>)
    requires forall e :: e in es ==> Wire(e)
    ensures Spoken(NewSession(mode, tb, handler), es)
  {
    hide Spoken;
    if |es| == 0 {
      FirstSpoken(mode, tb, handler);
      assert es == [];
    } else {
      var front, e := es[..|es| - 1], es[|es| - 1];
      assert es == front + [e];
      SaysWhatIsDue(mode, tb, handler, front);
      StepSpoken(NewSession(mode, tb, handler), front, e);
    }
  }

  lemma FirstSpoken(mode: Mode, tb: Tables, handler: Request -> Response)
    ensures Spoken(NewSession(mode, tb, handler), [])
  {
    hide SettingsPayload;
    var s := NewSession(mode, tb, handler);
    NoneIn(s.output);
  }
}
