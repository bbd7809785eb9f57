/**
  A conversation in which everything overlaps: the client submits requests while bytes of earlier requests, answers and
  credit travel both ways, in pieces of any size and in any order.
 */
module H2TwoWay {
  import opened Bytes
  import opened H2Frame
  import opened HttpTypes
  import opened Hpack
  import opened H2Session
  import opened H2Books
  import opened H2Replies
  import opened H2EndToEnd
  import opened H2Responses
  import opened H2Answers
  import opened H2Commute
  import opened H2Ledger

  /** Bodies of this many bytes in all, one way and the other, are always affordable. */
  const LIMIT := MAX_WINDOW_SIZE - DEFAULT_WINDOW

  // ---------------------------------------------------------------- a server takes replies in silence

  ghost predicate Unheard(s: Session, s': Session) {
    && s'.output == s.output && s'.encoder == s.encoder && s'.peerMaxFrame == s.peerMaxFrame && s'.handler == s.handler
    && s'.connRecv == s.connRecv
  }

  lemma ResetSilent(s: Session, a: Frame)
    requires Receiver(s) && IsReset(a)
    ensures Unheard(s, ProcessFrame(s, a))
  {
    hide Ascii, HandleData, HandleHeaders;
  }

  lemma CreditSilent(s: Session, a: Frame)
    requires Receiver(s) && IsCredit(a)
    requires a.sid == 0 ==> s.connSend + ParseWindowUpdate(a.payload) <= MAX_WINDOW_SIZE
    requires a.sid != 0 && a.sid in s.streams ==>
               s.streams[a.sid].sendWindow + ParseWindowUpdate(a.payload) <= MAX_WINDOW_SIZE
    ensures Unheard(s, ProcessFrame(s, a))
  {
    hide Goaway, HandleData, HandleHeaders, ParseWindowUpdate;
  }

  /** Replies behind other frames, as long as no window overflows. */
  lemma {:induction false} RepliesSilent(tb: Tables, handler: Request -> Response, fs: seq<Frame>, rs: seq<Frame>)
    requires (forall f :: f in fs + rs ==> Tame(f)) && AllReplies(rs) && forall k :: Announced(fs + rs, k) <= LIMIT
    requires var s := Run(NewSession(Server, tb, handler), fs);
             Receiver(s) && s.connSend == DEFAULT_WINDOW + Announced(fs, 0)
    ensures Unheard(Run(NewSession(Server, tb, handler), fs), Run(NewSession(Server, tb, handler), fs + rs))
    decreases |rs|
  {
    hide ProcessFrame, Run, Announced, Tame, NewSession, IsReply, ParseWindowUpdate;
    var s0 := NewSession(Server, tb, handler);
    if |rs| == 0 {
      assert fs + rs == fs;
    } else {
      var a, more := rs[0], fs + [rs[0]];
      assert a in rs && a in fs + rs;
      assert more + rs[1..] == fs + rs;
      assert forall f :: f in fs ==> f in fs + rs;
      var s := Run(s0, fs);
      RunConcat(s0, fs, [a]);
      RunOne(s, a);
      MoreAnnounced(fs, rs, 0);
      ReplyTaken(s, a);
      OneSilent(tb, handler, fs, rs);
      AnnouncedConcat(fs, [a], 0);
      RepliesSilent(tb, handler, more, rs[1..]);
    }
  }

  lemma MoreAnnounced(fs: seq<Frame>, rs: seq<Frame>, k: nat)
    requires |rs| > 0
    ensures Announced(fs, k) + Announced([rs[0]], k) <= Announced(fs + rs, k)
  {
    hide Announced;
    AnnouncedConcat(fs, rs, k);
    AnnouncedConcat([rs[0]], rs[1..], k);
    assert [rs[0]] + rs[1..] == rs;
  }

  lemma OneSilent(tb: Tables, handler: Request -> Response, fs: seq<Frame>, rs: seq<Frame>)
    requires |rs| > 0 && (forall f :: f in fs ==> Tame(f)) && IsReply(rs[0])
             && forall k :: Announced(fs + rs, k) <= LIMIT
    requires var s := Run(NewSession(Server, tb, handler), fs);
             Receiver(s) && s.connSend == DEFAULT_WINDOW + Announced(fs, 0)
    ensures var s := Run(NewSession(Server, tb, handler), fs); Unheard(s, ProcessFrame(s, rs[0]))
  {
    hide ProcessFrame, Run, Announced, Tame, NewSession, ParseWindowUpdate;
    var s, a := Run(NewSession(Server, tb, handler), fs), rs[0];
    if IsAck(a) {
      AckTaken(s, a);
    } else if IsReset(a) {
      ResetSilent(s, a);
    } else {
      OneFrame(a, a.sid);
      MoreAnnounced(fs, rs, a.sid);
      if a.sid != 0 && a.sid in s.streams {
        ServerWindow(tb, handler, fs, a.sid);
      }
      CreditSilent(s, a);
    }
  }

  // ---------------------------------------------------------------- two sessions in touch

  /** The frames a client has received. */
  function HeardFrames(ops: seq<ClientOp>): seq<Frame> {
    if |ops| == 0 then []
    else HeardFrames(ops[..|ops| - 1]) + match ops[|ops| - 1] case Submit(_) => [] case Receive(f) => [f]
  }

  /** Its submissions alone. */
  function Asked(ops: seq<ClientOp>): seq<ClientOp> {
    if |ops| == 0 then []
    else Asked(ops[..|ops| - 1]) + match ops[|ops| - 1] case Submit(_) => [ops[|ops| - 1]] case Receive(_) => []
  }

  lemma HeardSnoc(ops: seq<ClientOp>, op: ClientOp)
    ensures HeardFrames(ops + [op]) == HeardFrames(ops) + match op case Submit(_) => [] case Receive(f) => [f]
    ensures Asked(ops + [op]) == Asked(ops) + match op case Submit(_) => [op] case Receive(_) => []
  {
    assert (ops + [op])[..|ops|] == ops;
  }

  lemma {:induction false} AskedSame(tb: Tables, ops: seq<ClientOp>)
    ensures Expected(tb, Asked(ops)) == Expected(tb, ops)
    ensures BodyBytes(Asked(ops)) == BodyBytes(ops) && WindowAfter(Asked(ops)) == WindowAfter(ops)
    ensures forall op :: op in Asked(ops) ==> op.Submit?
  {
    hide Assembled, DeliveredFields, RequestFields, H2Answers.Counted;
    if |ops| > 0 {
      var front, op := ops[..|ops| - 1], ops[|ops| - 1];
      AskedSame(tb, front);
      if op.Submit? {
        assert (Asked(front) + [op])[..|Asked(front)|] == Asked(front);
      } else {
        assert Asked(front) + [] == Asked(front);
      }
    }
  }

  /** The part of the invariant about the client's own state. */
  ghost predicate Composed(c: Session) {
    && c.mode.Client? && c.peerMaxFrame == 16384 && c.peerInitial == 65535
    && (forall k :: k in c.streams ==> 0 < k < c.nextSid) && 0 < c.nextSid
    && forall f :: f in c.output ==> Tame(f)
  }

  /**
    A client after submissions and received frames, and the server that will have processed all the client has sent:
    what the client has heard is a part of what that server says, and apart from its output the client is where it
    would be had it submitted everything first.
   */
  ghost predicate InTouch(tb: Tables, onClient: Request -> Response, onServer: Request -> Response, ops: seq<ClientOp>,
        xs: seq<Exchange>) {
    var c0 := NewSession(Client, tb, onClient);
    var c := ClientRun(c0, ops);
    var t := Run(NewSession(Server, tb, onServer), c.output);
    && OrdinaryRun(c0, ops) && Composed(c)
    && Speaking(tb, t, xs, Expected(tb, ops), onServer) && Booked(t, xs, ops)
    && HeardFrames(ops) <= t.output
    && Bare(c) == Bare(Run(ClientRun(c0, Asked(ops)), HeardFrames(ops)))
    && Covered(BooksOf(c0, EventsOf(ops)), c, HeardFrames(ops))
  }

  /** The bodies of the answers are affordable. */
  ghost predicate Fair(tb: Tables, onServer: Request -> Response, ops: seq<ClientOp>) {
    AnswerBytes(Expected(tb, ops), onServer) <= LIMIT
  }

  lemma {:induction false} StartInTouch(tb: Tables, onClient: Request -> Response, onServer: Request -> Response)
    ensures InTouch(tb, onClient, onServer, [], [])
  {
    hide InitialSettings, Run, Announced, Speaking, Booked, Covered, Composed;
    var c0 := NewSession(Client, tb, onClient);
    FirstWords(tb, onServer);
    NewComposed(tb, onClient);
    NewCovered(tb, onClient);
    RunNone(c0);
    assert EventsOf([]) == [];
  }

  lemma NewComposed(tb: Tables, handler: Request -> Response)
    ensures Composed(NewSession(Client, tb, handler))
  {
    hide InitialSettings;
    FourOfThem();
  }

  lemma NewCovered(tb: Tables, handler: Request -> Response)
    ensures Covered(BooksOf(NewSession(Client, tb, handler), []), NewSession(Client, tb, handler), [])
  {
    hide InitialSettings;
    var c0 := NewSession(Client, tb, handler);
    forall k ensures Announced(c0.output, k) == 0 {
      AnnouncedNone(c0.output, k);
    }
  }

  // ---------------------------------------------------------------- what being in touch implies

  lemma ClientBalanced(tb: Tables, handler: Request -> Response, ops: seq<ClientOp>)
    requires OrdinaryRun(NewSession(Client, tb, handler), ops)
    ensures var c0 := NewSession(Client, tb, handler);
            Balanced(BooksOf(c0, EventsOf(ops)), ClientRun(c0, ops)) && ClientRun(c0, ops).alive
            && ClientRun(c0, ops) == Reach(c0, EventsOf(ops))
  {
    hide ClientRun, OrdinaryRun, Reach, BooksOf, Balanced;
    ClientRunIsReach(NewSession(Client, tb, handler), ops);
    WindowsBalance(Client, tb, handler, EventsOf(ops));
  }

  /** Windows are never more than full, so what was announced had been received. */
  lemma CoveredBound(b: Books, c: Session, heard: seq<Frame>)
    requires Covered(b, c, heard) && Balanced(b, c) && 0 !in c.streams
    ensures forall k :: Announced(c.output, k) <= DataBytes(heard)
  {
    hide Announced, DataBytes;
    forall k ensures BookedFor(b, k) <= DataBytes(heard) {
      if k != 0 && k in b.accounts {
        assert StreamBalanced(b.accounts[k], c.streams[k], c.peerInitial);
      }
    }
  }

  lemma SpeakingCarries(tb: Tables, t: Session, xs: seq<Exchange>, ds: seq<Dispatch>, handler: Request -> Response)
    requires Speaking(tb, t, xs, ds, handler)
    ensures DataBytes(t.output) == AnswerBytes(ds, handler)
  {
    hide DataBytes, Transcript, AnswerBytes, Proper;
    assert forall f :: f in Hello() ==> f.kind != DATA;
    NoDataBytes(Hello());
    DataBytesConcat(Hello(), Transcript(xs));
    TranscriptCarries(tb, xs, ds, handler);
  }

  /** What a server says on the streams below some id. */
  ghost predicate Below(f: Frame, n: nat) {
    Fits(f) && Uttered(f) && f.sid < n
  }

  lemma TalkBelow(tb: Tables, x: Exchange, n: nat)
    requires Proper(x, tb) && x.sid < n
    ensures forall f :: f in Talk(x) ==> Below(f, n)
  {
    hide AnswerFrames, InitialSettings, Speaks, Sizable, SettingsPayload, Fits;
    AnswerFits(x, tb);
    TalkCarries(x);
    forall f | f in Talk(x) ensures f.sid < n {
      AnswerCarries(x.enc, x.max, x.sid, x.resp);
    }
  }

  lemma {:induction false} TranscriptBelow(tb: Tables, xs: seq<Exchange>, n: nat)
    requires forall x :: x in xs ==> Proper(x, tb) && x.sid < n
    ensures forall f :: f in Transcript(xs) ==> Below(f, n)
  {
    hide Talk, Proper, Below;
    if |xs| > 0 {
      assert xs[|xs| - 1] in xs;
      TranscriptBelow(tb, xs[..|xs| - 1], n);
      TalkBelow(tb, xs[|xs| - 1], n);
    }
  }

  lemma SpeakingBelow(tb: Tables, t: Session, xs: seq<Exchange>, ops: seq<ClientOp>, handler: Request -> Response)
    requires Speaking(tb, t, xs, Expected(tb, ops), handler)
    ensures forall f :: f in t.output ==> Below(f, 2 * |Expected(tb, ops)| + 1)
  {
    hide Transcript, Proper, Expected, Below;
    var n := 2 * |Expected(tb, ops)| + 1;
    forall x | x in xs ensures Proper(x, tb) && x.sid < n {
      var i :| 0 <= i < |xs| && xs[i] == x;
      ExpectedSids(tb, ops, i);
    }
    TranscriptBelow(tb, xs, n);
    HelloBelow(n);
  }

  lemma HelloBelow(n: nat)
    requires n > 0
    ensures forall f :: f in Hello() ==> Below(f, n)
  {
    hide InitialSettings;
    FourOfThem();
  }

  /** The server of a modest conversation is alive and has dispatched everything; nobody has announced too much. */
  lemma TouchMeans(tb: Tables, onClient: Request -> Response, onServer: Request -> Response, ops: seq<ClientOp>,
        xs: seq<Exchange>)
    requires Addressable(tb) && InTouch(tb, onClient, onServer, ops, xs) && Fair(tb, onServer, ops)
    ensures var c := ClientRun(NewSession(Client, tb, onClient), ops);
            var t := Run(NewSession(Server, tb, onServer), c.output);
            && c.alive && ClientOk(tb, c, ops) && ServerOk(tb, c, t, ops) && InRange(c)
            && (forall f :: f in t.output ==> Below(f, c.nextSid))
            && forall k :: Announced(c.output, k) <= LIMIT
  {
    hide Run, ClientRun, NewSession, Announced, DataBytes, Speaking, Booked, Expected, OrdinaryRun, Covered, Balanced,
      BooksOf, Below, BodyBytes, AnswerBytes, HeardFrames, InRange;
    var c0 := NewSession(Client, tb, onClient);
    var c := ClientRun(c0, ops);
    var t := Run(NewSession(Server, tb, onServer), c.output);
    ClientBalanced(tb, onClient, ops);
    CoveredBound(BooksOf(c0, EventsOf(ops)), c, HeardFrames(ops));
    DataBytesPrefix(HeardFrames(ops), t.output);
    SpeakingCarries(tb, t, xs, Expected(tb, ops), onServer);
    StepByStep(tb, onClient, onServer, ops);
    SpeakingBelow(tb, t, xs, ops, onServer);
    ClientInRange(tb, onClient, ops);
  }

  // ---------------------------------------------------------------- one more submission

  lemma SubmitComposed(c: Session, req: Request, frames: seq<Frame>)
    requires Composed(c) && SubmitRequest(c, req, false).output == c.output + frames
             && forall f :: f in frames ==> Tame(f)
    ensures Composed(SubmitRequest(c, req, false))
    ensures SubmitRequest(c, req, false).streams.Keys == c.streams.Keys + {c.nextSid}
  {
    hide HeaderFrames, DataFrames, RequestFields, EncodeBlock, FreshStream, Tame;
  }

  lemma RequestTame(sid: nat, block: seq<byte>, body: seq<byte>, max: FrameLimit)
    requires sid < SID_LIMIT
    ensures forall f :: f in RequestFrames(sid, block, body, max) ==> Tame(f)
    ensures forall k :: Announced(RequestFrames(sid, block, body, max), k) == 0
  {
    hide HeaderFrames, DataFrames, InitialSettings, Fits, Announced;
    RequestFit(sid, block, body, max);
    HeadersCarryNone(sid, body == [], block, max);
    DataCarryAll(sid, true, body, max);
    RequestQuiet(sid, block, body, max);
    forall k ensures Announced(RequestFrames(sid, block, body, max), k) == 0 {
      AnnouncedNone(RequestFrames(sid, block, body, max), k);
    }
  }

  /** The client that submitted first, after what was heard, ends up behind the submission too. */
  lemma SubmitBare(c: Session, d: Session, req: Request, heard: seq<Frame>)
    requires Bare(c) == Bare(Run(d, heard)) && Listens(d, heard)
    ensures Bare(SubmitRequest(c, req, false)) == Bare(Run(SubmitRequest(d, req, false), heard))
  {
    hide Run, SubmitRequest, Asking, Uttered, Bare;
    SubmitIsAsking(c, req);
    SubmitIsAsking(d, req);
    BareAsking(d);
    RunAsk(d, heard);
    BareAsking(Run(d, heard));
    SubmitListens(d, req, heard);
    RunSame(SubmitRequest(d, req, false), Asking(d), heard);
  }

  lemma BareAsking(c: Session)
    ensures Bare(Asking(c)) == Asking(Bare(c))
  {
    hide FreshStream;
  }

  lemma SubmitListens(d: Session, req: Request, heard: seq<Frame>)
    requires Listens(d, heard)
    ensures var a := SubmitRequest(d, req, false); a.mode.Client? && a.peerInitial == 65535
  {
    hide HeaderFrames, DataFrames, RequestFields, EncodeBlock, FreshStream;
  }

  /** Equal up to output before some frames, equal up to output after them. */
  lemma {:induction false} RunSame(c: Session, d: Session, fs: seq<Frame>)
    requires Bare(c) == Bare(d) && c.mode.Client? && c.peerInitial == 65535 && forall f :: f in fs ==> Uttered(f)
    ensures Bare(Run(c, fs)) == Bare(Run(d, fs))
    decreases |fs|
  {
    hide ProcessFrame, Bare, Uttered;
    BareSame(c, d);
    if |fs| > 0 && c.alive {
      assert fs[0] in fs;
      FrameSame(c, d, fs[0]);
      UtteredKeeps(c, fs[0]);
      RunSame(ProcessFrame(c, fs[0]), ProcessFrame(d, fs[0]), fs[1..]);
    }
  }

  lemma UtteredKeeps(c: Session, f: Frame)
    requires c.mode.Client? && c.alive && c.peerInitial == 65535 && Uttered(f)
    ensures ProcessFrame(c, f).mode.Client? && ProcessFrame(c, f).peerInitial == 65535
  {
    hide HandleData, HandleHeaders, HandleContinuation, HandleSettings, HandleWindowUpdate, Ascii, Neutral,
      InitialSettings, SettingsPayload;
    FrameSteady(c, f) by { hide ProcessFrame; }
    DataKeepsInitial(c, f);
    HeadersNeutral(c, f);
    NeutralInitial(c, HandleHeaders(c, f));
    ContinuationNeutral(c, f);
    NeutralInitial(c, HandleContinuation(c, f));
    UpdateKeepsInitial(c, f);
    SettingsTell(c);
  }

  lemma {:induction false} AskedComposed(tb: Tables, handler: Request -> Response, ops: seq<ClientOp>,
        heard: seq<Frame>)
    requires (forall op :: op in ops ==> op.Submit?) && forall f :: f in heard ==> Below(f, 2 * |Expected(tb, ops)| + 1)
    ensures var d := ClientRun(NewSession(Client, tb, handler), ops);
            Listens(d, heard) && Waits(d, |Expected(tb, ops)|) && d.encoder.tables == tb && d.peerInitial == 65535
  {
    hide ClientRun, NewSession, Expected, Waits, Uttered, Fits;
    ClientWaits(tb, handler, ops);
    WaitsMeans(ClientRun(NewSession(Client, tb, handler), ops), |Expected(tb, ops)|);
    AskedInitial(tb, handler, ops);
  }

  lemma WaitsMeans(d: Session, n: nat)
    requires Waits(d, n)
    ensures d.mode.Client? && d.nextSid == 2 * n + 1 && d.nextSid !in d.streams
  {
  }

  lemma {:induction false} AskedInitial(tb: Tables, handler: Request -> Response, ops: seq<ClientOp>)
    requires forall op :: op in ops ==> op.Submit?
    ensures ClientRun(NewSession(Client, tb, handler), ops).peerInitial == 65535
  {
    hide SubmitRequest, InitialSettings;
    if |ops| > 0 {
      assert ops[|ops| - 1] in ops;
      AskedInitial(tb, handler, ops[..|ops| - 1]);
      RequestNeutral(ClientRun(NewSession(Client, tb, handler), ops[..|ops| - 1]), ops[|ops| - 1].req, false);
    }
  }

  lemma {:induction false} RunSteady(s: Session, fs: seq<Frame>)
    ensures Steady(s, Run(s, fs))
    decreases |fs|
  {
    hide ProcessFrame;
    if |fs| > 0 && s.alive {
      FrameSteady(s, fs[0]);
      RunSteady(ProcessFrame(s, fs[0]), fs[1..]);
    }
  }

  lemma SubmitCovered(b: Books, c: Session, req: Request, frames: seq<Frame>, heard: seq<Frame>)
    requires Covered(b, c, heard) && Composed(c) && Composed(SubmitRequest(c, req, false))
    requires SubmitRequest(c, req, false).output == c.output + frames && (forall k :: Announced(frames, k) == 0)
    requires SubmitRequest(c, req, false).streams.Keys == c.streams.Keys + {c.nextSid}
    ensures Covered(Record(b, c, Ask(req, false), SubmitRequest(c, req, false)), SubmitRequest(c, req, false), heard)
  {
    hide SubmitRequest, Announced, DataBytes, Record;
    var c' := SubmitRequest(c, req, false);
    assert NewFrames(c, c') == frames;
    CoveredStep(b, c, Ask(req, false), c', heard);
    assert heard + [] == heard;
  }

  lemma BooksSnoc(c0: Session, ops: seq<ClientOp>, op: ClientOp)
    requires ClientRun(c0, ops) == Reach(c0, EventsOf(ops)) && ClientRun(c0, ops).alive
    ensures BooksOf(c0, EventsOf(ops + [op]))
         == Record(BooksOf(c0, EventsOf(ops)), ClientRun(c0, ops), EventOf(op), ClientStep(ClientRun(c0, ops), op))
    ensures ClientRun(c0, ops + [op]) == ClientStep(ClientRun(c0, ops), op)
  {
    hide Record, ProcessFrame, SubmitRequest;
    assert (ops + [op])[..|ops|] == ops;
    assert EventsOf(ops + [op])[..|ops|] == EventsOf(ops);
    assert EventsOf(ops + [op])[|ops|] == EventOf(op);
  }

  lemma OrdinarySnoc(c0: Session, ops: seq<ClientOp>, op: ClientOp)
    requires OrdinaryRun(c0, ops) && Ordinary(ClientRun(c0, ops), op)
    ensures OrdinaryRun(c0, ops + [op])
  {
    hide Ordinary;
    assert (ops + [op])[..|ops|] == ops;
  }

  /** A submission at any moment keeps the two in touch. */
  lemma SubmitInTouch(tb: Tables, onClient: Request -> Response, onServer: Request -> Response, ops: seq<ClientOp>,
        xs: seq<Exchange>, req: Request)
    returns (x: Exchange)
    requires Addressable(tb) && InTouch(tb, onClient, onServer, ops, xs) && Fair(tb, onServer, ops)
             && forall r :: Sizable(onServer(r))
    requires AllSized(RequestFields(req)) && 2 * |Expected(tb, ops)| + 1 < SID_LIMIT
    ensures InTouch(tb, onClient, onServer, ops + [Submit(req)], xs + [x])
  {
    hide Run, ClientRun, NewSession, Announced, Speaking, Booked, Expected, OrdinaryRun, Covered, BooksOf, Below,
      BodyBytes, AnswerBytes, HeardFrames, Asked, InRange, SubmitRequest, RequestFields, EncodeBlock, RequestFrames,
      Sizable, Composed, Bare, Reach, Tame, Listens, Waits;
    var c0, s0 := NewSession(Client, tb, onClient), NewSession(Server, tb, onServer);
    var c := ClientRun(c0, ops);
    var t, heard, op := Run(s0, c.output), HeardFrames(ops), Submit(req);
    TouchMeans(tb, onClient, onServer, ops, xs);
    var frames := RequestFrames(c.nextSid, EncodeBlock(c.encoder, RequestFields(req)), req.body, c.peerMaxFrame);
    SubmitKeepsClient(tb, c, ops, req);
    assert Full(t.connRecv) by { ServerFull(tb, onServer, c.output); }
    assert c.peerMaxFrame == 16384 by { ComposedMeans(c); }
    x := SubmissionAnswered(tb, c, t, ops, req, xs, onServer);
    RunConcat(s0, c.output, frames);
    RunSteady(t, frames);
    ClientBalanced(tb, onClient, ops);
    BooksSnoc(c0, ops, op);
    OrdinarySnoc(c0, ops, op);
    HeardSnoc(ops, op);
    assert heard + [] == heard;
    RequestTame(c.nextSid, EncodeBlock(c.encoder, RequestFields(req)), req.body, c.peerMaxFrame);
    SubmitComposed(c, req, frames);
    SubmitCovered(BooksOf(c0, EventsOf(ops)), c, req, frames, heard);
    SubmitSameBare(tb, onClient, ops, c, req, heard);
  }

  lemma ComposedMeans(c: Session)
    requires Composed(c)
    ensures c.peerMaxFrame == 16384 && c.peerInitial == 65535 && Unasked(c) && c.mode.Client? && 0 !in c.streams
  {
  }

  lemma SubmitSameBare(tb: Tables, handler: Request -> Response, ops: seq<ClientOp>, c: Session, req: Request,
        heard: seq<Frame>)
    requires Bare(c) == Bare(Run(ClientRun(NewSession(Client, tb, handler), Asked(ops)), heard))
    requires forall f :: f in heard ==> Below(f, 2 * |Expected(tb, ops)| + 1)
    ensures Bare(SubmitRequest(c, req, false))
            == Bare(Run(ClientRun(NewSession(Client, tb, handler), Asked(ops) + [Submit(req)]), heard))
  {
    hide Run, NewSession, Expected, Below, Asked, SubmitRequest, Bare, Listens, Waits, ClientRun;
    var c0 := NewSession(Client, tb, handler);
    AskedSame(tb, ops);
    AskedComposed(tb, handler, Asked(ops), heard);
    var d := ClientRun(c0, Asked(ops));
    RunSnoc(c0, Asked(ops), Submit(req));
    SubmitBare(c, d, req, heard);
  }

  lemma RunSnoc(c0: Session, ops: seq<ClientOp>, op: ClientOp)
    ensures ClientRun(c0, ops + [op]) == ClientStep(ClientRun(c0, ops), op)
  {
    hide ProcessFrame, SubmitRequest;
    assert (ops + [op])[..|ops|] == ops;
  }

  // ---------------------------------------------------------------- one more frame heard

  /**
    The client that submitted first survives all its server says if and only if the calls are affordable, and each is
    then answered.
   */
  lemma AskedHears(tb: Tables, onClient: Request -> Response, onServer: Request -> Response, ops: seq<ClientOp>,
        xs: seq<Exchange>)
    requires Addressable(tb) && InTouch(tb, onClient, onServer, ops, xs) && Fair(tb, onServer, ops)
    ensures var d := ClientRun(NewSession(Client, tb, onClient), Asked(ops));
            var t := Run(NewSession(Server, tb, onServer), ClientRun(NewSession(Client, tb, onClient), ops).output);
            var d' := Run(d, t.output);
            && (d'.alive <==> Affordable(ops))
            && (d'.alive ==> d'.completed == AnswersTo(tb, Expected(tb, ops), onServer))
            && d'.completed <= AnswersTo(tb, Expected(tb, ops), onServer)
            && Listens(d, t.output) && (forall f :: f in t.output ==> Fits(f))
  {
    hide Run, ClientRun, NewSession, Announced, Speaking, Expected, OrdinaryRun, Covered, BooksOf, Below, BodyBytes,
      AnswerBytes, HeardFrames, Asked, InRange, Composed, Bare, Tame, Listens, Waits, AnswersTo, Transcript,
      WindowAfter;
    var d := ClientRun(NewSession(Client, tb, onClient), Asked(ops));
    var t := Run(NewSession(Server, tb, onServer), ClientRun(NewSession(Client, tb, onClient), ops).output);
    TouchMeans(tb, onClient, onServer, ops, xs);
    AskedSame(tb, ops);
    assert ClientRun(NewSession(Client, tb, onClient), ops).nextSid == 2 * |Expected(tb, ops)| + 1;
    AskedComposed(tb, onClient, Asked(ops), t.output);
    ConversationHeard(tb, d, t, xs, Asked(ops), onServer);
  }

  lemma {:induction false} AliveBefore(c: Session, a: seq<Frame>, b: seq<Frame>)
    requires Run(c, a + b).alive
    ensures Run(c, a).alive
  {
    hide Run;
    RunConcat(c, a, b);
    if !Run(c, a).alive {
      RunDead(Run(c, a), b);
    }
  }

  lemma ReceiveComposed(c: Session, f: Frame)
    requires Composed(c) && c.alive && Uttered(f) && f.sid < c.nextSid && Fits(f) && InRange(c)
             && ProcessFrame(c, f).alive
    ensures Composed(ProcessFrame(c, f)) && ProcessFrame(c, f).streams.Keys == c.streams.Keys
    ensures c.output <= ProcessFrame(c, f).output && AllReplies(NewFrames(c, ProcessFrame(c, f)))
  {
    hide ProcessFrame, Uttered, Asking, InRange, Tame, Fits, IsReply;
    FrameAsk(c, f);
    ClientReplies(c, f);
    var rs := NewFrames(c, ProcessFrame(c, f));
    assert ProcessFrame(c, f).output == c.output + rs;
    forall r | r in rs ensures Tame(r) {
      ReplyTame(r);
    }
  }

  lemma ReplyTame(f: Frame)
    requires IsReply(f)
    ensures Tame(f)
  {
    hide InitialSettings, Fits;
  }

  lemma ReceiveCovered(b: Books, c: Session, f: Frame, heard: seq<Frame>)
    requires Covered(b, c, heard) && Composed(c) && c.alive && Uttered(f) && Fits(f) && ProcessFrame(c, f).alive
    requires c.output <= ProcessFrame(c, f).output && ProcessFrame(c, f).streams.Keys == c.streams.Keys
    ensures Covered(Record(b, c, Arrive(f), ProcessFrame(c, f)), ProcessFrame(c, f), heard + [f])
  {
    hide ProcessFrame, Announced, DataBytes, Record, Uttered, Fits, Ours, Tame;
    var c' := ProcessFrame(c, f);
    FrameOurs(c, f);
    forall k | k != 0 && k !in c'.streams ensures Announced(NewFrames(c, c'), k) == 0 {
      AnnouncedElsewhere(NewFrames(c, c'), c, k);
    }
    CoveredStep(b, c, Arrive(f), c', heard);
  }

  lemma BelowMeans(f: Frame, n: nat)
    requires Below(f, n)
    ensures Uttered(f) && Fits(f) && f.sid < n
  {
  }

  /** After the next frame the client is where it would be had it submitted first, dead or alive. */
  lemma ReceiveBare(tb: Tables, onClient: Request -> Response, onServer: Request -> Response, ops: seq<ClientOp>,
        xs: seq<Exchange>, f: Frame)
    requires Addressable(tb) && InTouch(tb, onClient, onServer, ops, xs) && Fair(tb, onServer, ops)
    requires HeardFrames(ops) + [f]
             <= Run(NewSession(Server, tb, onServer), ClientRun(NewSession(Client, tb, onClient), ops).output).output
    ensures var c := ClientRun(NewSession(Client, tb, onClient), ops);
            var d := ClientRun(NewSession(Client, tb, onClient), Asked(ops));
            && Bare(ProcessFrame(c, f)) == Bare(Run(d, HeardFrames(ops) + [f])) && Below(f, c.nextSid)
  {
    hide Run, ClientRun, NewSession, Announced, Speaking, Booked, Expected, OrdinaryRun, Covered, BooksOf, Below,
      BodyBytes, AnswerBytes, HeardFrames, Asked, InRange, Composed, Bare, Tame, Listens, AnswersTo, ProcessFrame,
      Uttered, ClientOk, ServerOk;
    var c := ClientRun(NewSession(Client, tb, onClient), ops);
    var d := ClientRun(NewSession(Client, tb, onClient), Asked(ops));
    var t := Run(NewSession(Server, tb, onServer), c.output);
    var heard := HeardFrames(ops);
    TouchMeans(tb, onClient, onServer, ops, xs);
    AskedHears(tb, onClient, onServer, ops, xs);
    assert (heard + [f])[|heard|] == f;
    assert f in t.output;
    BelowMeans(f, c.nextSid);
    var e := Run(d, heard);
    RunConcat(d, heard, [f]);
    ComposedMeans(c);
    BareSame(c, e);
    RunOne(e, f);
    FrameSame(c, e, f);
  }

  lemma StillSpeaking(tb: Tables, t: Session, t': Session, xs: seq<Exchange>, ops: seq<ClientOp>, f: Frame,
        handler: Request -> Response)
    requires Speaking(tb, t, xs, Expected(tb, ops), handler) && Booked(t, xs, ops) && Unheard(t, t')
    ensures Speaking(tb, t', xs, Expected(tb, ops + [Receive(f)]), handler) && Booked(t', xs, ops + [Receive(f)])
  {
    hide Transcript, Announced, Proper, H2Answers.Counted, Assembled, DeliveredFields, RequestFields;
    assert (ops + [Receive(f)])[..|ops|] == ops;
  }

  /** The server says nothing to the client's replies. */
  lemma RepliesUnheard(tb: Tables, onClient: Request -> Response, onServer: Request -> Response, ops: seq<ClientOp>,
        xs: seq<Exchange>, f: Frame)
    requires Addressable(tb) && InTouch(tb, onClient, onServer, ops, xs) && Fair(tb, onServer, ops)
    requires HeardFrames(ops) + [f]
             <= Run(NewSession(Server, tb, onServer), ClientRun(NewSession(Client, tb, onClient), ops).output).output
    requires ProcessFrame(ClientRun(NewSession(Client, tb, onClient), ops), f).alive
    ensures var c, s0 := ClientRun(NewSession(Client, tb, onClient), ops), NewSession(Server, tb, onServer);
            var c' := ProcessFrame(c, f);
            && Unheard(Run(s0, c.output), Run(s0, c'.output)) && Composed(c')
            && OrdinaryRun(NewSession(Client, tb, onClient), ops + [Receive(f)])
            && Covered(BooksOf(NewSession(Client, tb, onClient), EventsOf(ops + [Receive(f)])), c',
              HeardFrames(ops) + [f])
  {
    hide Run, ClientRun, NewSession, Announced, Speaking, Booked, Expected, OrdinaryRun, Covered, BooksOf, Below,
      BodyBytes, AnswerBytes, HeardFrames, Asked, InRange, Composed, Bare, Tame, Listens, AnswersTo, ProcessFrame,
      Uttered, ClientOk, DataBytes, Balanced, Reach, Record, IsReply, Unheard, Fits;
    var c0, s0 := NewSession(Client, tb, onClient), NewSession(Server, tb, onServer);
    var c := ClientRun(c0, ops);
    var t, heard, op, c' := Run(s0, c.output), HeardFrames(ops), Receive(f), ProcessFrame(c, f);
    TouchMeans(tb, onClient, onServer, ops, xs);
    ReceiveBare(tb, onClient, onServer, ops, xs, f);
    BelowMeans(f, c.nextSid);
    ReceiveComposed(c, f);
    ClientBalanced(tb, onClient, ops);
    BooksSnoc(c0, ops, op);
    OrdinarySnoc(c0, ops, op);
    ReceiveCovered(BooksOf(c0, EventsOf(ops)), c, f, heard);
    ClientBalanced(tb, onClient, ops + [op]);
    ComposedMeans(c');
    CoveredBound(BooksOf(c0, EventsOf(ops + [op])), c', heard + [f]);
    DataBytesPrefix(heard + [f], t.output);
    SpeakingCarries(tb, t, xs, Expected(tb, ops), onServer);
    var rs := NewFrames(c, c');
    assert c'.output == c.output + rs;
    ComposedTame(c');
    RepliesSilent(tb, onServer, c.output, rs);
  }

  lemma ComposedTame(c: Session)
    requires Composed(c)
    ensures forall f :: f in c.output ==> Tame(f)
  {
  }

  /** Hearing the next frame of what the server says keeps the two in touch. */
  lemma ReceiveInTouch(tb: Tables, onClient: Request -> Response, onServer: Request -> Response, ops: seq<ClientOp>,
        xs: seq<Exchange>, f: Frame)
    requires Addressable(tb) && InTouch(tb, onClient, onServer, ops, xs) && Fair(tb, onServer, ops)
    requires HeardFrames(ops) + [f]
             <= Run(NewSession(Server, tb, onServer), ClientRun(NewSession(Client, tb, onClient), ops).output).output
    requires ProcessFrame(ClientRun(NewSession(Client, tb, onClient), ops), f).alive
    ensures InTouch(tb, onClient, onServer, ops + [Receive(f)], xs) && Fair(tb, onServer, ops + [Receive(f)])
    ensures var c, c' := ClientRun(NewSession(Client, tb, onClient), ops),
            ClientRun(NewSession(Client, tb, onClient), ops + [Receive(f)]);
            && c.alive && c' == ProcessFrame(c, f)
            && Run(NewSession(Server, tb, onServer), c'.output).output == Run(NewSession(Server, tb, onServer),
              c.output).output
  {
    hide Run, ClientRun, NewSession, Announced, Speaking, Booked, Expected, OrdinaryRun, Covered, BooksOf, Below,
      BodyBytes, AnswerBytes, HeardFrames, Asked, InRange, Composed, Bare, Tame, Listens, AnswersTo, ProcessFrame,
      Uttered, ClientOk, ServerOk;
    var c0, s0 := NewSession(Client, tb, onClient), NewSession(Server, tb, onServer);
    var c := ClientRun(c0, ops);
    TouchMeans(tb, onClient, onServer, ops, xs);
    RepliesUnheard(tb, onClient, onServer, ops, xs, f);
    ReceiveBare(tb, onClient, onServer, ops, xs, f);
    RunSnoc(c0, ops, Receive(f));
    HeardSnoc(ops, Receive(f));
    assert Asked(ops) + [] == Asked(ops);
    StillSpeaking(tb, Run(s0, c.output), Run(s0, ProcessFrame(c, f).output), xs, ops, f, onServer);
    SameTotals(tb, ops, f);
  }

  lemma SameTotals(tb: Tables, ops: seq<ClientOp>, f: Frame)
    ensures BodyBytes(ops + [Receive(f)]) == BodyBytes(ops) && Expected(tb, ops + [Receive(f)]) == Expected(tb, ops)
  {
    hide Assembled, DeliveredFields, RequestFields;
    assert (ops + [Receive(f)])[..|ops|] == ops;
  }

  function Receives(fs: seq<Frame>): seq<ClientOp> {
    if |fs| == 0 then [] else [Receive(fs[0])] + Receives(fs[1..])
  }

  /** The same for any number of frames: the client is the one that has run them. */
  lemma {:induction false} ReceiveAllInTouch(tb: Tables, onClient: Request -> Response, onServer: Request -> Response,
                                             ops: seq<ClientOp>, xs: seq<Exchange>, fs: seq<Frame>)
    requires Addressable(tb) && InTouch(tb, onClient, onServer, ops, xs) && Fair(tb, onServer, ops)
    requires HeardFrames(ops) + fs
             <= Run(NewSession(Server, tb, onServer), ClientRun(NewSession(Client, tb, onClient), ops).output).output
    requires Run(ClientRun(NewSession(Client, tb, onClient), ops), fs).alive
    ensures InTouch(tb, onClient, onServer, ops + Receives(fs), xs) && Fair(tb, onServer, ops + Receives(fs))
    ensures HeardFrames(ops + Receives(fs)) == HeardFrames(ops) + fs && Asked(ops + Receives(fs)) == Asked(ops)
    ensures ClientRun(NewSession(Client, tb, onClient), ops + Receives(fs))
            == Run(ClientRun(NewSession(Client, tb, onClient), ops), fs)
    ensures Run(NewSession(Server, tb, onServer),
            ClientRun(NewSession(Client, tb, onClient), ops + Receives(fs)).output).output
         == Run(NewSession(Server, tb, onServer), ClientRun(NewSession(Client, tb, onClient), ops).output).output
    decreases |fs|
  {
    hide ClientRun, NewSession, InTouch, Fair, HeardFrames, Asked, ProcessFrame, Run;
    var c0, s0 := NewSession(Client, tb, onClient), NewSession(Server, tb, onServer);
    if |fs| == 0 {
      assert ops + Receives(fs) == ops && fs == [];
      RunNone(ClientRun(c0, ops));
    } else {
      var f, more := fs[0], ops + [Receive(fs[0])];
      assert HeardFrames(ops) + [f] + fs[1..] == HeardFrames(ops) + fs;
      var c := ClientRun(c0, ops);
      assert c.alive by { TouchMeans(tb, onClient, onServer, ops, xs); }
      RunCons(c, fs);
      assert ProcessFrame(c, f).alive by { StillAlive(ProcessFrame(c, f), fs[1..]); }
      ReceiveInTouch(tb, onClient, onServer, ops, xs, f);
      HeardSnoc(ops, Receive(f));
      assert Asked(ops) + [] == Asked(ops);
      ReceiveAllInTouch(tb, onClient, onServer, more, xs, fs[1..]);
      assert more + Receives(fs[1..]) == ops + Receives(fs);
    }
  }

  lemma StillAlive(c: Session, fs: seq<Frame>)
    requires Run(c, fs).alive
    ensures c.alive
  {
    hide ProcessFrame;
  }

  /**
    Any further part of what the server says leaves the client alive if and only if it does the one that submitted
    first.
   */
  lemma AliveTogether(tb: Tables, onClient: Request -> Response, onServer: Request -> Response,
                      ops: seq<ClientOp>, xs: seq<Exchange>, fs: seq<Frame>)
    requires Addressable(tb) && InTouch(tb, onClient, onServer, ops, xs) && Fair(tb, onServer, ops)
    requires HeardFrames(ops) + fs
             <= Run(NewSession(Server, tb, onServer), ClientRun(NewSession(Client, tb, onClient), ops).output).output
    ensures var c, d := ClientRun(NewSession(Client, tb, onClient), ops),
            ClientRun(NewSession(Client, tb, onClient), Asked(ops));
            Run(c, fs).alive <==> Run(d, HeardFrames(ops) + fs).alive
  {
    hide Run, ClientRun, NewSession, Announced, Speaking, Booked, Expected, OrdinaryRun, Covered, BooksOf, Below,
      AnswerBytes, HeardFrames, Asked, InRange, Composed, Bare, Tame, Listens, AnswersTo, Uttered, ClientOk, ServerOk;
    var c, d := ClientRun(NewSession(Client, tb, onClient), ops),
        ClientRun(NewSession(Client, tb, onClient), Asked(ops));
    var t, heard := Run(NewSession(Server, tb, onServer), c.output), HeardFrames(ops);
    TouchMeans(tb, onClient, onServer, ops, xs);
    forall f | f in fs ensures Uttered(f) {
      var i :| 0 <= i < |fs| && fs[i] == f;
      assert (heard + fs)[|heard| + i] == f;
      assert f in t.output;
      BelowMeans(f, c.nextSid);
    }
    ComposedMeans(c);
    RunConcat(d, heard, fs);
    RunSame(c, Run(d, heard), fs);
    BareSame(Run(c, fs), Run(Run(d, heard), fs));
  }

  lemma AffordableAlive(tb: Tables, onClient: Request -> Response, onServer: Request -> Response,
                        ops: seq<ClientOp>, xs: seq<Exchange>, fs: seq<Frame>)
    requires Addressable(tb) && InTouch(tb, onClient, onServer, ops, xs) && Fair(tb, onServer, ops)
    requires HeardFrames(ops) + fs
             <= Run(NewSession(Server, tb, onServer), ClientRun(NewSession(Client, tb, onClient), ops).output).output
    ensures Affordable(ops) ==> Run(ClientRun(NewSession(Client, tb, onClient), ops), fs).alive
    ensures HeardFrames(ops) + fs
            == Run(NewSession(Server, tb, onServer), ClientRun(NewSession(Client, tb, onClient), ops).output).output ==>
              (Run(ClientRun(NewSession(Client, tb, onClient), ops), fs).alive <==> Affordable(ops))
  {
    hide Run, ClientRun, NewSession, InTouch, Fair, HeardFrames, Asked, Affordable, Listens, AnswersTo, Expected;
    var d := ClientRun(NewSession(Client, tb, onClient), Asked(ops));
    var t := Run(NewSession(Server, tb, onServer), ClientRun(NewSession(Client, tb, onClient), ops).output);
    AskedHears(tb, onClient, onServer, ops, xs);
    AliveTogether(tb, onClient, onServer, ops, xs, fs);
    if Affordable(ops) {
      CompletedGrows(d, HeardFrames(ops) + fs, t.output);
    }
  }

  lemma RunCons(c: Session, fs: seq<Frame>)
    requires |fs| > 0 && c.alive
    ensures Run(c, fs) == Run(ProcessFrame(c, fs[0]), fs[1..])
  {
    hide ProcessFrame;
  }

  // ---------------------------------------------------------------- what has happened so far

  lemma {:induction false} CompletedGrows(d: Session, a: seq<Frame>, b: seq<Frame>)
    requires a <= b
    ensures Run(d, a).completed <= Run(d, b).completed && Run(d, a).dispatched <= Run(d, b).dispatched
    ensures Run(d, a).output <= Run(d, b).output && (Run(d, b).alive ==> Run(d, a).alive)
  {
    hide Run;
    assert b == a + b[|a|..];
    RunConcat(d, a, b[|a|..]);
    RunSteady(Run(d, a), b[|a|..]);
    if Run(d, b).alive {
      AliveBefore(d, a, b[|a|..]);
    }
  }

  /**
    The client is alive, its calls have returned in order what they should, and all of them once everything was heard.
   */
  lemma TouchReturns(tb: Tables, onClient: Request -> Response, onServer: Request -> Response, ops: seq<ClientOp>,
        xs: seq<Exchange>)
    requires Addressable(tb) && InTouch(tb, onClient, onServer, ops, xs) && Fair(tb, onServer, ops)
    ensures var c := ClientRun(NewSession(Client, tb, onClient), ops);
            var t := Run(NewSession(Server, tb, onServer), c.output);
            var all := AnswersTo(tb, Expected(tb, ops), onServer);
            && c.alive && t.alive && t.dispatched == Expected(tb, ops) && c.completed <= all
            && (HeardFrames(ops) == t.output ==> c.completed == all && Affordable(ops))
  {
    hide Run, ClientRun, NewSession, Announced, Speaking, Booked, Expected, OrdinaryRun, Covered, BooksOf, Below,
      BodyBytes, AnswerBytes, HeardFrames, Asked, InRange, Composed, Bare, Tame, Listens, AnswersTo, ClientOk;
    var c := ClientRun(NewSession(Client, tb, onClient), ops);
    var d := ClientRun(NewSession(Client, tb, onClient), Asked(ops));
    var t := Run(NewSession(Server, tb, onServer), c.output);
    TouchMeans(tb, onClient, onServer, ops, xs);
    AskedHears(tb, onClient, onServer, ops, xs);
    CompletedGrows(d, HeardFrames(ops), t.output);
    BareSame(c, Run(d, HeardFrames(ops)));
  }
}
