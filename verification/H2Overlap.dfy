/**
  The same conversation in bytes: at any moment the client may submit a request, or any number of the bytes under way
  may arrive on either side. Whatever the order, calls return what the handler gave, and all of them do in the end.
 */
module H2Overlap {
  import opened Bytes
  import opened H2Frame
  import opened HttpTypes
  import opened Hpack
  import opened H2Session
  import opened H2EndToEnd
  import opened H2Responses
  import opened H2Answers
  import opened H2Ledger
  import opened H2TwoWay
  import H2Requests
  import H2Calls
  import HpackTables

  /** The owner of the client makes a call, or up to n more bytes get through to the server or to the client. */
  datatype Move = Call(req: Request) | Up(n: nat) | Down(n: nat)

  /** Both sides with what their readers hold, and how many bytes have got through each way. */
  datatype World = World(client: Inbox, server: Inbox, up: nat, down: nat)

  function Begin(tb: Tables, onClient: Request -> Response, onServer: Request -> Response): World {
    World(Inbox(NewSession(Client, tb, onClient), []), Inbox(NewSession(Server, tb, onServer), []), 0, 0)
  }

  /** The bytes of a sender's output that get through next. */
  function Through(sender: Session, from: nat, n: nat): seq<byte> {
    var bytes := Serialize(sender.output);
    if from > |bytes| then [] else bytes[from..Min(from + n, |bytes|)]
  }

  function After(w: World, m: Move): World {
    match m
    case Call(req) => w.(client := Inbox(SubmitRequest(w.client.session, req, false), w.client.pending))
    case Up(n) =>
      var data := Through(w.client.session, w.up, n);
      w.(server := Feed(w.server, data), up := w.up + |data|)
    case Down(n) =>
      var data := Through(w.server.session, w.down, n);
      w.(client := Feed(w.client, data), down := w.down + |data|)
  }

  function Play(w: World, moves: seq<Move>): World {
    if |moves| == 0 then w else After(Play(w, moves[..|moves| - 1]), moves[|moves| - 1])
  }

  function Calls(moves: seq<Move>): seq<ClientOp> {
    if |moves| == 0 then []
    else Calls(moves[..|moves| - 1]) + match moves[|moves| - 1] case Call(req) => [Submit(req)] case _ => []
  }

  // ---------------------------------------------------------------- bytes

  lemma SerializePrefix(fs: seq<Frame>, gs: seq<Frame>)
    requires fs <= gs
    ensures Serialize(fs) <= Serialize(gs)
  {
    hide Serialize;
    assert gs == fs + gs[|fs|..];
    SerializeConcat(fs, gs[|fs|..]);
  }

  /** What a prefix of some frames' bytes parses to is a prefix of the frames. */
  lemma ParsePrefix(fs: seq<Frame>, k: nat)
    requires (forall f :: f in fs ==> Fits(f)) && k <= |Serialize(fs)|
    ensures Parse(Serialize(fs)[..k]).frames <= fs
    ensures k == |Serialize(fs)| ==> Parse(Serialize(fs)[..k]) == Parsed(fs, [])
  {
    hide Serialize, Parse, Fits;
    var bytes := Serialize(fs);
    SerializeParse(fs, []);
    NothingNew([]);
    assert bytes + [] == bytes && fs + [] == fs;
    ParseAppend(bytes[..k], bytes[k..]);
    assert bytes[..k] + bytes[k..] == bytes;
    if k == |bytes| {
      assert bytes[..k] == bytes;
    }
  }

  lemma FeedTwice(i: Inbox, a: seq<byte>, b: seq<byte>)
    requires !StartsWithFrame(i.pending)
    ensures Feed(Feed(i, a), b) == Feed(i, a + b)
  {
    hide Parse, Run, StartsWithFrame;
    ParseAppend(i.pending + a, b);
    assert i.pending + a + b == i.pending + (a + b);
    RunConcat(i.session, Parse(i.pending + a).frames, Parse(Parse(i.pending + a).rest + b).frames);
  }

  lemma NothingPending()
    ensures !StartsWithFrame([])
  {
  }

  // ---------------------------------------------------------------- the invariant

  /** What has got through is a prefix of what was sent, both ways. */
  ghost predicate Linked(tb: Tables, onClient: Request -> Response, onServer: Request -> Response, w: World,
        ops: seq<ClientOp>, xs: seq<Exchange>) {
    var c, s := w.client.session, w.server.session;
    && c == ClientRun(NewSession(Client, tb, onClient), ops) && InTouch(tb, onClient, onServer, ops, xs)
    && w.up <= |Serialize(c.output)|
    && w.server == Feed(Inbox(NewSession(Server, tb, onServer), []), Serialize(c.output)[..w.up])
    && w.down <= |Serialize(s.output)|
    && Parse(Serialize(s.output)[..w.down]) == Parsed(HeardFrames(ops), w.client.pending)
  }

  lemma LinkedStart(tb: Tables, onClient: Request -> Response, onServer: Request -> Response)
    ensures Linked(tb, onClient, onServer, Begin(tb, onClient, onServer), [], [])
  {
    hide Serialize, Parse, InTouch, NewSession, Run;
    StartInTouch(tb, onClient, onServer);
    NothingPending();
    NothingNew([]);
    RunNone(NewSession(Server, tb, onServer));
    var none: seq<byte> := [];
    assert none + none == none;
    var w := Begin(tb, onClient, onServer);
    assert Serialize(w.client.session.output)[..0] == [] && Serialize(w.server.session.output)[..0] == [];
  }

  /** The server so far and the server that has everything. */
  lemma SoFar(tb: Tables, onClient: Request -> Response, onServer: Request -> Response, w: World, ops: seq<ClientOp>,
        xs: seq<Exchange>)
    requires Addressable(tb) && Linked(tb, onClient, onServer, w, ops, xs) && Fair(tb, onServer, ops)
    ensures var c, s, t := w.client.session, w.server.session,
            Run(NewSession(Server, tb, onServer), w.client.session.output);
            && c.alive && s.alive && s.output <= t.output && s.dispatched <= t.dispatched
            && (forall f :: f in c.output ==> Fits(f)) && (forall f :: f in t.output ==> Fits(f))
            && (w.up == |Serialize(c.output)| ==> s == t)
            && t.dispatched == Expected(tb, ops)
  {
    hide Serialize, Parse, InTouch, NewSession, Run, ClientRun, Expected, Fits, Below, Fair, HeardFrames;
    var c, s0 := w.client.session, NewSession(Server, tb, onServer);
    TouchMeans(tb, onClient, onServer, ops, xs);
    var t := Run(s0, c.output);
    forall f | f in t.output ensures Fits(f) {
      BelowMeans(f, c.nextSid);
    }
    ParsePrefix(c.output, w.up);
    var got := Serialize(c.output)[..w.up];
    assert [] + got == got;
    CompletedGrows(s0, Parse(got).frames, c.output);
  }

  // ---------------------------------------------------------------- moves

  lemma CallLinked(tb: Tables, onClient: Request -> Response, onServer: Request -> Response, w: World,
        ops: seq<ClientOp>, xs: seq<Exchange>, req: Request)
    returns (x: Exchange)
    requires Addressable(tb) && Linked(tb, onClient, onServer, w, ops, xs) && Fair(tb, onServer, ops)
             && forall r :: Sizable(onServer(r))
    requires AllSized(RequestFields(req)) && 2 * |Expected(tb, ops)| + 1 < SID_LIMIT
    ensures Linked(tb, onClient, onServer, After(w, Call(req)), ops + [Submit(req)], xs + [x])
  {
    hide Serialize, Parse, InTouch, NewSession, Run, ClientRun, Expected, Fair, HeardFrames, SubmitRequest, Sizable,
      RequestFields, EncodeBlock, RequestFrames;
    x := SubmitInTouch(tb, onClient, onServer, ops, xs, req);
    var c := w.client.session;
    RunSnoc(NewSession(Client, tb, onClient), ops, Submit(req));
    HeardSnoc(ops, Submit(req));
    SubmitEffect(c, req);
    SerializePrefix(c.output, SubmitRequest(c, req, false).output);
    assert Serialize(SubmitRequest(c, req, false).output)[..w.up] == Serialize(c.output)[..w.up];
  }

  lemma UpLinked(tb: Tables, onClient: Request -> Response, onServer: Request -> Response, w: World, ops: seq<ClientOp>,
        xs: seq<Exchange>, n: nat)
    requires Addressable(tb) && Linked(tb, onClient, onServer, w, ops, xs) && Fair(tb, onServer, ops)
    ensures Linked(tb, onClient, onServer, After(w, Up(n)), ops, xs)
  {
    hide Serialize, Parse, InTouch, NewSession, Run, ClientRun, Fair, HeardFrames, StartsWithFrame;
    var c, s, w' := w.client.session, w.server.session, After(w, Up(n));
    var bytes, data := Serialize(c.output), Through(c, w.up, n);
    NothingPending();
    FeedTwice(Inbox(NewSession(Server, tb, onServer), []), bytes[..w.up], data);
    assert bytes[..w.up] + data == bytes[..w'.up];
    RunSteady(s, Parse(w.server.pending + data).frames);
    SerializePrefix(s.output, w'.server.session.output);
    assert Serialize(w'.server.session.output)[..w.down] == Serialize(s.output)[..w.down];
  }

  lemma DownLinked(tb: Tables, onClient: Request -> Response, onServer: Request -> Response, w: World,
        ops: seq<ClientOp>, xs: seq<Exchange>, n: nat)
    returns (heard: seq<Frame>)
    requires Addressable(tb) && Linked(tb, onClient, onServer, w, ops, xs) && Fair(tb, onServer, ops)
    requires After(w, Down(n)).client.session.alive
    ensures Linked(tb, onClient, onServer, After(w, Down(n)), ops + Receives(heard), xs)
            && Fair(tb, onServer, ops + Receives(heard))
    ensures Asked(ops + Receives(heard)) == Asked(ops)
    ensures Run(NewSession(Server, tb, onServer), After(w, Down(n)).client.session.output).output
         == Run(NewSession(Server, tb, onServer), w.client.session.output).output
  {
    hide Serialize, Parse, InTouch, NewSession, Run, ClientRun, Fair, HeardFrames, Asked, Expected, Fits;
    var c, s := w.client.session, w.server.session;
    var t := Run(NewSession(Server, tb, onServer), c.output);
    SoFar(tb, onClient, onServer, w, ops, xs);
    var w', bytes, data := After(w, Down(n)), Serialize(s.output), Through(s, w.down, n);
    ParseAppend(bytes[..w.down], data);
    assert bytes[..w.down] + data == bytes[..w'.down];
    heard := Parse(w.client.pending + data).frames;
    assert forall f :: f in s.output ==> f in t.output;
    ParsePrefix(s.output, w'.down);
    assert HeardFrames(ops) + heard <= t.output;
    ReceiveAllInTouch(tb, onClient, onServer, ops, xs, heard);
    var c' := Run(c, heard);
    RunSteady(c, heard);
    SerializePrefix(c.output, c'.output);
    assert Serialize(c'.output)[..w.up] == Serialize(c.output)[..w.up];
  }

  // ---------------------------------------------------------------- all plays

  /** Sizes fit the machine, and the bodies of all answers are affordable. */
  ghost predicate Reasonable(tb: Tables, onServer: Request -> Response, moves: seq<Move>) {
    && Addressable(tb) && (forall r :: Sizable(onServer(r)))
    && (forall i :: 0 <= i < |moves| && moves[i].Call? ==> AllSized(RequestFields(moves[i].req)))
    && 2 * |Calls(moves)| < SID_LIMIT
    && AnswerBytes(Expected(tb, Calls(moves)), onServer) <= LIMIT
  }

  lemma {:induction false} ExpectedCount(tb: Tables, ops: seq<ClientOp>)
    requires forall op :: op in ops ==> op.Submit?
    ensures |Expected(tb, ops)| == |ops|
  {
    hide Assembled, DeliveredFields, RequestFields;
    if |ops| > 0 {
      assert ops[|ops| - 1] in ops;
      ExpectedCount(tb, ops[..|ops| - 1]);
    }
  }

  lemma CallsSnoc(moves: seq<Move>, m: Move)
    ensures Calls(moves + [m]) == Calls(moves) + match m case Call(req) => [Submit(req)] case _ => []
  {
    assert (moves + [m])[..|moves|] == moves;
  }

  lemma ReasonableBefore(tb: Tables, onServer: Request -> Response, moves: seq<Move>, m: Move)
    requires Reasonable(tb, onServer, moves + [m])
    ensures Reasonable(tb, onServer, moves)
            && (m.Call? ==> AllSized(RequestFields(m.req)) && 2 * |Calls(moves)| + 1 < SID_LIMIT)
  {
    hide RequestFields, Sizable, Assembled, DeliveredFields, AllSized;
    CallsSnoc(moves, m);
    assert m == (moves + [m])[|moves|];
    forall i | 0 <= i < |moves| && moves[i].Call? ensures AllSized(RequestFields(moves[i].req)) {
      assert (moves + [m])[i] == moves[i];
    }
    if m.Call? {
      assert (Calls(moves) + [Submit(m.req)])[..|Calls(moves)|] == Calls(moves);
      ExpectedSubmit(tb, Calls(moves), m.req);
      AnswerBytesMore(Expected(tb, Calls(moves)), Expected(tb, Calls(moves + [m])), onServer);
    } else {
      assert Calls(moves) + [] == Calls(moves);
    }
  }

  lemma AnswerBytesMore(a: seq<Dispatch>, b: seq<Dispatch>, handler: Request -> Response)
    requires |b| == |a| + 1 && b[..|a|] == a
    ensures AnswerBytes(a, handler) <= AnswerBytes(b, handler)
  {
  }

  lemma ReasonableModest(tb: Tables, onServer: Request -> Response, moves: seq<Move>, ops: seq<ClientOp>)
    requires Reasonable(tb, onServer, moves) && Asked(ops) == Calls(moves)
    ensures Fair(tb, onServer, ops) && |Expected(tb, ops)| == |Calls(moves)|
            && Expected(tb, ops) == Expected(tb, Calls(moves))
  {
    hide Expected, BodyBytes, AnswerBytes, Sizable, RequestFields, AllSized, Calls, Asked;
    AskedSame(tb, ops);
    ExpectedCount(tb, Asked(ops));
  }

  lemma {:induction false} PlayLinked(tb: Tables, onClient: Request -> Response, onServer: Request -> Response,
        moves: seq<Move>)
    returns (ops: seq<ClientOp>, xs: seq<Exchange>)
    requires Reasonable(tb, onServer, moves)
    ensures Play(Begin(tb, onClient, onServer), moves).client.session.alive ==>
              Linked(tb, onClient, onServer, Play(Begin(tb, onClient, onServer), moves), ops, xs)
              && Asked(ops) == Calls(moves)
    decreases |moves|
  {
    hide Linked, After, Begin, Reasonable, Fair, Asked, Expected, Calls;
    if |moves| == 0 {
      ops, xs := [], [];
      LinkedStart(tb, onClient, onServer);
      NoCalls();
      assert moves == [];
    } else {
      var front, m := moves[..|moves| - 1], moves[|moves| - 1];
      assert moves == front + [m];
      ReasonableBefore(tb, onServer, front, m);
      ops, xs := PlayLinked(tb, onClient, onServer, front);
      var w := Play(Begin(tb, onClient, onServer), front);
      DeadStays(w, m);
      if !After(w, m).client.session.alive {
        return;
      }
      assert Addressable(tb) && forall r :: Sizable(onServer(r)) by { ReasonableMeans(tb, onServer, front); }
      ReasonableModest(tb, onServer, front, ops);
      CallsSnoc(front, m);
      match m {
        case Call(req) =>
          var x := CallLinked(tb, onClient, onServer, w, ops, xs, req);
          HeardSnoc(ops, Submit(req));
          ops, xs := ops + [Submit(req)], xs + [x];
        case Up(n) =>
          UpLinked(tb, onClient, onServer, w, ops, xs, n);
          assert Calls(front) + [] == Calls(front);
        case Down(n) =>
          var heard := DownLinked(tb, onClient, onServer, w, ops, xs, n);
          ops := ops + Receives(heard);
          assert Calls(front) + [] == Calls(front);
      }
    }
  }

  /** Nothing revives a client. */
  lemma DeadStays(w: World, m: Move)
    ensures After(w, m).client.session.alive ==> w.client.session.alive
  {
    hide SubmitRequest, Serialize, Parse, ProcessFrame, RequestFields, EncodeBlock, RequestFrames;
    if m.Call? {
      SubmitEffect(w.client.session, m.req);
    }
  }

  lemma {:induction false} AffordableBefore(ops: seq<ClientOp>, op: ClientOp)
    requires Affordable(ops + [op])
    ensures Affordable(ops)
  {
    hide H2Answers.Counted;
    assert (ops + [op])[..|ops|] == ops;
    if op.Submit? {
      CountedAnnounces(WindowAfter(ops), |op.req.body|, 16384);
    }
  }

  /** Counting a body against a window announces no negative credit. */
  lemma {:induction false} CountedAnnounces(w: int, n: nat, max: FrameLimit)
    ensures H2Answers.Counted(w, n, max) + n >= w
    decreases n
  {
    if n > max {
      CountedAnnounces(Topped(w, max), n - max, max);
    }
  }

  lemma CallsAffordable(moves: seq<Move>, m: Move)
    requires Affordable(Calls(moves + [m]))
    ensures Affordable(Calls(moves))
  {
    hide Affordable, Calls;
    CallsSnoc(moves, m);
    if m.Call? {
      AffordableBefore(Calls(moves), Submit(m.req));
    } else {
      assert Calls(moves) + [] == Calls(moves);
    }
  }

  /** With affordable calls the client is alive at every moment. */
  lemma {:induction false} PlayAlive(tb: Tables, onClient: Request -> Response, onServer: Request -> Response,
        moves: seq<Move>)
    requires Reasonable(tb, onServer, moves) && Affordable(Calls(moves))
    ensures Play(Begin(tb, onClient, onServer), moves).client.session.alive
    decreases |moves|
  {
    hide Linked, Begin, Reasonable, Fair, Asked, Expected, Calls, Affordable, Serialize, Parse, Feed, After, Run;
    if |moves| == 0 {
      BornAlive(tb, onClient, onServer);
    } else {
      var front, m := moves[..|moves| - 1], moves[|moves| - 1];
      assert moves == front + [m];
      ReasonableBefore(tb, onServer, front, m);
      CallsAffordable(front, m);
      PlayAlive(tb, onClient, onServer, front);
      var ops, xs := PlayLinked(tb, onClient, onServer, front);
      var w := Play(Begin(tb, onClient, onServer), front);
      ReasonableMeans(tb, onServer, front);
      ReasonableModest(tb, onServer, front, ops);
      MoveAlive(tb, onClient, onServer, w, ops, xs, m) by { AskedAffordable(tb, ops); }
    }
  }

  lemma AskedAffordable(tb: Tables, ops: seq<ClientOp>)
    ensures Affordable(Asked(ops)) <==> Affordable(ops)
  {
    hide Asked, BodyBytes, WindowAfter, Expected;
    AskedSame(tb, ops);
  }

  lemma BornAlive(tb: Tables, onClient: Request -> Response, onServer: Request -> Response)
    ensures Begin(tb, onClient, onServer).client.session.alive
  {
  }

  /** The frames that the next bytes from the server complete. */
  function NextHeard(w: World, n: nat): seq<Frame> {
    Parse(w.client.pending + Through(w.server.session, w.down, n)).frames
  }

  lemma NextIsSaid(tb: Tables, onClient: Request -> Response, onServer: Request -> Response, w: World,
        ops: seq<ClientOp>, xs: seq<Exchange>, n: nat)
    requires Addressable(tb) && Linked(tb, onClient, onServer, w, ops, xs) && Fair(tb, onServer, ops)
    ensures var t := Run(NewSession(Server, tb, onServer), w.client.session.output);
            && HeardFrames(ops) + NextHeard(w, n) <= t.output
            && After(w, Down(n)).client.session == Run(w.client.session, NextHeard(w, n))
            && (w.server.session == t && n >= |Serialize(t.output)| ==> HeardFrames(ops) + NextHeard(w, n) == t.output)
  {
    hide Serialize, Parse, InTouch, NewSession, Run, ClientRun, Fair, HeardFrames, Expected, Fits;
    var s := w.server.session;
    SoFar(tb, onClient, onServer, w, ops, xs);
    var w', bytes, data := After(w, Down(n)), Serialize(s.output), Through(s, w.down, n);
    ParseAppend(bytes[..w.down], data);
    assert bytes[..w.down] + data == bytes[..w'.down];
    assert forall f :: f in s.output ==> f in Run(NewSession(Server, tb, onServer), w.client.session.output).output;
    ParsePrefix(s.output, w'.down);
  }

  lemma MoveAlive(tb: Tables, onClient: Request -> Response, onServer: Request -> Response, w: World,
        ops: seq<ClientOp>, xs: seq<Exchange>, m: Move)
    requires Addressable(tb) && Linked(tb, onClient, onServer, w, ops, xs) && Fair(tb, onServer, ops)
             && w.client.session.alive && Affordable(ops)
    ensures After(w, m).client.session.alive
  {
    hide SubmitRequest, Serialize, Parse, Run, RequestFields, EncodeBlock, RequestFrames, InTouch, NewSession,
      ClientRun, Fair, Affordable, HeardFrames, NextHeard;
    match m
    case Call(req) => SubmitEffect(w.client.session, req);
    case Up(_) =>
    case Down(n) =>
      NextIsSaid(tb, onClient, onServer, w, ops, xs, n);
      AffordableAlive(tb, onClient, onServer, ops, xs, NextHeard(w, n));
  }

  lemma NoCalls()
    ensures Calls([]) == [] && Asked([]) == []
  {
  }

  lemma ReasonableMeans(tb: Tables, onServer: Request -> Response, moves: seq<Move>)
    requires Reasonable(tb, onServer, moves)
    ensures Addressable(tb) && forall r :: Sizable(onServer(r))
  {
  }

  /**
    Whatever the order of calls and arrivals: the client is alive as long as the calls are affordable, and while it
    is, so is the server; it has dispatched some first part of the calls, each once and in order, and the client's
    promises hold the answers of the handler to some first part of them, in order.
   */
  lemma AnyOrder(tb: Tables, onClient: Request -> Response, onServer: Request -> Response, moves: seq<Move>)
    requires Reasonable(tb, onServer, moves)
    ensures var w := Play(Begin(tb, onClient, onServer), moves);
            var asked := Expected(tb, Calls(moves));
            && (Affordable(Calls(moves)) ==> w.client.session.alive)
            && (w.client.session.alive ==>
                  && w.server.session.alive && w.server.session.dispatched <= asked
                  && w.client.session.completed <= AnswersTo(tb, asked, onServer))
  {
    hide Play, Begin, Reasonable, Fair, Asked, Expected, Calls, Serialize, Parse, InTouch, NewSession, Run, ClientRun,
      AnswersTo, HeardFrames, Feed, Affordable;
    var ops, xs := PlayLinked(tb, onClient, onServer, moves);
    var w := Play(Begin(tb, onClient, onServer), moves);
    ReasonableMeans(tb, onServer, moves);
    if w.client.session.alive {
      ReasonableModest(tb, onServer, moves, ops);
      SoFar(tb, onClient, onServer, w, ops, xs);
      TouchReturns(tb, onClient, onServer, ops, xs);
    }
    if Affordable(Calls(moves)) {
      PlayAlive(tb, onClient, onServer, moves);
    }
  }

  lemma PlayTwo(w: World, moves: seq<Move>, a: Move, b: Move)
    ensures Play(w, moves + [a, b]) == After(After(Play(w, moves), a), b)
    ensures Play(w, moves + [a]) == After(Play(w, moves), a)
    ensures !a.Call? && !b.Call? ==> Calls(moves + [a, b]) == Calls(moves) == Calls(moves + [a])
  {
    hide After;
    assert moves + [a, b] == (moves + [a]) + [b];
    assert ((moves + [a]) + [b])[..|moves| + 1] == moves + [a];
    assert (moves + [a])[..|moves|] == moves;
    CallsSnoc(moves, a);
    CallsSnoc(moves + [a], b);
    var none: seq<ClientOp> := [];
    assert Calls(moves) + none == Calls(moves);
  }

  lemma StillReasonable(tb: Tables, onServer: Request -> Response, moves: seq<Move>, a: Move)
    requires Reasonable(tb, onServer, moves) && !a.Call?
    ensures Reasonable(tb, onServer, moves + [a])
  {
    hide RequestFields, Sizable, AllSized, Expected, AnswerBytes, BodyBytes;
    CallsSnoc(moves, a);
    var none: seq<ClientOp> := [];
    assert Calls(moves) + none == Calls(moves);
  }

  /**
    Once what is under way to the server has got through, and then what is under way to the client: the client is
    alive if and only if the calls are affordable, and then every call has returned.
   */
  lemma EveryCallReturns(tb: Tables, onClient: Request -> Response, onServer: Request -> Response, moves: seq<Move>,
        n: nat, m: nat)
    requires Reasonable(tb, onServer, moves)
    requires n >= |Serialize(Play(Begin(tb, onClient, onServer), moves).client.session.output)|
    requires m >= |Serialize(Play(Begin(tb, onClient, onServer), moves + [Up(n)]).server.session.output)|
    ensures var w := Play(Begin(tb, onClient, onServer), moves + [Up(n), Down(m)]);
            var asked := Expected(tb, Calls(moves));
            && (w.client.session.alive <==> Affordable(Calls(moves)))
            && (w.client.session.alive ==>
                  && w.server.session.alive && w.server.session.dispatched == asked
                  && w.client.session.completed == AnswersTo(tb, asked, onServer))
  {
    hide Play, Begin, Reasonable, Fair, Asked, Expected, Calls, Serialize, Parse, InTouch, NewSession, Run, ClientRun,
      AnswersTo, HeardFrames, Feed, Affordable;
    StillReasonable(tb, onServer, moves, Up(n));
    ReasonableMeans(tb, onServer, moves);
    PlayTwo(Begin(tb, onClient, onServer), moves, Up(n), Down(m));
    var w0 := Play(Begin(tb, onClient, onServer), moves);
    var w1 := After(w0, Up(n));
    var ops, xs := PlayLinked(tb, onClient, onServer, moves + [Up(n)]);
    var before, said := PlayLinked(tb, onClient, onServer, moves);
    DeadStays(w1, Down(m));
    DeadStays(w0, Up(n));
    if w1.client.session.alive {
      ReasonableModest(tb, onServer, moves + [Up(n)], ops);
      SoFar(tb, onClient, onServer, w1, ops, xs);
      assert w1.server.session == Run(NewSession(Server, tb, onServer), w1.client.session.output);
      AskedAffordable(tb, ops);
      LastDown(tb, onClient, onServer, w1, ops, xs, m);
    } else if Affordable(Calls(moves)) {
      PlayAlive(tb, onClient, onServer, moves + [Up(n)]);
    }
  }

  /** With the whole output of both sides got through, the client has heard it all. */
  lemma LastDown(tb: Tables, onClient: Request -> Response, onServer: Request -> Response, w: World, ops: seq<ClientOp>,
        xs: seq<Exchange>, m: nat)
    requires Addressable(tb) && Linked(tb, onClient, onServer, w, ops, xs) && Fair(tb, onServer, ops)
    requires w.server.session == Run(NewSession(Server, tb, onServer), w.client.session.output)
             && m >= |Serialize(w.server.session.output)|
    ensures var w' := After(w, Down(m));
            && (w'.client.session.alive <==> Affordable(ops))
            && (w'.client.session.alive ==>
                  && w'.server.session.alive && w'.server.session.dispatched == Expected(tb, ops)
                  && w'.client.session.completed == AnswersTo(tb, Expected(tb, ops), onServer))
  {
    hide Fair, Asked, Expected, Serialize, Parse, InTouch, NewSession, Run, ClientRun, AnswersTo, HeardFrames, Fits,
      Affordable, NextHeard;
    var s := w.server.session;
    SoFar(tb, onClient, onServer, w, ops, xs);
    NextIsSaid(tb, onClient, onServer, w, ops, xs, m);
    AffordableAlive(tb, onClient, onServer, ops, xs, NextHeard(w, m));
    if After(w, Down(m)).client.session.alive {
      ParsePrefix(s.output, |Serialize(s.output)|);
      assert Serialize(s.output)[..|Serialize(s.output)|] == Serialize(s.output);
      var heard := DownLinked(tb, onClient, onServer, w, ops, xs, m);
      var all := ops + Receives(heard);
      TouchReturns(tb, onClient, onServer, all, xs);
      AskedSame(tb, ops);
      AskedSame(tb, all);
    }
  }

  // ---------------------------------------------------------------- with the real tables

  /** Every call's header list survives the string code, and so does the answer to it. */
  ghost predicate Surviving(onServer: Request -> Response, moves: seq<Move>) {
    && (forall op :: op in Calls(moves) && op.Submit? ==> H2Requests.Survives(op.req))
    && forall d :: d in H2Requests.Submitted(Calls(moves)) ==> H2Calls.AnswerSurvives(onServer(d.req))
  }

  lemma SurvivingAnswers(onServer: Request -> Response, moves: seq<Move>)
    requires Surviving(onServer, moves)
    ensures var asked := Expected(HpackTables.Shared(), Calls(moves));
            && asked == H2Requests.Submitted(Calls(moves))
            && AnswersTo(HpackTables.Shared(), asked, onServer) == H2Calls.Returned(Calls(moves), onServer)
  {
    hide HpackTables.Shared, Expected, H2Requests.Survives, H2Requests.Submitted, H2Calls.AnswerSurvives, AnswersTo,
      H2Calls.Returned, Calls;
    H2Requests.SurvivorsExpected(Calls(moves));
    H2Calls.AnswersAreReturned(Calls(moves), onServer);
  }

  /**
    Remote calls in any order: with the real tables the handler sees the canonical requests and the callers get the
    canonical form of its responses, each in the order of the calls, at every moment some first part of them, and all
    of them once the bytes under way have got through, first to the server and then to the client.
   */
  lemma CallsReturnInAnyOrder(onClient: Request -> Response, onServer: Request -> Response, moves: seq<Move>,
        n: nat, m: nat)
    requires Reasonable(HpackTables.Shared(), onServer, moves) && Surviving(onServer, moves)
    ensures var w := Play(Begin(HpackTables.Shared(), onClient, onServer), moves);
            && (Affordable(Calls(moves)) ==> w.client.session.alive)
            && (w.client.session.alive ==>
                  && w.server.session.alive && w.server.session.dispatched <= H2Requests.Submitted(Calls(moves))
                  && w.client.session.completed <= H2Calls.Returned(Calls(moves), onServer)
                  && H2Calls.AllEcho(Calls(moves), onServer, w.client.session.completed))
    ensures var w := Play(Begin(HpackTables.Shared(), onClient, onServer), moves + [Up(n), Down(m)]);
            n >= |Serialize(Play(Begin(HpackTables.Shared(), onClient, onServer), moves).client.session.output)|
            && m >= |Serialize(Play(Begin(HpackTables.Shared(), onClient, onServer),
              moves + [Up(n)]).server.session.output)| ==>
              && (w.client.session.alive <==> Affordable(Calls(moves)))
              && (w.client.session.alive ==>
                    && w.server.session.dispatched == H2Requests.Submitted(Calls(moves))
                    && w.client.session.completed == H2Calls.Returned(Calls(moves), onServer))
  {
    hide HpackTables.Shared, Expected, H2Requests.Submitted, AnswersTo, H2Calls.Returned, Calls, Play, Begin,
      Reasonable, Surviving, Serialize, Affordable, H2Calls.AllEcho;
    SurvivingAnswers(onServer, moves);
    AnyOrder(HpackTables.Shared(), onClient, onServer, moves);
    var done := Play(Begin(HpackTables.Shared(), onClient, onServer), moves).client.session.completed;
    if done <= H2Calls.Returned(Calls(moves), onServer) {
      H2Calls.ReturnedEcho(Calls(moves), onServer, done);
    }
    if n >= |Serialize(Play(Begin(HpackTables.Shared(), onClient, onServer), moves).client.session.output)|
      && m >= |Serialize(Play(Begin(HpackTables.Shared(), onClient, onServer),
        moves + [Up(n)]).server.session.output)| {
      EveryCallReturns(HpackTables.Shared(), onClient, onServer, moves, n, m);
    }
  }
}
