/**
  When the server of an overlapping conversation gives up, for bodies of any size: once it has got what the client
  sent, it is alive exactly if the credit in it fits the window that the server never debits.
 */
module H2OverlapEnds {
  import opened Bytes
  import opened H2Frame
  import opened HttpTypes
  import opened Hpack
  import opened H2Session
  import opened H2EndToEnd
  import opened H2TwoWay
  import opened H2Overlap

  /** Sizes fit the machine; nothing is asked of the answers. */
  ghost predicate Fitting(tb: Tables, moves: seq<Move>) {
    && Addressable(tb) && 2 * |Calls(moves)| < SID_LIMIT
    && forall i :: 0 <= i < |moves| && moves[i].Call? ==> AllSized(RequestFields(moves[i].req))
  }

  /** The client is some run of submissions and received frames, and the server has a prefix of what it sent. */
  ghost predicate Follows(tb: Tables, onClient: Request -> Response, onServer: Request -> Response, w: World,
        ops: seq<ClientOp>) {
    var c := w.client.session;
    && c == ClientRun(NewSession(Client, tb, onClient), ops) && OrdinaryRun(NewSession(Client, tb, onClient), ops)
    && w.up <= |Serialize(c.output)|
    && w.server == Feed(Inbox(NewSession(Server, tb, onServer), []), Serialize(c.output)[..w.up])
  }

  lemma FollowsStart(tb: Tables, onClient: Request -> Response, onServer: Request -> Response)
    ensures Follows(tb, onClient, onServer, Begin(tb, onClient, onServer), [])
  {
    hide Serialize, Parse, NewSession, Run;
    NothingPending();
    NothingNew([]);
    RunNone(NewSession(Server, tb, onServer));
    var none: seq<byte> := [];
    assert none + none == none;
    assert Serialize(NewSession(Client, tb, onClient).output)[..0] == [];
  }

  lemma CallFollows(tb: Tables, onClient: Request -> Response, onServer: Request -> Response, w: World,
        ops: seq<ClientOp>, req: Request)
    requires Follows(tb, onClient, onServer, w, ops)
    requires AllSized(RequestFields(req)) && w.client.session.nextSid < SID_LIMIT
    ensures Follows(tb, onClient, onServer, After(w, Call(req)), ops + [Submit(req)])
  {
    hide Serialize, Parse, NewSession, Run, ClientRun, OrdinaryRun, SubmitRequest, RequestFields, EncodeBlock,
      RequestFrames;
    var c := w.client.session;
    RunSnoc(NewSession(Client, tb, onClient), ops, Submit(req));
    OrdinarySnoc(NewSession(Client, tb, onClient), ops, Submit(req));
    SubmitEffect(c, req);
    SerializePrefix(c.output, SubmitRequest(c, req, false).output);
    assert Serialize(SubmitRequest(c, req, false).output)[..w.up] == Serialize(c.output)[..w.up];
  }

  lemma UpFollows(tb: Tables, onClient: Request -> Response, onServer: Request -> Response, w: World,
        ops: seq<ClientOp>, n: nat)
    requires Follows(tb, onClient, onServer, w, ops)
    ensures Follows(tb, onClient, onServer, After(w, Up(n)), ops)
  {
    hide Serialize, Parse, NewSession, Run, ClientRun, OrdinaryRun, StartsWithFrame;
    var bytes, data, w' := Serialize(w.client.session.output), Through(w.client.session, w.up, n), After(w, Up(n));
    NothingPending();
    FeedTwice(Inbox(NewSession(Server, tb, onServer), []), bytes[..w.up], data);
    assert bytes[..w.up] + data == bytes[..w'.up];
  }

  lemma {:induction false} ParsedFit(s: seq<byte>)
    ensures forall f :: f in Parse(s).frames ==> Fits(f)
    decreases |s|
  {
    hide Fits, FirstFrame;
    if StartsWithFrame(s) {
      ParsedFit(s[FrameEnd(s)..]);
    }
  }

  /** Frames a client survives are received one by one. */
  lemma {:induction false} ReceivesOrdinary(c0: Session, ops: seq<ClientOp>, fs: seq<Frame>)
    requires OrdinaryRun(c0, ops) && Run(ClientRun(c0, ops), fs).alive && forall f :: f in fs ==> Fits(f)
    ensures OrdinaryRun(c0, ops + Receives(fs)) && ClientRun(c0, ops + Receives(fs)) == Run(ClientRun(c0, ops), fs)
    ensures Asked(ops + Receives(fs)) == Asked(ops)
    decreases |fs|
  {
    hide OrdinaryRun, ClientRun, ProcessFrame, Run, Asked, HeardFrames, Fits;
    var c := ClientRun(c0, ops);
    if |fs| == 0 {
      assert ops + Receives(fs) == ops && fs == [];
      RunNone(c);
    } else {
      var f, more := fs[0], ops + [Receive(fs[0])];
      assert f in fs;
      StillAlive(c, fs);
      RunCons(c, fs);
      StillAlive(ProcessFrame(c, f), fs[1..]);
      OrdinarySnoc(c0, ops, Receive(f));
      RunSnoc(c0, ops, Receive(f));
      HeardSnoc(ops, Receive(f));
      assert Asked(ops) + [] == Asked(ops);
      ReceivesOrdinary(c0, more, fs[1..]);
      assert more + Receives(fs[1..]) == ops + Receives(fs);
    }
  }

  lemma DownFollows(tb: Tables, onClient: Request -> Response, onServer: Request -> Response, w: World,
        ops: seq<ClientOp>, n: nat)
    requires Follows(tb, onClient, onServer, w, ops) && After(w, Down(n)).client.session.alive
    ensures Follows(tb, onClient, onServer, After(w, Down(n)), ops + Receives(NextHeard(w, n)))
    ensures Asked(ops + Receives(NextHeard(w, n))) == Asked(ops)
  {
    hide Serialize, Parse, NewSession, Run, ClientRun, OrdinaryRun, Asked;
    var c, heard := w.client.session, NextHeard(w, n);
    ParsedFit(w.client.pending + Through(w.server.session, w.down, n));
    ReceivesOrdinary(NewSession(Client, tb, onClient), ops, heard);
    RunSteady(c, heard);
    SerializePrefix(c.output, Run(c, heard).output);
    assert Serialize(Run(c, heard).output)[..w.up] == Serialize(c.output)[..w.up];
  }

  lemma FittingBefore(tb: Tables, moves: seq<Move>, m: Move)
    requires Fitting(tb, moves + [m])
    ensures Fitting(tb, moves) && (m.Call? ==> AllSized(RequestFields(m.req)) && 2 * |Calls(moves)| + 1 < SID_LIMIT)
  {
    hide RequestFields, AllSized;
    CallsSnoc(moves, m);
    assert m == (moves + [m])[|moves|];
    forall i | 0 <= i < |moves| && moves[i].Call? ensures AllSized(RequestFields(moves[i].req)) {
      assert (moves + [m])[i] == moves[i];
    }
  }

  /** The next stream of a client is told by its submissions. */
  lemma {:induction false} NextStream(c0: Session, ops: seq<ClientOp>)
    ensures ClientRun(c0, ops).nextSid == c0.nextSid + 2 * |Asked(ops)|
  {
    hide ProcessFrame, SubmitRequest, RequestFields, EncodeBlock, RequestFrames;
    if |ops| > 0 {
      var c, op := ClientRun(c0, ops[..|ops| - 1]), ops[|ops| - 1];
      NextStream(c0, ops[..|ops| - 1]);
      match op
      case Submit(req) => SubmitEffect(c, req);
      case Receive(f) => FrameSteady(c, f);
    }
  }

  lemma {:induction false} PlayFollows(tb: Tables, onClient: Request -> Response, onServer: Request -> Response,
        moves: seq<Move>)
    returns (ops: seq<ClientOp>)
    requires Fitting(tb, moves)
    ensures Play(Begin(tb, onClient, onServer), moves).client.session.alive ==>
              Follows(tb, onClient, onServer, Play(Begin(tb, onClient, onServer), moves), ops)
              && Asked(ops) == Calls(moves)
    decreases |moves|
  {
    hide Follows, After, Begin, Fitting, Asked, Calls;
    if |moves| == 0 {
      ops := [];
      FollowsStart(tb, onClient, onServer);
      NoCalls();
      assert moves == [];
    } else {
      var front, m := moves[..|moves| - 1], moves[|moves| - 1];
      assert moves == front + [m];
      FittingBefore(tb, front, m);
      ops := PlayFollows(tb, onClient, onServer, front);
      var w := Play(Begin(tb, onClient, onServer), front);
      DeadStays(w, m);
      if !After(w, m).client.session.alive {
        return;
      }
      CallsSnoc(front, m);
      match m {
        case Call(req) =>
          FollowsNext(tb, onClient, onServer, w, ops);
          CallFollows(tb, onClient, onServer, w, ops, req);
          HeardSnoc(ops, Submit(req));
          ops := ops + [Submit(req)];
        case Up(n) =>
          UpFollows(tb, onClient, onServer, w, ops, n);
          assert Calls(front) + [] == Calls(front);
        case Down(n) =>
          DownFollows(tb, onClient, onServer, w, ops, n);
          ops := ops + Receives(NextHeard(w, n));
          assert Calls(front) + [] == Calls(front);
      }
    }
  }

  lemma FollowsNext(tb: Tables, onClient: Request -> Response, onServer: Request -> Response, w: World,
        ops: seq<ClientOp>)
    requires Follows(tb, onClient, onServer, w, ops)
    ensures w.client.session.nextSid == 2 * |Asked(ops)| + 1
  {
    hide ClientRun, OrdinaryRun, Serialize, Parse, Run, Asked, InitialSettings;
    NextStream(NewSession(Client, tb, onClient), ops);
  }

  /**
    Whatever the order of calls and arrivals and whatever their sizes, as long as the client is alive: once the bytes
    under way to the server have got through, it is alive if and only if the credit the client has announced fits its
    window, and it has dispatched the calls in order, all of them if it is alive and a first part if it is not.
   */
  lemma ServerEnds(tb: Tables, onClient: Request -> Response, onServer: Request -> Response, moves: seq<Move>, n: nat)
    requires Fitting(tb, moves) && Play(Begin(tb, onClient, onServer), moves).client.session.alive
    requires n >= |Serialize(Play(Begin(tb, onClient, onServer), moves).client.session.output)|
    ensures var w := Play(Begin(tb, onClient, onServer), moves + [Up(n)]);
            var s, asked := w.server.session, Expected(tb, Calls(moves));
            && (s.alive <==> WithinCredit(w.client.session)) && s.fate == Returned
            && s.dispatched <= asked && (s.alive ==> s.dispatched == asked)
  {
    hide Play, Begin, Asked, Expected, Calls, Serialize, Parse, NewSession, Run, ClientRun, OrdinaryRun, WithinCredit;
    var ops := PlayFollows(tb, onClient, onServer, moves);
    PlayTwo(Begin(tb, onClient, onServer), moves, Up(n), Up(n));
    var w0 := Play(Begin(tb, onClient, onServer), moves);
    var w := After(w0, Up(n));
    UpFollows(tb, onClient, onServer, w0, ops, n);
    AllGotThrough(tb, onClient, onServer, w, ops);
    AskedSame(tb, ops);
  }

  lemma AllGotThrough(tb: Tables, onClient: Request -> Response, onServer: Request -> Response, w: World,
        ops: seq<ClientOp>)
    requires Addressable(tb) && Follows(tb, onClient, onServer, w, ops) && w.up == |Serialize(w.client.session.output)|
    ensures var s := w.server.session;
            && (s.alive <==> WithinCredit(w.client.session)) && s.fate == Returned
            && s.dispatched <= Expected(tb, ops) && (s.alive ==> s.dispatched == Expected(tb, ops))
  {
    hide Expected, Serialize, Parse, NewSession, Run, ClientRun, OrdinaryRun, WithinCredit, Fits;
    var c := w.client.session;
    StepByStep(tb, onClient, onServer, ops);
    ParsePrefix(c.output, w.up);
    var got := Serialize(c.output)[..w.up];
    assert [] + got == got;
  }
}
