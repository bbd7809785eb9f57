/** Bytes into the session object: what its feed loop makes of a client's output, cut in any way. */
module H2Delivery {
  import opened Bytes
  import opened H2Frame
  import opened HttpTypes
  import opened Hpack
  import opened H2Session
  import opened H2EndToEnd
  import opened Http2SessionObject
  import H2Requests
  import H2Responses
  import H2Calls
  import H2Answers
  import HpackTables

  /** A dead session ignores whatever else arrives. */
  lemma {:induction false} DeadForever(i: Inbox, chunks: seq<seq<byte>>)
    requires !i.session.alive
    ensures FeedAll(i, chunks).session == i.session
    decreases |chunks|
  {
    hide Parse, ProcessFrame;
    if |chunks| > 0 {
      DeadForever(H2EndToEnd.Feed(i, chunks[0]), chunks[1..]);
    }
  }

  lemma FeedFirst(i: Inbox, chunks: seq<seq<byte>>)
    requires |chunks| > 0
    ensures FeedAll(i, chunks) == FeedAll(H2EndToEnd.Feed(i, chunks[0]), chunks[1..])
  {
    hide Parse, Run;
  }

  /** Feeding a session object chunk by chunk. */
  method DeliverAll(server: Http2Session, chunks: seq<seq<byte>>)
    requires server.Ready()
    modifies server, server.reader, server.reader.headerBuf
    ensures server.Ready() && server.taken == old(server.taken)
    ensures server.View() == FeedAll(Inbox(old(server.View()), old(server.reader.Pending())), chunks).session
  {
    hide Run, Parse, Serialize, StartsWithFrame, FeedAll;
    ghost var want := FeedAll(Inbox(server.View(), server.reader.Pending()), chunks).session;
    assert chunks[0..] == chunks;
    for k := 0 to |chunks|
      invariant server.Ready() && server.taken == old(server.taken)
      invariant FeedAll(Inbox(server.View(), server.reader.Pending()), chunks[k..]).session == want
    {
      ghost var before := Inbox(server.View(), server.reader.Pending());
      assert chunks[k..][0] == chunks[k] && chunks[k..][1..] == chunks[k + 1..];
      FeedFirst(before, chunks[k..]);
      if !server.alive {
        DeadForever(before, chunks[k..]);
      }
      var _ := server.Feed(chunks[k]);
      ghost var after := Inbox(server.View(), server.reader.Pending());
      if !server.alive {
        DeadForever(after, chunks[k + 1..]);
        DeadForever(Inbox(server.View(), H2EndToEnd.Feed(before, chunks[k]).pending), chunks[k + 1..]);
      }
    }
    NothingLeft(Inbox(server.View(), server.reader.Pending()), chunks[|chunks|..]);
  }

  lemma NothingLeft(i: Inbox, chunks: seq<seq<byte>>)
    requires |chunks| == 0
    ensures FeedAll(i, chunks) == i
  {
  }

  /**
    A new server object fed with the output of a client run has handed exactly the submitted requests to its handler,
    in order.
   */
  method ServeAll(ghost onClient: Request -> Response, onServer: Request -> Response, ghost ops: seq<ClientOp>,
        chunks: seq<seq<byte>>)
    returns (server: Http2Session)
    requires OrdinaryRun(NewSession(Client, HpackTables.Shared(), onClient), ops)
    requires forall op :: op in ops && op.Submit? ==> H2Requests.Survives(op.req)
    requires Concat(chunks) == Serialize(ClientRun(NewSession(Client, HpackTables.Shared(), onClient), ops).output)
    ensures server.Ready()
    ensures server.alive <==> WithinCredit(ClientRun(NewSession(Client, HpackTables.Shared(), onClient), ops))
    ensures server.dispatched <= H2Requests.Submitted(ops)
            && (server.alive ==> server.dispatched == H2Requests.Submitted(ops))
  {
    hide HpackTables.Shared, OrdinaryRun, ClientRun, Serialize, FeedAll, Concat, H2Requests.Survives,
      H2Requests.Submitted, InitialSettings, NewSession, WithinCredit;
    server := new Http2Session(Server, HpackTables.Shared(), onServer);
    H2Requests.RequestsEndToEnd(onClient, onServer, ops, chunks);
    DeliverAll(server, chunks);
  }

  // ---------------------------------------------------------------- a conversation of two objects

  function Asks(reqs: seq<Request>): (ops: seq<ClientOp>)
    ensures |ops| == |reqs| && forall i :: 0 <= i < |reqs| ==> ops[i] == Submit(reqs[i])
  {
    seq(|reqs|, i requires 0 <= i < |reqs| => Submit(reqs[i]))
  }

  /** Bytes in pieces of a given size. */
  method Chop(bytes: seq<byte>, size: nat) returns (chunks: seq<seq<byte>>)
    requires size > 0
    ensures Concat(chunks) == bytes
  {
    chunks := [];
    var rest := bytes;
    while |rest| > 0
      invariant Concat(chunks) + rest == bytes
      decreases |rest|
    {
      var n := Min(size, |rest|);
      ConcatSnoc(chunks, rest[..n]);
      assert rest == rest[..n] + rest[n..];
      chunks := chunks + [rest[..n]];
      rest := rest[n..];
    }
  }

  lemma {:induction false} ConcatSnoc(chunks: seq<seq<byte>>, c: seq<byte>)
    ensures Concat(chunks + [c]) == Concat(chunks) + c
  {
    if |chunks| == 0 {
      assert (chunks + [c])[1..] == [];
      assert Concat((chunks + [c])[1..]) == [];
    } else {
      ConcatSnoc(chunks[1..], c);
      assert (chunks + [c])[1..] == chunks[1..] + [c];
    }
  }

  lemma BornAlive(tb: Tables, handler: Request -> Response)
    ensures NewSession(Client, tb, handler).alive
  {
  }

  /** Submit a list of requests on a new client. */
  method SubmitAll(onClient: Request -> Response, reqs: seq<Request>) returns (client: Http2Session)
    ensures client.Ready() && client.taken == [] && client.reader.Pending() == [] && fresh(client)
            && fresh(client.reader) && fresh(client.reader.headerBuf)
    ensures client.View() == ClientRun(NewSession(Client, HpackTables.Shared(), onClient), Asks(reqs))
  {
    hide HpackTables.Shared, SubmitRequest, NewSession, Serialize;
    client := new Http2Session(Client, HpackTables.Shared(), onClient);
    ghost var c0 := client.View();
    assert client.alive by { BornAlive(HpackTables.Shared(), onClient); }
    assert Asks(reqs[..0]) == [] && ClientRun(c0, []) == c0;
    for i := 0 to |reqs|
      invariant client.Ready() && client.taken == [] && client.reader.Pending() == [] && fresh(client.reader)
                && fresh(client.reader.headerBuf)
      invariant client.View() == ClientRun(c0, Asks(reqs[..i]))
      invariant client.alive
    {
      var _ := client.SubmitTheRequest(reqs[i], false);
      assert Asks(reqs[..i + 1])[..i] == Asks(reqs[..i]);
      assert client.alive by { SubmitEffect(ClientRun(c0, Asks(reqs[..i])), reqs[i]); }
    }
    assert reqs[..|reqs|] == reqs;
  }

  /**
    A client object submits requests, its bytes travel in pieces of one size to a new server object, whose bytes
    travel back in pieces of another: exactly when the bodies are affordable, as they are up to 2^31 - 65536 bytes in
    all, the client is alive, and its promises hold the handler's responses, in order.
   */
  method CallAll(onClient: Request -> Response, onServer: Request -> Response, reqs: seq<Request>,
        there: nat, back: nat)
    returns (client: Http2Session)
    requires there > 0 && back > 0
    requires OrdinaryRun(NewSession(Client, HpackTables.Shared(), onClient), Asks(reqs))
    requires forall r :: r in reqs ==> H2Requests.Survives(r)
    requires forall r :: H2Responses.Sizable(onServer(r))
    requires forall d :: d in H2Requests.Submitted(Asks(reqs)) ==> H2Calls.AnswerSurvives(onServer(d.req))
    ensures client.Ready() && (client.alive <==> H2Answers.Affordable(Asks(reqs)))
    ensures client.alive ==> client.completed == H2Calls.Returned(Asks(reqs), onServer)
    ensures client.alive ==> |client.completed| == |H2Requests.Submitted(Asks(reqs))|
    ensures H2Calls.AllEcho(Asks(reqs), onServer, client.completed)
    ensures H2Answers.BodyBytes(Asks(reqs)) <= MAX_WINDOW_SIZE - DEFAULT_WINDOW ==> client.alive
    ensures H2Answers.BodyBytes(Asks(reqs)) > MAX_WINDOW_SIZE - DEFAULT_WINDOW / 2 ==> !client.alive
  {
    hide HpackTables.Shared, OrdinaryRun, ClientRun, Serialize, FeedAll, Concat, H2Requests.Survives,
      H2Requests.Submitted, NewSession, H2Responses.Sizable, H2Calls.AnswerSurvives, H2Calls.Returned,
      H2Calls.AllEcho,
      H2Answers.Affordable, H2Answers.BodyBytes;
    client := SubmitAll(onClient, reqs);
    ghost var c := client.View();
    var wire := client.GetPendingOutput();
    assert [] + wire == wire;
    var pieces := Chop(wire, there);
    var server := new Http2Session(Server, HpackTables.Shared(), onServer);
    DeliverAll(server, pieces);
    var answer := TakeAll(server);
    var backPieces := Chop(answer, back);
    H2Calls.CallsReturn(onClient, onServer, Asks(reqs), pieces, backPieces);
    DeliverAll(client, backPieces);
  }

  /** All output of a session whose output has never been taken. */
  method TakeAll(s: Http2Session) returns (bytes: seq<byte>)
    requires s.Ready() && s.taken == []
    modifies s
    ensures s.Ready() && s.View() == old(s.View()) && bytes == Serialize(s.log)
  {
    hide Serialize;
    bytes := s.GetPendingOutput();
    assert [] + bytes == bytes;
  }
}
