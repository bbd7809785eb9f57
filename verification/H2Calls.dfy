/** The round trip with the real tables, stated on whole requests and responses. */
module H2Calls {
  import opened Bytes
  import opened DynamicTable
  import opened H2Frame
  import opened HttpTypes
  import opened Hpack
  import opened H2Session
  import opened H2Books
  import opened H2EndToEnd
  import opened H2Requests
  import opened H2Responses
  import opened H2Answers
  import opened HttpLists
  import HpackTables

  // ---------------------------------------------------------------- the status line

  /** A status that fits an int is read back from its decimal form. */
  lemma StatusRoundTrip(n: int)
    requires -0x8000_0000 <= n <= 0x7FFF_FFFF
    ensures StatusOf(Decimal(n)) == n
  {
    hide Decimal, StatusOf, Writes;
    DecimalWrites(n);
    WrittenIsRead(Decimal(n), n);
  }

  // ---------------------------------------------------------------- what the caller gets

  /** Content type and length take the place of the application's own; two more are not for HTTP/2. */
  function Replaced(): set<seq<byte>> {
    {Ascii("content-type"), Ascii("content-length"), Ascii("connection"), Ascii("transfer-encoding")}
  }

  function TypeField(resp: Response): seq<Field> {
    var v := Get(resp.hdrs, Ascii("Content-Type"));
    if v.Some? then [Field(Ascii("content-type"), v.value)] else []
  }

  function LengthField(resp: Response): seq<Field> {
    if resp.body != [] then [Field(Ascii("content-length"), Decimal(|resp.body|))] else []
  }

  /** The fields behind the status. */
  function PlainPart(resp: Response): seq<Field> {
    TypeField(resp) + LengthField(resp) + Forwarded(resp.hdrs, Replaced())
  }

  lemma FieldsAre(resp: Response)
    ensures ResponseFields(resp, true) == [Field(Ascii(":status"), Decimal(resp.status))] + PlainPart(resp)
    ensures ResponseFields(resp, false)
         == [Field(Ascii(":status"), Decimal(resp.status))] + TypeField(resp) + Forwarded(resp.hdrs, Replaced())
  {
    hide Forwarded, Get, Decimal, Ascii;
    var none: seq<Field> := [];
    assert forall a: seq<Field> :: a + none == a;
  }

  // ---------------------------------------------------------------- what that means

  ghost predicate IsType(hdrs: seq<Field>, fs: seq<Field>) {
    || (fs == [] && FirstUnder(hdrs, Ascii("content-type"), None))
    || (|fs| == 1 && fs[0].name == Ascii("content-type") && FirstUnder(hdrs, Ascii("content-type"), Some(fs[0].value)))
  }

  ghost predicate IsLength(body: seq<byte>, fs: seq<Field>) {
    if body == [] then fs == []
    else |fs| == 1 && fs[0].name == Ascii("content-length") && Denotes(fs[0].value, |body|)
  }

  /**
    What the caller gets is what the handler gave: the status and the body, the content type if there is one, the
    length of the body if it is not empty, every other header but connection and transfer-encoding, lower-cased, once
    each and in order, and the trailers behind them.
   */
  ghost predicate EchoedAs(resp: Response, got: Response, ct: seq<Field>, cl: seq<Field>, rest: seq<Field>,
        ts: seq<Field>) {
    && got.status == resp.status && got.version.Http2? && got.body == resp.body && got.trailers == []
    && got.hdrs == ct + cl + rest + ts && IsType(resp.hdrs, ct) && IsLength(resp.body, cl)
    && Lowered(resp.hdrs, Replaced(), rest) && Lowered(resp.trailers, {}, ts)
  }

  ghost predicate Echoes(resp: Response, got: Response) {
    exists ct, cl, rest, ts :: EchoedAs(resp, got, ct, cl, rest, ts)
  }

  lemma TypeIs(resp: Response)
    ensures IsType(resp.hdrs, TypeField(resp))
  {
    hide Ascii, FirstUnder, Lower;
    GetIsFirst(resp.hdrs, Ascii("Content-Type"));
    LowerType();
  }

  lemma LowerType()
    ensures Lower(Ascii("Content-Type")) == Ascii("content-type")
  {
    var a, b := Ascii("Content-Type"), Ascii("content-type");
    assert |a| == 12 && |b| == 12;
  }

  lemma LengthIs(resp: Response)
    ensures IsLength(resp.body, LengthField(resp))
  {
    hide Digits, DigitRun;
    DigitsRead(|resp.body|);
  }

  lemma CanonicalEchoes(resp: Response)
    ensures Echoes(resp, CanonicalResponse(resp))
  {
    hide IsType, IsLength, Lowered, Forwarded, TypeField, LengthField, Replaced;
    TypeIs(resp);
    LengthIs(resp);
    ForwardedLowers(resp.hdrs, Replaced());
    ForwardedLowers(resp.trailers, {});
    assert EchoedAs(resp, CanonicalResponse(resp), TypeField(resp), LengthField(resp),
                    Forwarded(resp.hdrs, Replaced()), TrailerFields(resp.trailers));
  }

  /** Each of these completions is that of its call. */
  ghost predicate AllEcho(ops: seq<ClientOp>, handler: Request -> Response, done: seq<Completion>) {
    && |done| <= |Submitted(ops)|
    && forall i :: 0 <= i < |done| ==>
         done[i].Answered? && done[i].sid == 2 * i + 1 && Echoes(handler(Submitted(ops)[i].req), done[i].resp)
  }

  lemma {:induction false} SubmittedSids(ops: seq<ClientOp>)
    ensures forall i :: 0 <= i < |Submitted(ops)| ==> Submitted(ops)[i].sid == 2 * i + 1
  {
    hide Canonical;
    if |ops| > 0 {
      SubmittedSids(ops[..|ops| - 1]);
    }
  }

  lemma ReturnedEcho(ops: seq<ClientOp>, handler: Request -> Response, done: seq<Completion>)
    requires done <= Returned(ops, handler)
    ensures AllEcho(ops, handler, done)
  {
    hide Echoes, CanonicalResponse, Submitted;
    SubmittedSids(ops);
    forall i | 0 <= i < |done| ensures Echoes(handler(Submitted(ops)[i].req),
      CanonicalResponse(handler(Submitted(ops)[i].req))) {
      CanonicalEchoes(handler(Submitted(ops)[i].req));
    }
  }

  /** The response a client reports: the same status and body, lower-cased headers, and trailers behind them. */
  function CanonicalResponse(resp: Response): Response {
    Response(resp.status, Http2, PlainPart(resp) + TrailerFields(resp.trailers), resp.body, [])
  }

  lemma {:induction false} PlainFieldsHeard(resp: Response, fs: seq<Field>)
    requires NoPseudo(fs)
    ensures ReceiveResponse(resp, fs) == resp.(hdrs := resp.hdrs + fs)
    decreases |fs|
  {
    hide StatusOf;
    if |fs| == 0 {
      assert resp.hdrs + fs == resp.hdrs;
    } else {
      assert fs[0] in fs;
      PlainFieldHeard(resp, fs[0]);
      PlainFieldsHeard(ReceiveStatus(resp, fs[0]), fs[1..]);
      assert resp.hdrs + [fs[0]] + fs[1..] == resp.hdrs + fs;
    }
  }

  lemma PlainFieldHeard(resp: Response, f: Field)
    requires f.name == [] || f.name[0] != 58
    ensures ReceiveStatus(resp, f) == resp.(hdrs := resp.hdrs + [f])
  {
    hide StatusOf;
    AsciiHead(":status", 0);
  }

  /** An answer that arrives intact is the canonical form of the response. */
  lemma IntactHeard(tb: Tables, resp: Response)
    requires -0x8000_0000 <= resp.status <= 0x7FFF_FFFF
    requires NoPseudo(PlainPart(resp)) && NoPseudo(TrailerFields(resp.trailers))
    requires DeliveredFields(tb, ResponseFields(resp, true)) == ResponseFields(resp, true)
    requires DeliveredFields(tb, TrailerFields(resp.trailers)) == TrailerFields(resp.trailers)
    ensures Heard(tb, resp) == CanonicalResponse(resp)
  {
    hide DeliveredFields, NoPseudo, TrailerFields, StatusOf, Decimal, Forwarded, Get, ReceiveResponse, PlainPart;
    var fs, ts := ResponseFields(resp, true), TrailerFields(resp.trailers);
    StatusHeard(resp);
    PlainFieldsHeard(EmptyResponse().(status := resp.status), PlainPart(resp));
    assert [] + PlainPart(resp) == PlainPart(resp);
    var r := WithFields(EmptyResponse(), fs);
    assert r == Response(resp.status, Http2, PlainPart(resp), [], []);
    PlainFieldsHeard(r, ts);
    if resp.trailers == [] {
      assert ts == [] by { NoTrailers(); }
      assert PlainPart(resp) + ts == PlainPart(resp);
    }
  }

  lemma NoTrailers()
    ensures TrailerFields([]) == []
  {
  }

  lemma StatusHeard(resp: Response)
    requires -0x8000_0000 <= resp.status <= 0x7FFF_FFFF
    ensures ReceiveResponse(EmptyResponse(), ResponseFields(resp, true))
         == ReceiveResponse(EmptyResponse().(status := resp.status), PlainPart(resp))
  {
    hide StatusOf, Decimal, PlainPart, ResponseFields, Ascii;
    StatusRoundTrip(resp.status);
    FieldsAre(resp);
    var fs := ResponseFields(resp, true);
    assert fs[0] == Field(Ascii(":status"), Decimal(resp.status)) && fs[1..] == PlainPart(resp);
  }

  /** A response whose header lists survive the string code and hold no application pseudo-header. */
  ghost predicate AnswerSurvives(resp: Response) {
    && -0x8000_0000 <= resp.status <= 0x7FFF_FFFF
    && NoPseudo(PlainPart(resp)) && NoPseudo(TrailerFields(resp.trailers))
    && (forall f :: f in ResponseFields(resp, true) ==> HpackTables.FieldSurvives(f))
    && (forall f :: f in TrailerFields(resp.trailers) ==> HpackTables.FieldSurvives(f))
  }

  lemma AnswerArrives(resp: Response)
    requires AnswerSurvives(resp)
    ensures Heard(HpackTables.Shared(), resp) == CanonicalResponse(resp)
  {
    hide HpackTables.Shared, HpackTables.FieldSurvives, ResponseFields, TrailerFields, DeliveredFields, NoPseudo, Heard,
      CanonicalResponse;
    HpackTables.FieldsDelivered(ResponseFields(resp, true));
    HpackTables.FieldsDelivered(TrailerFields(resp.trailers));
    IntactHeard(HpackTables.Shared(), resp);
  }

  /** The calls made, and what each must return: the handler's response to the canonical request. */
  function Returned(ops: seq<ClientOp>, handler: Request -> Response): seq<Completion> {
    var ds := Submitted(ops);
    seq(|ds|, i requires 0 <= i < |ds| => Answered(ds[i].sid, CanonicalResponse(handler(ds[i].req))))
  }

  lemma ReturnedCount(ops: seq<ClientOp>, handler: Request -> Response)
    ensures |Returned(ops, handler)| == |Submitted(ops)|
  {
  }

  lemma AnswersAreReturned(ops: seq<ClientOp>, handler: Request -> Response)
    requires forall d :: d in Submitted(ops) ==> AnswerSurvives(handler(d.req))
    ensures AnswersTo(HpackTables.Shared(), Submitted(ops), handler) == Returned(ops, handler)
  {
    hide HpackTables.Shared, AnswerSurvives, Heard, CanonicalResponse, Submitted;
    var ds := Submitted(ops);
    forall i | 0 <= i < |ds|
      ensures Heard(HpackTables.Shared(), handler(ds[i].req)) == CanonicalResponse(handler(ds[i].req))
    {
      assert ds[i] in ds;
      AnswerArrives(handler(ds[i].req));
    }
  }

  /**
    Remote calls: submitted requests whose headers survive, answered by a handler whose headers survive, settle the
    client's promises in order with exactly the handler's responses, however the two byte streams are cut. Bodies of
    2^31 - 65536 bytes in all are always affordable.
   */
  lemma CallsReturn(onClient: Request -> Response, onServer: Request -> Response, ops: seq<ClientOp>,
                    there: seq<seq<byte>>, back: seq<seq<byte>>)
    requires OrdinaryRun(NewSession(Client, HpackTables.Shared(), onClient), ops)
    requires forall op :: op in ops ==> op.Submit? && Survives(op.req)
    requires forall r :: Sizable(onServer(r))
    requires forall d :: d in Submitted(ops) ==> AnswerSurvives(onServer(d.req))
    requires Concat(there) == Serialize(ClientRun(NewSession(Client, HpackTables.Shared(), onClient), ops).output)
    requires Concat(back) == Serialize(FeedAll(Inbox(NewSession(Server, HpackTables.Shared(), onServer), []),
             there).session.output)
    ensures var c := ClientRun(NewSession(Client, HpackTables.Shared(), onClient), ops);
            var s := FeedAll(Inbox(NewSession(Server, HpackTables.Shared(), onServer), []), there).session;
            var c' := FeedAll(Inbox(c, []), back).session;
            && s.alive && s.dispatched == Submitted(ops)
            && (c'.alive <==> DEFAULT_WINDOW + Announced(s.output, 0) <= MAX_WINDOW_SIZE)
            && (c'.alive <==> Affordable(ops))
            && (c'.alive ==> c'.completed == Returned(ops, onServer))
            && (c'.alive ==> |c'.completed| == |Submitted(ops)|) && AllEcho(ops, onServer, c'.completed)
            && (BodyBytes(ops) <= MAX_WINDOW_SIZE - DEFAULT_WINDOW ==> c'.alive)
            && (BodyBytes(ops) > MAX_WINDOW_SIZE - DEFAULT_WINDOW / 2 ==> !c'.alive)
  {
    hide HpackTables.Shared, Survives, OrdinaryRun, ClientRun, NewSession, Serialize, FeedAll, Concat, Expected,
      Submitted, Announced, Sizable, AnswerSurvives, AnswersTo, Returned, Affordable, BodyBytes, AllEcho;
    HpackTables.SharedAddressable();
    RoundTrip(HpackTables.Shared(), onClient, onServer, ops, there, back);
    SurvivorsExpected(ops);
    AnswersAreReturned(ops, onServer);
    AffordableBounds(ops);
    ReturnedEcho(ops, onServer,
      FeedAll(Inbox(ClientRun(NewSession(Client, HpackTables.Shared(), onClient), ops), []), back).session.completed);
    ReturnedCount(ops, onServer);
  }
}
