/** The end-to-end theorem for the concrete tables, stated on whole requests. */
module H2Requests {
  import opened Bytes
  import opened DynamicTable
  import opened H2Frame
  import opened HttpTypes
  import opened Hpack
  import opened H2Session
  import opened H2EndToEnd
  import HpackTables

  /** The request the server's handler sees for a request a client submits. */
  function Canonical(req: Request): Request {
    var p := if req.path == [] then Ascii("/") else req.path;
    var q := IndexOf(p, 63);
    var host := Get(req.hdrs, Ascii("Host"));
    Request(req.verb,
            if q == 0 then Ascii("/") else p[..q],
            if q < |p| then p[q + 1..] else [],
            Http2,
            [Field(Ascii("Host"), if host.Some? then host.value else Ascii("localhost"))]
            + Forwarded(req.hdrs, {Ascii("host"), Ascii("connection")}),
            req.body)
  }

  function HopByHop(): set<seq<byte>> {
    {Ascii("host"), Ascii("connection")}
  }

  predicate Plain(f: Field) {
    Lower(f.name) == f.name && f.name !in HopByHop()
  }

  lemma {:induction false} ForwardedSame(fs: seq<Field>)
    ensures |Forwarded(fs, HopByHop())| <= |fs|
    ensures Forwarded(fs, HopByHop()) == fs <==> forall f :: f in fs ==> Plain(f)
    decreases |fs|
  {
    hide HopByHop, Lower;
    if |fs| > 0 {
      ForwardedSame(fs[1..]);
      var r := Forwarded(fs, HopByHop());
      assert fs == [fs[0]] + fs[1..];
      assert fs[0] in fs && forall f :: f in fs[1..] ==> f in fs;
      if Lower(fs[0].name) !in HopByHop() {
        assert r[0] == Field(Lower(fs[0].name), fs[0].value) && r[1..] == Forwarded(fs[1..], HopByHop());
      }
    }
  }

  lemma PathSame(p: seq<byte>, query: seq<byte>)
    ensures var full := if p == [] then Ascii("/") else p;
            var q := IndexOf(full, 63);
            (if q == 0 then Ascii("/") else full[..q]) == p && (if q < |full| then full[q + 1..] else []) == query
            <==> p != [] && 63 !in p && query == []
  {
    AsciiHead("/", 0);
    var full := if p == [] then Ascii("/") else p;
    var q := IndexOf(full, 63);
    if q == |full| {
      assert full[..q] == full;
    } else {
      assert full[q] in full;
    }
  }

  lemma HostSame(hdrs: seq<Field>)
    ensures var host := Get(hdrs, Ascii("Host"));
            [Field(Ascii("Host"), if host.Some? then host.value else Ascii("localhost"))] + Forwarded(hdrs, HopByHop())
              == hdrs
            <==> hdrs != [] && hdrs[0].name == Ascii("Host") && forall f :: f in hdrs[1..] ==> Plain(f)
  {
    hide Ascii, Lower;
    assert Lower(Ascii("Host")) == Ascii("host") by { LowerHost(); }
    var host := Get(hdrs, Ascii("Host"));
    var first := Field(Ascii("Host"), if host.Some? then host.value else Ascii("localhost"));
    if hdrs != [] {
      assert hdrs == [hdrs[0]] + hdrs[1..];
      ForwardedSame(hdrs[1..]);
      var whole := [first] + Forwarded(hdrs, HopByHop());
      assert whole[0] == first && whole[1..] == Forwarded(hdrs, HopByHop());
      if hdrs[0].name == Ascii("Host") {
        assert Forwarded(hdrs, HopByHop()) == Forwarded(hdrs[1..], HopByHop());
        assert first == hdrs[0];
      }
    }
  }

  lemma LowerHost()
    ensures Lower(Ascii("Host")) == Ascii("host")
  {
    var h := Ascii("Host");
    assert |h| == 4 && h[0] == 72 && h[1] == 111 && h[2] == 115 && h[3] == 116;
  }

  /**
    The handler sees the request as it was submitted if and only if it is an HTTP/2 one without a query, with a path
    that is not empty and holds no question mark, and Host as its first header, followed by lower-case names that are
    neither host nor connection.
   */
  lemma CanonicalIff(req: Request)
    ensures Canonical(req) == req <==>
              && req.version == Http2 && req.query == [] && req.path != [] && 63 !in req.path
              && req.hdrs != [] && req.hdrs[0].name == Ascii("Host") && forall f :: f in req.hdrs[1..] ==> Plain(f)
  {
    hide Ascii, Get, Forwarded, Plain, IndexOf;
    PathSame(req.path, req.query);
    HostSame(req.hdrs);
  }

  /** No header of the application starts with a colon. */
  ghost predicate NoPseudo(fs: seq<Field>) {
    forall f :: f in fs ==> f.name == [] || f.name[0] != 58
  }

  lemma {:induction false} PlainFieldsAppend(req: Request, fs: seq<Field>)
    requires NoPseudo(fs)
    ensures ReceiveFields(req, fs) == req.(hdrs := req.hdrs + fs)
    decreases |fs|
  {
    hide SetPath, ParseMethod;
    if |fs| == 0 {
      assert req.hdrs + fs == req.hdrs;
    } else {
      assert fs[0] in fs;
      PlainField(req, fs[0]);
      PlainFieldsAppend(ReceiveField(req, fs[0]), fs[1..]);
      assert req.hdrs + [fs[0]] + fs[1..] == req.hdrs + fs;
    }
  }

  lemma PlainField(req: Request, f: Field)
    requires f.name == [] || f.name[0] != 58
    ensures ReceiveField(req, f) == req.(hdrs := req.hdrs + [f])
  {
    hide SetPath, ParseMethod;
    AsciiHead(":method", 0);
    AsciiHead(":path", 0);
    AsciiHead(":scheme", 0);
    AsciiHead(":authority", 0);
  }

  lemma PseudoNamesDiffer()
    ensures Ascii(":method") != Ascii(":path") && Ascii(":method") != Ascii(":scheme")
            && Ascii(":method") != Ascii(":authority")
    ensures Ascii(":path") != Ascii(":scheme") && Ascii(":path") != Ascii(":authority")
            && Ascii(":scheme") != Ascii(":authority")
  {
    AsciiHead(":method", 1);
    AsciiHead(":path", 1);
    AsciiHead(":scheme", 1);
    AsciiHead(":authority", 1);
  }

  lemma PseudoFields(req: Request, m: Method, p: seq<byte>, host: seq<byte>)
    ensures var r1 := ReceiveField(req, Field(Ascii(":method"), MethodName(m)));
            var r2 := ReceiveField(r1, Field(Ascii(":path"), p));
            var r3 := ReceiveField(r2, Field(Ascii(":scheme"), Ascii("https")));
            var r4 := ReceiveField(r3, Field(Ascii(":authority"), host));
            r4 == SetPath(req.(verb := m), p).(hdrs := SetPath(req.(verb := m), p).hdrs + [Field(Ascii("Host"), host)])
  {
    hide Ascii, SetPath, ParseMethod, MethodName;
    PseudoNamesDiffer();
    MethodRoundTrip(m);
  }

  /** An intact header list assembles to the canonical request. */
  lemma IntactAssembles(req: Request)
    requires NoPseudo(Forwarded(req.hdrs, {Ascii("host"), Ascii("connection")}))
    ensures Assembled(RequestFields(req), req.body) == Canonical(req)
  {
    hide Ascii, ReceiveField, Get, MethodName, Forwarded, NoPseudo;
    var fs := RequestFields(req);
    var rest := Forwarded(req.hdrs, {Ascii("host"), Ascii("connection")});
    var p := if req.path == [] then Ascii("/") else req.path;
    var host := Get(req.hdrs, Ascii("Host"));
    var authority := if host.Some? then host.value else Ascii("localhost");
    PseudoFields(EmptyRequest(), req.verb, p, authority);
    FourThenRest(EmptyRequest(), fs, rest);
    var r4 := ReceiveField(ReceiveField(ReceiveField(ReceiveField(EmptyRequest(), fs[0]), fs[1]), fs[2]), fs[3]);
    PlainFieldsAppend(r4, rest);
    assert IndexOf(p, 63) == 0 <==> p[..IndexOf(p, 63)] == [];
    assert [] + [Field(Ascii("Host"), authority)] == [Field(Ascii("Host"), authority)];
  }

  lemma FourThenRest(req: Request, fs: seq<Field>, rest: seq<Field>)
    requires |fs| >= 4 && fs[4..] == rest
    ensures ReceiveFields(req, fs)
         == ReceiveFields(ReceiveField(ReceiveField(ReceiveField(ReceiveField(req, fs[0]), fs[1]), fs[2]), fs[3]), rest)
  {
    hide ReceiveField;
    assert fs[1..][1..][1..][1..] == rest;
    var r1 := ReceiveField(req, fs[0]);
    var r2 := ReceiveField(r1, fs[1]);
    var r3 := ReceiveField(r2, fs[2]);
    var r4 := ReceiveField(r3, fs[3]);
    assert ReceiveFields(r3, fs[1..][1..][1..]) == ReceiveFields(r4, rest);
    assert ReceiveFields(r2, fs[1..][1..]) == ReceiveFields(r3, fs[1..][1..][1..]);
    assert ReceiveFields(r1, fs[1..]) == ReceiveFields(r2, fs[1..][1..]);
  }

  /** A request whose header list survives the string code and holds no application pseudo-header. */
  ghost predicate Survives(req: Request) {
    && NoPseudo(Forwarded(req.hdrs, {Ascii("host"), Ascii("connection")}))
    && forall f :: f in RequestFields(req) ==> HpackTables.FieldSurvives(f)
  }

  function Submitted(ops: seq<ClientOp>): seq<Dispatch> {
    if |ops| == 0 then []
    else
      var before := Submitted(ops[..|ops| - 1]);
      if ops[|ops| - 1].Submit? then before + [Dispatch(2 * |before| + 1, Canonical(ops[|ops| - 1].req))] else before
  }

  lemma {:induction false} SurvivorsExpected(ops: seq<ClientOp>)
    requires forall op :: op in ops && op.Submit? ==> Survives(op.req)
    ensures Expected(HpackTables.Shared(), ops) == Submitted(ops)
  {
    hide HpackTables.Shared, Survives, Canonical, Assembled, RequestFields, DeliveredFields;
    if |ops| > 0 {
      SurvivorsExpected(ops[..|ops| - 1]);
      var op := ops[|ops| - 1];
      assert op in ops;
      if op.Submit? {
        SurvivorArrives(op.req);
      }
    }
  }

  lemma SurvivorArrives(req: Request)
    requires Survives(req)
    ensures Assembled(DeliveredFields(HpackTables.Shared(), RequestFields(req)), req.body) == Canonical(req)
  {
    hide HpackTables.Shared, HpackTables.FieldSurvives, Canonical, Assembled, RequestFields, DeliveredFields;
    HpackTables.FieldsDelivered(RequestFields(req));
    IntactAssembles(req);
  }

  /**
    With the real tables and surviving header lists, the handler of a server sees exactly the submitted requests, in
    order, however the bytes are cut; the server stays alive exactly while the announced credit fits its window.
   */
  lemma RequestsEndToEnd(onClient: Request -> Response, onServer: Request -> Response, ops: seq<ClientOp>,
        chunks: seq<seq<byte>>)
    requires OrdinaryRun(NewSession(Client, HpackTables.Shared(), onClient), ops)
    requires forall op :: op in ops && op.Submit? ==> Survives(op.req)
    requires Concat(chunks) == Serialize(ClientRun(NewSession(Client, HpackTables.Shared(), onClient), ops).output)
    ensures var c := ClientRun(NewSession(Client, HpackTables.Shared(), onClient), ops);
            var s := FeedAll(Inbox(NewSession(Server, HpackTables.Shared(), onServer), []), chunks).session;
            && (s.alive <==> WithinCredit(c)) && s.fate == Returned
            && s.dispatched <= Submitted(ops) && (s.alive ==> s.dispatched == Submitted(ops))
  {
    hide HpackTables.Shared, Survives, OrdinaryRun, ClientRun, NewSession, Serialize, FeedAll, Concat, Expected,
      Submitted, WithinCredit;
    HpackTables.SharedAddressable();
    EndToEnd(HpackTables.Shared(), onClient, onServer, ops, chunks);
    SurvivorsExpected(ops);
  }
}
