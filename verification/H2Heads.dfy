/** How a request begins on the wire, and what every peer reads in it. */
module H2Heads {
  import opened Bytes
  import opened DynamicTable
  import opened H2Frame
  import opened HttpTypes
  import opened HttpLists
  import opened Hpack
  import opened H2Session
  import opened H2Splitting
  import HpackTables
  import PrefixInt

  /** The method, the path, the scheme and the authority in this order, then every other header but two, lower-cased. */
  ghost predicate SaysRequest(req: Request, fs: seq<Field>) {
    && |fs| >= 4
    && fs[0] == Field(Ascii(":method"), MethodName(req.verb))
    && fs[1] == Field(Ascii(":path"), if req.path == [] then Ascii("/") else req.path)
    && fs[2] == Field(Ascii(":scheme"), Ascii("https"))
    && fs[3].name == Ascii(":authority")
    && (FirstUnder(req.hdrs, Ascii("host"), Some(fs[3].value))
        || (FirstUnder(req.hdrs, Ascii("host"), None) && fs[3].value == Ascii("localhost")))
    && Lowered(req.hdrs, {Ascii("host"), Ascii("connection")}, fs[4..])
  }

  lemma LowerHost()
    ensures Lower(Ascii("Host")) == Ascii("host")
  {
    var a, b := Ascii("Host"), Ascii("host");
    assert |a| == 4 && |b| == 4;
  }

  lemma RequestSays(req: Request)
    ensures SaysRequest(req, RequestFields(req))
  {
    hide Ascii, Lower, Forwarded, Lowered, FirstUnder, MethodName;
    LowerHost();
    GetIsFirst(req.hdrs, Ascii("Host"));
    ForwardedLowers(req.hdrs, {Ascii("host"), Ascii("connection")});
    assert RequestFields(req)[4..] == Forwarded(req.hdrs, {Ascii("host"), Ascii("connection")});
  }

  /** Every peer, whatever its table holds, reads the request in this block, if its fields survive. */
  ghost predicate DecodesToRequest(block: seq<byte>, req: Request) {
    forall dyn :: DecodedSays(DecodeBlock(HpackTables.Shared(), dyn, block), req)
  }

  ghost predicate DecodedSays(d: Decoding, req: Request) {
    d.fate == Returned
    && ((forall f :: f in RequestFields(req) ==> HpackTables.FieldSurvives(f)) ==> SaysRequest(req, d.headers))
  }

  /** One header block, and then the body. */
  ghost predicate IsRequestOn(fs: seq<Frame>, n: nat, sid: nat, req: Request) {
    && 0 < n <= |fs| && fs[0].kind == HEADERS
    && (forall i :: 0 < i < n ==> fs[i].kind == CONTINUATION)
    && (forall i :: 0 <= i < n ==> (HasFlag(fs[i], END_HEADERS) <==> i == n - 1))
    && (forall i :: n <= i < |fs| ==> fs[i].kind == DATA)
    && (forall f :: f in fs ==> f.sid == sid)
    && DecodesToRequest(Payloads(fs[..n]), req) && Payloads(fs[n..]) == req.body
  }

  function HeadOf(s: Session, req: Request, keepOpen: bool): seq<Frame> {
    HeaderFrames(s.nextSid, req.body == [] && !keepOpen, EncodeBlock(s.encoder, RequestFields(req)), s.peerMaxFrame)
  }

  function BodyOf(s: Session, req: Request): seq<Frame> {
    DataFrames(s.nextSid, true, req.body, s.peerMaxFrame)
  }

  lemma RequestAppends(s: Session, req: Request, keepOpen: bool)
    ensures SubmitRequest(s, req, keepOpen).output == s.output + (HeadOf(s, req, keepOpen) + BodyOf(s, req))
  {
    hide HeaderFrames, DataFrames, EncodeBlock, RequestFields, FreshStream;
    assert s.output + HeadOf(s, req, keepOpen) + BodyOf(s, req)
        == s.output + (HeadOf(s, req, keepOpen) + BodyOf(s, req));
  }

  lemma RequestParts(s: Session, req: Request, keepOpen: bool)
    requires DecodesToRequest(EncodeBlock(s.encoder, RequestFields(req)), req)
    ensures IsRequestOn(HeadOf(s, req, keepOpen) + BodyOf(s, req), |HeadOf(s, req, keepOpen)|, s.nextSid, req)
  {
    hide HeaderFrames, DataFrames, EncodeBlock, RequestFields, HasFlag, DecodesToRequest;
    var end, block := req.body == [] && !keepOpen, EncodeBlock(s.encoder, RequestFields(req));
    HeaderSplit(s.nextSid, end, block, s.peerMaxFrame);
    DataSplit(s.nextSid, true, req.body, s.peerMaxFrame);
    var head, data := HeadOf(s, req, keepOpen), BodyOf(s, req);
    assert (head + data)[..|head|] == head && (head + data)[|head|..] == data;
  }

  lemma RequestEnds(s: Session, req: Request, keepOpen: bool)
    ensures var fs := HeadOf(s, req, keepOpen) + BodyOf(s, req);
            if keepOpen && req.body == [] then NeverEnds(fs) else EndsOnce(fs)
  {
    hide HeaderFrames, DataFrames, EncodeBlock, RequestFields, EndsOnce, NeverEnds;
    var end, block := req.body == [] && !keepOpen, EncodeBlock(s.encoder, RequestFields(req));
    var head, data := HeadOf(s, req, keepOpen), BodyOf(s, req);
    HeadersEnd(s.nextSid, end, block, s.peerMaxFrame);
    DataEnd(s.nextSid, true, req.body, s.peerMaxFrame);
    if req.body == [] {
      DataSplit(s.nextSid, true, req.body, s.peerMaxFrame);
      assert head + data == head;
    } else {
      EndsLater(head, data);
    }
  }

  /** A submitted request is written as one header block that says it and its body, and ends its stream once. */
  lemma RequestReads(s: Session, req: Request, keepOpen: bool) returns (n: nat)
    requires s.encoder.tables == HpackTables.Shared() && s.encoder.max < PrefixInt.WORD64
    requires AllSized(RequestFields(req))
    ensures var s' := SubmitRequest(s, req, keepOpen);
            && s.output <= s'.output && IsRequestOn(Appended(s, s'), n, s.nextSid, req)
            && if keepOpen && req.body == [] then NeverEnds(Appended(s, s')) else EndsOnce(Appended(s, s'))
  {
    hide SubmitRequest, HeadOf, BodyOf, IsRequestOn, NeverEnds, EndsOnce, HpackTables.Shared, EncodeBlock,
      RequestFields, DecodesToRequest;
    n := |HeadOf(s, req, keepOpen)|;
    BlockSays(s, req);
    RequestAppends(s, req, keepOpen);
    RequestParts(s, req, keepOpen);
    RequestEnds(s, req, keepOpen);
    assert Appended(s, SubmitRequest(s, req, keepOpen)) == HeadOf(s, req, keepOpen) + BodyOf(s, req);
  }

  lemma BlockSays(s: Session, req: Request)
    requires s.encoder.tables == HpackTables.Shared() && s.encoder.max < PrefixInt.WORD64
    requires AllSized(RequestFields(req))
    ensures DecodesToRequest(EncodeBlock(s.encoder, RequestFields(req)), req)
  {
    hide HpackTables.Shared, EncodeBlock, DecodeBlock, RequestFields, SaysRequest, HpackTables.FieldSurvives;
    HpackTables.SharedAddressable();
    HpackTables.FieldsDelivered(RequestFields(req));
    RequestSays(req);
    forall dyn
      ensures DecodedSays(DecodeBlock(HpackTables.Shared(), dyn, EncodeBlock(s.encoder, RequestFields(req))), req)
    {
      BlockTransfer(s.encoder, dyn, RequestFields(req));
    }
  }
}
