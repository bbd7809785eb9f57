/** What the peer of a gRPC stream writer gets: the messages, and how the call ended. */
module GrpcCalls {
  import opened Bytes
  import opened DynamicTable
  import opened H2Frame
  import opened HttpTypes
  import opened HttpLists
  import opened Hpack
  import opened H2Session
  import opened H2Books
  import opened H2Splitting
  import opened H2Writer
  import HpackTables
  import H2EndToEnd
  import H2Calls
  import PrefixInt
  import GrpcWire

  // ---------------------------------------------------------------- what was written

  /** The messages accepted. */
  function Accepted(bs: seq<BusyEvent>): seq<GrpcWire.Message> {
    if |bs| == 0 then []
    else
      var front, b := bs[..|bs| - 1], bs[|bs| - 1];
      Accepted(front) + if b.Mine? && b.op.Write? && !Finished(front) then [b.op.message] else []
  }

  /** The first finish: its status and text. */
  function Ending(bs: seq<BusyEvent>): Option<WriterOp> {
    if |bs| == 0 then None
    else
      var front, b := bs[..|bs| - 1], bs[|bs| - 1];
      if Finished(front) then Ending(front) else if b.Mine? && b.op.Finish? then Some(b.op) else None
  }

  lemma {:induction false} EndingIs(bs: seq<BusyEvent>)
    ensures Finished(bs) <==> Ending(bs).Some?
    ensures Ending(bs).Some? ==> Ending(bs).value.Finish?
  {
    if |bs| > 0 {
      EndingIs(bs[..|bs| - 1]);
    }
  }

  lemma {:induction false} FramedConcat(a: seq<GrpcWire.Message>, b: seq<GrpcWire.Message>)
    ensures GrpcWire.Framed(a + b) == GrpcWire.Framed(a) + GrpcWire.Framed(b)
    decreases |a|
  {
    hide GrpcMessage;
    if |a| == 0 {
      assert a + b == b;
    } else {
      FramedConcat(a[1..], b);
      assert (a + b)[1..] == a[1..] + b;
    }
  }

  lemma OneFramed(m: GrpcWire.Message)
    ensures GrpcWire.Framed([m]) == GrpcMessage(m)
  {
    hide GrpcMessage;
    assert [m][1..] == [];
    assert GrpcWire.Framed([]) == [];
  }

  lemma {:induction false} WrittenIs(bs: seq<BusyEvent>)
    ensures Written(bs) == GrpcWire.Framed(Accepted(bs))
  {
    hide GrpcMessage, Finished;
    if |bs| > 0 {
      var front, b := bs[..|bs| - 1], bs[|bs| - 1];
      WrittenIs(front);
      if b.Mine? && b.op.Write? && !Finished(front) {
        FramedConcat(Accepted(front), [b.op.message]);
        OneFramed(b.op.message);
      } else {
        assert Accepted(front) + [] == Accepted(front) && Written(front) + [] == Written(front);
      }
    }
  }

  // ---------------------------------------------------------------- the encoder

  /** An encoder over the real tables, whose limit a 64-bit machine can hold. */
  ghost predicate Speaks(s: Session) {
    s.encoder.tables == HpackTables.Shared() && s.encoder.max < PrefixInt.WORD64
  }

  lemma EventSpeaks(s: Session, e: Event)
    requires Speaks(s)
    ensures Speaks(Step(s, e))
  {
    hide HpackTables.Shared, ProcessFrame, SendFields, DataFrames, HeaderFrames, RequestFields, ResponseFields,
      SubmitResponse, FreshStream, EncodeBlock;
    match e
    case Arrive(f) => H2EndToEnd.FrameSteady(s, f);
    case Ask(req, keepOpen) =>
      var started := WithStream(s, s.nextSid, StreamOf(s, s.nextSid).(phase := Open, promise := true));
      var s1 := started.(nextSid := s.nextSid + 2);
      H2EndToEnd.SendSteady(s1, s.nextSid, req.body == [] && !keepOpen, RequestFields(req));
    case Answer(sid, resp) => H2EndToEnd.ResponseSteady(s, sid, resp);
    case AnswerHead(sid, resp) => H2EndToEnd.SendSteady(s, sid, false, ResponseFields(resp, false));
    case More(_, _, _) =>
    case Trail(sid, trailers) => H2EndToEnd.SendSteady(s, sid, true, TrailerFields(trailers));
  }

  lemma OpSpeaks(w: Writer, op: WriterOp)
    requires Speaks(w.session)
    ensures Speaks(WriterStep(w, op).session)
  {
    hide HpackTables.Shared, SendFields, DataFrames, GrpcTrailers, TrailerFields, GrpcMessage;
    if op.Finish? && !w.finished {
      H2EndToEnd.SendSteady(w.session, w.sid, true, TrailerFields(GrpcTrailers(op.status, op.text)));
    }
  }

  lemma {:induction false} RunSpeaks(w: Writer, bs: seq<BusyEvent>)
    requires Speaks(w.session)
    ensures Speaks(BusyRun(w, bs).session)
  {
    hide Speaks, Step, WriterStep;
    if |bs| > 0 {
      var front, b := bs[..|bs| - 1], bs[|bs| - 1];
      RunSpeaks(w, front);
      match b
      case Mine(op) => OpSpeaks(BusyRun(w, front), op);
      case Other(e) => EventSpeaks(BusyRun(w, front).session, e);
    }
  }

  // ---------------------------------------------------------------- the trailers

  /** The trailers of a call: its status, then its text if there is any, as it is delivered. */
  ghost predicate Reports(fs: seq<Field>, status: int, text: seq<byte>) {
    && |fs| == (if text == [] then 1 else 2)
    && fs[0].name == Ascii("grpc-status") && Writes(fs[0].value, status)
    && (-0x8000_0000 <= status <= 0x7FFF_FFFF ==> StatusOf(fs[0].value) == status)
    && (text != [] ==>
          && fs[1].name == Ascii("grpc-message")
          && (fs[1].value == text <==> HpackTables.FieldSurvives(Field(Ascii("grpc-message"), text))))
  }

  /** These frames carry one block, which every peer decodes to the trailers. */
  ghost predicate CarriesReport(fs: seq<Frame>, status: int, text: seq<byte>) {
    forall dyn :: DecodesToReport(dyn, Payloads(fs), status, text)
  }

  ghost predicate DecodesToReport(dyn: DynTable, block: seq<byte>, status: int, text: seq<byte>) {
    var d := DecodeBlock(HpackTables.Shared(), dyn, block);
    d.fate == Returned && Reports(d.headers, status, text)
  }

  lemma TrailerNames()
    ensures Lower(Ascii("grpc-status")) == Ascii("grpc-status") && Lower(Ascii("grpc-message")) == Ascii("grpc-message")
    ensures |Ascii("grpc-status")| == 11 && |Ascii("grpc-message")| == 12
    ensures (forall c :: c in Ascii("grpc-status") ==> c < 128) && forall c :: c in Ascii("grpc-message") ==> c < 128
  {
    var a, b := Ascii("grpc-status"), Ascii("grpc-message");
    assert |a| == 11 && |b| == 12;
    assert forall i :: 0 <= i < 11 ==> 45 <= a[i] <= 122 && LowerByte(a[i]) == a[i];
    assert forall i :: 0 <= i < 12 ==> 45 <= b[i] <= 122 && LowerByte(b[i]) == b[i];
  }

  lemma TrailersAre(status: int, text: seq<byte>)
    ensures TrailerFields(GrpcTrailers(status, text)) == GrpcTrailers(status, text)
  {
    hide Lower, Ascii, Decimal;
    TrailerNames();
    var fs := GrpcTrailers(status, text);
    assert Forwarded(fs[1..], {}) == fs[1..] by {
      if text != [] {
        assert fs[1..][1..] == [];
        assert Forwarded([], {}) == [];
      }
    }
    assert fs == [fs[0]] + fs[1..];
  }

  lemma {:induction false} DigitsAreShort(n: nat)
    ensures |Digits(n)| <= n + 1
    decreases n
  {
    if n >= 10 {
      DigitsAreShort(n / 10);
    }
  }

  lemma StatusIsPlain(status: int)
    requires IsInt(status)
    ensures |Decimal(status)| < PrefixInt.WORD64 && forall c :: c in Decimal(status) ==> c < 128
  {
    hide Digits, DecimalOf;
    var n := if status < 0 then -status else status;
    DigitsAreShort(n);
    DigitsRead(n);
  }

  /** A status is an int of the source. */
  predicate IsInt(status: int) {
    -0x8000_0000 <= status <= 0x7FFF_FFFF
  }

  lemma StatusDelivered(status: int)
    requires IsInt(status)
    ensures var f := Field(Ascii("grpc-status"), Decimal(status));
            Sized(f) && DeliveredField(HpackTables.Shared(), f) == f
  {
    hide HpackTables.Shared, Ascii, Decimal, DeliveredField, HpackTables.StringSurvives;
    StatusIsPlain(status);
    TrailerNames();
    HpackTables.AsciiSurvives(Ascii("grpc-status"));
    HpackTables.AsciiSurvives(Decimal(status));
    HpackTables.FieldDelivered(Field(Ascii("grpc-status"), Decimal(status)));
  }

  lemma TextDelivered(text: seq<byte>)
    requires |text| < PrefixInt.WORD64
    ensures var f := Field(Ascii("grpc-message"), text);
            var got := DeliveredField(HpackTables.Shared(), f);
            Sized(f) && got.name == f.name && (got.value == text <==> HpackTables.FieldSurvives(f))
  {
    hide HpackTables.Shared, Ascii, HpackTables.StringSurvives, HpackTables.FieldSurvives, Delivered;
    TrailerNames();
    HpackTables.AsciiSurvives(Ascii("grpc-message"));
    HpackTables.StringDelivered(Ascii("grpc-message"));
    HpackTables.FieldDelivered(Field(Ascii("grpc-message"), text));
  }

  lemma TrailersReport(status: int, text: seq<byte>)
    requires IsInt(status) && |text| < PrefixInt.WORD64
    ensures AllSized(GrpcTrailers(status, text))
    ensures Reports(DeliveredFields(HpackTables.Shared(), GrpcTrailers(status, text)), status, text)
  {
    hide HpackTables.Shared, Ascii, Decimal, DeliveredField, StatusOf, Writes, HpackTables.FieldSurvives;
    StatusDelivered(status);
    DecimalWrites(status);
    WrittenIsRead(Decimal(status), status);
    TextDelivered(text);
    var fs := GrpcTrailers(status, text);
    assert forall f :: f in fs ==> f == fs[0] || f == fs[|fs| - 1];
  }

  lemma FinishReports(w: Writer, status: int, text: seq<byte>)
    requires Speaks(w.session) && IsInt(status) && |text| < PrefixInt.WORD64
    ensures CarriesReport(HeaderFrames(w.sid, true, EncodeBlock(w.session.encoder,
                            TrailerFields(GrpcTrailers(status, text))), w.session.peerMaxFrame), status, text)
  {
    hide HpackTables.Shared, HeaderFrames, EncodeBlock, DecodeBlock, GrpcTrailers, TrailerFields, Reports;
    var e, fs := w.session.encoder, TrailerFields(GrpcTrailers(status, text));
    TrailersAre(status, text);
    TrailersReport(status, text);
    HeaderSplit(w.sid, true, EncodeBlock(e, fs), w.session.peerMaxFrame);
    HpackTables.SharedAddressable();
    forall dyn ensures DecodesToReport(dyn, EncodeBlock(e, fs), status, text) {
      BlockTransfer(e, dyn, fs);
    }
  }

  // ---------------------------------------------------------------- whole runs

  /** If the call is over, the frames that end its stream carry its report. */
  ghost predicate Reported(own: seq<Frame>, end: Option<WriterOp>) {
    match end
    case None => true
    case Some(op) =>
      op.Finish? && exists i: nat :: EndsAt(own, i) && CarriesReport(own[i..], op.status, op.text)
  }

  ghost predicate Reportable(end: Option<WriterOp>) {
    end.Some? && end.value.Finish? ==> IsInt(end.value.status) && |end.value.text| < PrefixInt.WORD64
  }

  lemma EndsBehind(own: seq<Frame>, fs: seq<Frame>, op: WriterOp)
    requires NeverEnds(own) && EndsAt(fs, 0) && op.Finish? && CarriesReport(fs, op.status, op.text)
    ensures Reported(own + fs, Some(op))
  {
    hide CarriesReport, EndsStream;
    assert EndsAt(own + fs, |own|);
    assert (own + fs)[|own|..] == fs;
  }

  lemma OtherOwn(start: Session, w: Writer, e: Event)
    requires start.output <= w.session.output && w.sid != 0 && StreamOfEvent(w.session, e) != w.sid
    ensures start.output <= Step(w.session, e).output
    ensures Own(Appended(start, Step(w.session, e)), w.sid) == Own(Appended(start, w.session), w.sid)
  {
    hide Step, Own, StreamOfEvent, TermsOf;
    var s, s' := w.session, Step(w.session, e);
    EventAdds(s, e);
    var fs := NewFrames(s, s');
    OwnNone(fs, w.sid);
    assert Appended(start, s') == Appended(start, s) + fs;
    OwnConcat(Appended(start, s), fs, w.sid);
    assert Own(Appended(start, s), w.sid) + [] == Own(Appended(start, s), w.sid);
  }

  lemma FinishOwn(start: Session, w: Writer, bs: seq<BusyEvent>, op: WriterOp)
    requires Carries(start, w, bs) && !w.finished && op.Finish? && Speaks(w.session) && Reportable(Some(op))
    ensures start.output <= WriterStep(w, op).session.output
    ensures Reported(Own(Appended(start, WriterStep(w, op).session), w.sid), Some(op))
  {
    hide HpackTables.Shared, Own, HeaderFrames, EncodeBlock, TrailerFields, GrpcTrailers, WriterStep, CarriesReport,
      HasFlag, Reported, DataOf, EndsOnce, NeverEnds;
    var block := EncodeBlock(w.session.encoder, TrailerFields(GrpcTrailers(op.status, op.text)));
    var fs := HeaderFrames(w.sid, true, block, w.session.peerMaxFrame);
    FinishAppends(w, op.status, op.text);
    HeaderSplit(w.sid, true, block, w.session.peerMaxFrame);
    OwnMore(start, w, WriterStep(w, op), fs);
    FinishReports(w, op.status, op.text);
    assert EndsAt(fs, 0);
    EndsBehind(Own(Appended(start, w.session), w.sid), fs, op);
  }

  lemma {:induction false} RunReports(w: Writer, bs: seq<BusyEvent>)
    requires !w.finished && w.sid != 0 && Apart(w, bs) && Speaks(w.session) && Reportable(Ending(bs))
    ensures w.session.output <= BusyRun(w, bs).session.output
    ensures Reported(Own(Appended(w.session, BusyRun(w, bs).session), w.sid), Ending(bs))
  {
    hide Own, Reported, Speaks, WriterStep, Step, Reportable, StreamOfEvent;
    BusyWriter(w, bs);
    EndingIs(bs);
    if |bs| == 0 || !Finished(bs) {
      assert Reported(Own(Appended(w.session, BusyRun(w, bs).session), w.sid), None) by { NoReport(w, bs); }
    } else {
      var front, b := bs[..|bs| - 1], bs[|bs| - 1];
      var w1 := BusyRun(w, front);
      BusyWriter(w, front);
      RunSpeaks(w, front);
      if Finished(front) {
        RunReports(w, front);
        match b
        case Other(e) => OtherOwn(w.session, w1, e);
        case Mine(op) => FinishedStays(w1, op);
      } else {
        FinishOwn(w.session, w1, front, b.op);
      }
    }
  }

  lemma NoReport(w: Writer, bs: seq<BusyEvent>)
    requires w.session.output <= BusyRun(w, bs).session.output
    ensures Reported(Own(Appended(w.session, BusyRun(w, bs).session), w.sid), None)
  {
  }

  /**
    Whatever happens beside a writer: however the data of its stream is cut, the peer's deframer extracts exactly the
    messages accepted and is left with nothing, and if the writer was finished, the block that ends the stream tells the
    status and the text it was finished with first.
   */
  lemma PeerGets(w: Writer, bs: seq<BusyEvent>, pieces: seq<seq<byte>>)
    requires !w.finished && w.sid != 0 && Apart(w, bs) && Speaks(w.session) && Reportable(Ending(bs))
    requires forall m :: m in Accepted(bs) ==> GrpcWire.Framable(m)
    requires w.session.output <= BusyRun(w, bs).session.output
             && GrpcWire.Concat(pieces) == DataOf(Own(Appended(w.session, BusyRun(w, bs).session), w.sid))
    ensures GrpcWire.FeedAll([], pieces) == GrpcWire.Drained(Accepted(bs), [], false)
    ensures Finished(bs) <==> Ending(bs).Some?
    ensures Reported(Own(Appended(w.session, BusyRun(w, bs).session), w.sid), Ending(bs))
  {
    hide Own, DataOf, Reported, Speaks, Reportable, Apart, BusyRun, GrpcWire.Framable, EndsOnce, NeverEnds;
    RunReports(w, bs);
    BusyWriter(w, bs);
    EndingIs(bs);
    WrittenIs(bs);
    var data := GrpcWire.Concat(pieces);
    GrpcWire.FramedRead(Accepted(bs), []);
    assert data + [] == data && [] + data == data;
    GrpcWire.ChunkingIrrelevant([], pieces);
    assert Accepted(bs) + [] == Accepted(bs);
  }

  // ---------------------------------------------------------------- how a stream begins

  /** A list that says what a response says, but for its body: status, content type and the rest in order, once each. */
  ghost predicate SaysHead(resp: Response, fs: seq<Field>) {
    exists ct, rest :: SaysHeadAs(resp, fs, ct, rest)
  }

  ghost predicate SaysHeadAs(resp: Response, fs: seq<Field>, ct: seq<Field>, rest: seq<Field>) {
    && |fs| > 0 && fs[0].name == Ascii(":status") && Writes(fs[0].value, resp.status)
    && fs[1..] == ct + rest && H2Calls.IsType(resp.hdrs, ct) && Lowered(resp.hdrs, H2Calls.Replaced(), rest)
  }

  lemma FieldsSayHead(resp: Response)
    ensures SaysHead(resp, ResponseFields(resp, false))
  {
    hide Decimal, Writes, Ascii, Lowered, Forwarded, H2Calls.TypeField, H2Calls.IsType, H2Calls.Replaced,
      ResponseFields;
    H2Calls.FieldsAre(resp);
    H2Calls.TypeIs(resp);
    DecimalWrites(resp.status);
    ForwardedLowers(resp.hdrs, H2Calls.Replaced());
    assert SaysHeadAs(resp, ResponseFields(resp, false), H2Calls.TypeField(resp),
        Forwarded(resp.hdrs, H2Calls.Replaced()));
  }

  ghost predicate DecodesToHead(dyn: DynTable, block: seq<byte>, resp: Response) {
    var d := DecodeBlock(HpackTables.Shared(), dyn, block);
    && d.fate == Returned
    && ((forall f :: f in ResponseFields(resp, false) ==> HpackTables.FieldSurvives(f)) ==> SaysHead(resp, d.headers))
  }

  /** The headers of a streaming answer leave the stream open, and every peer reads them as the response they are of. */
  lemma HeadReads(s: Session, sid: nat, resp: Response)
    requires Speaks(s) && AllSized(ResponseFields(resp, false))
    ensures var s' := SubmitResponseHeaders(s, sid, resp);
            && s.output <= s'.output && NeverEnds(Appended(s, s')) && Within(Appended(s, s'), sid, s.peerMaxFrame)
            && |Appended(s, s')| > 0 && Appended(s, s')[0].kind == HEADERS
            && forall dyn :: DecodesToHead(dyn, Payloads(Appended(s, s')), resp)
  {
    hide HpackTables.Shared, HeaderFrames, EncodeBlock, DecodeBlock, ResponseFields, SaysHead,
      HpackTables.FieldSurvives, HasFlag;
    var fs := ResponseFields(resp, false);
    var frames := HeaderFrames(sid, false, EncodeBlock(s.encoder, fs), s.peerMaxFrame);
    HeaderSplit(sid, false, EncodeBlock(s.encoder, fs), s.peerMaxFrame);
    HeadersEnd(sid, false, EncodeBlock(s.encoder, fs), s.peerMaxFrame);
    assert Appended(s, SubmitResponseHeaders(s, sid, resp)) == frames;
    HpackTables.SharedAddressable();
    HpackTables.FieldsDelivered(fs);
    FieldsSayHead(resp);
    forall dyn ensures DecodesToHead(dyn, EncodeBlock(s.encoder, fs), resp) {
      BlockTransfer(s.encoder, dyn, fs);
    }
  }
}
