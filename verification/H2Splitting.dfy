/** How blocks and bodies are cut into frames, and where a stream ends (sections 6.2, 6.10 and 8.1 of RFC 7540). */
module H2Splitting {
  import opened Bytes
  import opened DynamicTable
  import opened H2Frame
  import opened HttpTypes
  import opened Hpack
  import opened H2Session

  function Payloads(fs: seq<Frame>): seq<byte> {
    if |fs| == 0 then [] else fs[0].payload + Payloads(fs[1..])
  }

  /** A frame that ends its stream. */
  predicate EndsStream(f: Frame) {
    (f.kind == HEADERS || f.kind == DATA) && HasFlag(f, END_STREAM)
  }

  /** No frame ends the stream. */
  ghost predicate NeverEnds(fs: seq<Frame>) {
    forall f :: f in fs ==> !EndsStream(f)
  }

  /** Only frame i ends the stream, and whatever follows it continues its header block. */
  ghost predicate EndsAt(fs: seq<Frame>, i: nat) {
    && i < |fs| && EndsStream(fs[i])
    && (forall j :: 0 <= j < |fs| && j != i ==> !EndsStream(fs[j]))
    && (forall j :: i < j < |fs| ==> fs[j].kind == CONTINUATION && fs[j].sid == fs[i].sid)
  }

  ghost predicate EndsOnce(fs: seq<Frame>) {
    exists i: nat :: EndsAt(fs, i)
  }

  /** All frames respect the peer's limit and the 24-bit length field. */
  ghost predicate Within(fs: seq<Frame>, sid: nat, max: FrameLimit) {
    forall f :: f in fs ==> f.sid == sid && |f.payload| <= max && |f.payload| < LENGTH_LIMIT
  }

  lemma {:induction false} ContinuationSplit(sid: nat, rest: seq<byte>, max: FrameLimit)
    ensures var fs := ContinuationFrames(sid, rest, max);
            && Payloads(fs) == rest && Within(fs, sid, max) && |fs| >= 1
            && (forall i :: 0 <= i < |fs| ==> fs[i].kind == CONTINUATION && (HasFlag(fs[i], END_HEADERS) <==>
              i == |fs| - 1))
    decreases |rest|
  {
    var fs := ContinuationFrames(sid, rest, max);
    if |rest| <= max {
      assert fs[1..] == [];
      assert Payloads(fs) == rest + Payloads([]);
    } else {
      ContinuationSplit(sid, rest[max..], max);
      assert fs[1..] == ContinuationFrames(sid, rest[max..], max);
      assert rest[..max] + rest[max..] == rest;
    }
  }

  /**
    A block is one HEADERS frame and CONTINUATION frames; only the last has END_HEADERS, only the first may end the
    stream.
   */
  lemma HeaderSplit(sid: nat, end: bool, block: seq<byte>, max: FrameLimit)
    ensures var fs := HeaderFrames(sid, end, block, max);
            && Payloads(fs) == block && Within(fs, sid, max) && |fs| >= 1
            && fs[0].kind == HEADERS && (HasFlag(fs[0], END_STREAM) <==> end)
            && (forall i :: 1 <= i < |fs| ==> fs[i].kind == CONTINUATION)
            && (forall i :: 0 <= i < |fs| ==> (HasFlag(fs[i], END_HEADERS) <==> i == |fs| - 1))
  {
    hide ContinuationFrames;
    var fs := HeaderFrames(sid, end, block, max);
    if |block| <= max {
      assert fs[1..] == [];
      assert Payloads(fs) == block + Payloads([]);
    } else {
      ContinuationSplit(sid, block[max..], max);
      var tail := ContinuationFrames(sid, block[max..], max);
      assert fs[1..] == tail;
      assert block[..max] + block[max..] == block;
    }
  }

  /** A body's frames concatenate to it; only the last may end the stream. */
  lemma {:induction false} DataSplit(sid: nat, end: bool, body: seq<byte>, max: FrameLimit)
    ensures var fs := DataFrames(sid, end, body, max);
            && Payloads(fs) == body && Within(fs, sid, max) && (|fs| == 0 <==> body == [])
            && (forall i :: 0 <= i < |fs| ==> fs[i].kind == DATA && (HasFlag(fs[i], END_STREAM) <==>
              end && i == |fs| - 1))
    decreases |body|
  {
    var fs := DataFrames(sid, end, body, max);
    if |body| == 0 {
    } else if |body| <= max {
      assert fs[1..] == [];
      assert Payloads(fs) == body + Payloads([]);
    } else {
      DataSplit(sid, end, body[max..], max);
      assert fs[1..] == DataFrames(sid, end, body[max..], max);
      assert body[..max] + body[max..] == body;
    }
  }

  lemma HeadersEnd(sid: nat, end: bool, block: seq<byte>, max: FrameLimit)
    ensures end ==> EndsOnce(HeaderFrames(sid, end, block, max))
    ensures !end ==> NeverEnds(HeaderFrames(sid, end, block, max))
  {
    hide HeaderFrames, HasFlag;
    HeaderSplit(sid, end, block, max);
    var fs := HeaderFrames(sid, end, block, max);
    if end {
      assert EndsAt(fs, 0);
    }
  }

  lemma DataEnd(sid: nat, end: bool, body: seq<byte>, max: FrameLimit)
    ensures end && body != [] ==> EndsOnce(DataFrames(sid, end, body, max))
    ensures !end ==> NeverEnds(DataFrames(sid, end, body, max))
  {
    hide DataFrames, HasFlag;
    DataSplit(sid, end, body, max);
    var fs := DataFrames(sid, end, body, max);
    if end && body != [] {
      assert EndsAt(fs, |fs| - 1);
    }
  }

  lemma EndsLater(a: seq<Frame>, b: seq<Frame>)
    requires NeverEnds(a)
    ensures EndsOnce(b) ==> EndsOnce(a + b)
    ensures NeverEnds(b) ==> NeverEnds(a + b)
  {
    hide EndsStream;
    if EndsOnce(b) {
      var i: nat :| EndsAt(b, i);
      assert EndsAt(a + b, |a| + i);
    }
  }

  // ---------------------------------------------------------------- submissions

  /** The frames a submission appends. */
  function Appended(s: Session, s': Session): seq<Frame>
    requires |s.output| <= |s'.output|
  {
    s'.output[|s.output|..]
  }

  function ResponseFrames(s: Session, sid: nat, resp: Response): seq<Frame> {
    var hasTrailers := resp.trailers != [];
    var e := s.encoder;
    HeaderFrames(sid, resp.body == [] && !hasTrailers, EncodeBlock(e, ResponseFields(resp, true)), s.peerMaxFrame)
    + DataFrames(sid, !hasTrailers, resp.body, s.peerMaxFrame)
    + (if hasTrailers then HeaderFrames(sid, true, EncodeBlock(AfterBlock(e), TrailerFields(resp.trailers)),
      s.peerMaxFrame) else [])
  }

  lemma ResponseAppends(s: Session, sid: nat, resp: Response)
    ensures SubmitResponse(s, sid, resp).output == s.output + ResponseFrames(s, sid, resp)
    ensures SubmitResponse(s, sid, resp).peerMaxFrame == s.peerMaxFrame
  {
    hide HeaderFrames, DataFrames, EncodeBlock, ResponseFields, TrailerFields;
    var hasTrailers := resp.trailers != [];
    var a := HeaderFrames(sid, resp.body == []
        && !hasTrailers, EncodeBlock(s.encoder, ResponseFields(resp, true)), s.peerMaxFrame);
    var b := DataFrames(sid, !hasTrailers, resp.body, s.peerMaxFrame);
    var c := if hasTrailers then HeaderFrames(sid, true,
        EncodeBlock(AfterBlock(s.encoder), TrailerFields(resp.trailers)), s.peerMaxFrame) else [];
    assert s.output + a + b + c == s.output + (a + b + c);
    assert s.output + a + b == s.output + (a + b);
    assert a + b + [] == a + b;
  }

  /** Every response ends its stream exactly once, at the end of its headers, body or trailers. */
  lemma ResponseEndsOnce(s: Session, sid: nat, resp: Response)
    ensures EndsOnce(ResponseFrames(s, sid, resp))
    ensures Within(ResponseFrames(s, sid, resp), sid, s.peerMaxFrame)
  {
    hide HeaderFrames, DataFrames, EncodeBlock, ResponseFields, TrailerFields, EndsOnce, NeverEnds;
    var hasTrailers := resp.trailers != [];
    var max := s.peerMaxFrame;
    var last := resp.body == [] && !hasTrailers;
    var block := EncodeBlock(s.encoder, ResponseFields(resp, true));
    var tblock := EncodeBlock(AfterBlock(s.encoder), TrailerFields(resp.trailers));
    var a, b := HeaderFrames(sid, last, block, max), DataFrames(sid, !hasTrailers, resp.body, max);
    HeadersEnd(sid, last, block, max);
    HeaderSplit(sid, last, block, max);
    DataEnd(sid, !hasTrailers, resp.body, max);
    DataSplit(sid, !hasTrailers, resp.body, max);
    HeaderSplit(sid, true, tblock, max);
    if hasTrailers {
      HeadersEnd(sid, true, tblock, max);
      EndsLater(a, b);
      EndsLater(a + b, HeaderFrames(sid, true, tblock, max));
    } else if resp.body != [] {
      EndsLater(a, b);
      assert a + b + [] == a + b;
    } else {
      assert a + b + [] == a;
    }
  }

  // ---------------------------------------------------------------- the gRPC writer

  /** A gRPC stream writer over a session: messages until it is finished, then nothing. */
  datatype Writer = Writer(session: Session, sid: nat, finished: bool)

  datatype WriterOp = Write(message: seq<byte>) | Finish(status: int, text: seq<byte>)

  /** One gRPC message: no compression, a four-byte length and the payload. */
  function GrpcMessage(message: seq<byte>): (r: seq<byte>)
    ensures r != []
  {
    [0] + Be32(|message| % WORD32) + message
  }

  function GrpcTrailers(status: int, text: seq<byte>): seq<Field> {
    [Field(Ascii("grpc-status"), Decimal(status))] + if text == [] then [] else [Field(Ascii("grpc-message"), text)]
  }

  function WriterStep(w: Writer, op: WriterOp): Writer {
    if w.finished then w
    else
      match op
      case Write(m) => w.(session := SubmitData(w.session, w.sid, GrpcMessage(m), false))
      case Finish(status, text) => Writer(SubmitTrailers(w.session, w.sid, GrpcTrailers(status, text)), w.sid, true)
  }

  function WriterRun(w: Writer, ops: seq<WriterOp>): Writer {
    if |ops| == 0 then w else WriterStep(WriterRun(w, ops[..|ops| - 1]), ops[|ops| - 1])
  }

  lemma WriteAppends(w: Writer, m: seq<byte>)
    requires !w.finished
    ensures var w' := WriterStep(w, Write(m));
            var fs := DataFrames(w.sid, false, GrpcMessage(m), w.session.peerMaxFrame);
            w'.session.output == w.session.output + fs && NeverEnds(fs) && w'.sid == w.sid && !w'.finished
  {
    hide DataFrames, GrpcMessage;
    DataEnd(w.sid, false, GrpcMessage(m), w.session.peerMaxFrame);
  }

  lemma FinishAppends(w: Writer, status: int, text: seq<byte>)
    requires !w.finished
    ensures var w' := WriterStep(w, Finish(status, text));
            var block := EncodeBlock(w.session.encoder, TrailerFields(GrpcTrailers(status, text)));
            var fs := HeaderFrames(w.sid, true, block, w.session.peerMaxFrame);
            w'.session.output == w.session.output + fs && EndsOnce(fs) && w'.sid == w.sid && w'.finished
  {
    hide HeaderFrames, EncodeBlock, TrailerFields, GrpcTrailers, EndsOnce;
    var block := EncodeBlock(w.session.encoder, TrailerFields(GrpcTrailers(status, text)));
    HeadersEnd(w.sid, true, block, w.session.peerMaxFrame);
  }

  /**
    Over every run of writes and finishes: exactly one end of stream once finished, none before, and nothing after it
    but its own block.
   */
  lemma {:induction false} WriterEndsOnce(w: Writer, ops: seq<WriterOp>)
    requires !w.finished
    ensures var w' := WriterRun(w, ops);
            && w.session.output <= w'.session.output && w'.sid == w.sid
            && (w'.finished <==> exists op :: op in ops && op.Finish?)
            && (w'.finished ==> EndsOnce(Appended(w.session, w'.session)))
            && (!w'.finished ==> NeverEnds(Appended(w.session, w'.session)))
  {
    hide WriterStep, EndsOnce, NeverEnds;
    var start := w.session;
    if |ops| == 0 {
      assert Appended(start, start) == [];
      assert NeverEnds([]) by { NothingEnds(); }
    } else {
      var front, op := ops[..|ops| - 1], ops[|ops| - 1];
      assert ops == front + [op];
      WriterEndsOnce(w, front);
      var w1 := WriterRun(w, front);
      var old1 := Appended(start, w1.session);
      if w1.finished {
        FinishedStays(w1, op);
      } else {
        match op
        case Write(m) =>
          WriteAppends(w1, m);
          var fs := DataFrames(w1.sid, false, GrpcMessage(m), w1.session.peerMaxFrame);
          EndsLater(old1, fs);
          assert Appended(start, WriterStep(w1, op).session) == old1 + fs;
        case Finish(status, text) =>
          FinishAppends(w1, status, text);
          assert op in ops;
          var block := EncodeBlock(w1.session.encoder, TrailerFields(GrpcTrailers(status, text)));
          var fs := HeaderFrames(w1.sid, true, block, w1.session.peerMaxFrame);
          EndsLater(old1, fs);
          assert Appended(start, WriterStep(w1, op).session) == old1 + fs;
      }
    }
  }

  lemma NothingEnds()
    ensures NeverEnds([])
  {
  }

  lemma FinishedStays(w: Writer, op: WriterOp)
    requires w.finished
    ensures WriterStep(w, op) == w
  {
  }
}
