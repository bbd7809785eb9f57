/** Responses on their way back: what a client session makes of a server's answer to one of its requests. */
module H2Responses {
  import opened Bytes
  import opened DynamicTable
  import opened H2Frame
  import opened HttpTypes
  import opened Hpack
  import opened H2Session
  import opened H2EndToEnd
  import PrefixInt

  ghost predicate Asker(c: Session) {
    c.mode.Client? && c.alive && c.contSid == 0
  }

  /** What a response depends on in a stream; windows may differ. */
  ghost predicate SameTalk(a: Stream, b: Stream) {
    a.resp == b.resp && a.body == b.body && a.promise == b.promise && a.endStream == b.endStream
  }

  /** Frames of one stream leave the session able to go on and the other streams' conversations alone. */
  ghost predicate Follows(c: Session, c': Session, sid: nat) {
    && Asker(c') && c'.encoder.tables == c.encoder.tables && c'.connSend == c.connSend
    && c'.streams.Keys == c.streams.Keys
    && forall k :: k in c.streams && k != sid ==> SameTalk(c'.streams[k], c.streams[k])
  }

  lemma FollowsTrans(a: Session, b: Session, c: Session, sid: nat)
    requires Follows(a, b, sid) && Follows(b, c, sid)
    ensures Follows(a, c, sid)
  {
  }

  // ---------------------------------------------------------------- header blocks

  /** The response once a header list has been added to it. */
  function WithFields(resp: Response, fs: seq<Field>): Response {
    ReceiveResponse(resp, fs).(version := Http2)
  }

  lemma BlockHeard(c: Session, sid: nat, block: seq<byte>, end: bool)
    requires Asker(c) && sid in c.streams && c.streams[sid].promise
    ensures var c', st := ApplyBlock(c, sid, block, end), c.streams[sid];
            var resp := WithFields(st.resp, DecodeBlock(c.encoder.tables, c.dyn, block).headers);
            if Escapes(c, block) then EndedBy(c', c, block) else
            && Follows(c, c', sid)
            && (end ==> c'.completed == c.completed + [Answered(sid, resp.(body := st.body))])
            && (!end ==> c'.completed == c.completed && SameTalk(c'.streams[sid], st.(resp := resp)))
  {
    hide DecodeBlock, ReceiveResponse;
  }

  /** The client state after a HEADERS frame that leaves its block open. */
  function Listening(c: Session, sid: nat, fragment: seq<byte>, end: bool): Session
    requires sid in c.streams
  {
    WithStream(c, sid, c.streams[sid].(pendingBlock := fragment, endStream := end)).(contSid := sid)
  }

  lemma OpenHeard(c: Session, f: Frame, end: bool)
    requires Asker(c) && f.kind == HEADERS && f.sid > 0 && f.sid in c.streams && !c.streams[f.sid].endStream
    requires Fragment(f) == Content(f.payload) && !HasFlag(f, END_HEADERS) && HasFlag(f, END_STREAM) == end
    ensures ProcessFrame(c, f) == Listening(c, f.sid, f.payload, end)
  {
    hide Fragment, HasFlag, ApplyBlock, Ascii;
  }

  lemma WholeHeard(c: Session, f: Frame, end: bool)
    requires Asker(c) && f.kind == HEADERS && f.sid > 0 && f.sid in c.streams
    requires Fragment(f) == Content(f.payload) && HasFlag(f, END_HEADERS) && HasFlag(f, END_STREAM) == end
    ensures ProcessFrame(c, f) == ApplyBlock(c, f.sid, f.payload, end)
  {
    hide Fragment, HasFlag, ApplyBlock, Ascii;
  }

  /** A header block of a response, split or not. */
  lemma HeadersHeard(c: Session, sid: nat, end: bool, block: seq<byte>, max: FrameLimit)
    requires Asker(c) && sid > 0 && sid in c.streams && c.streams[sid].promise && !c.streams[sid].endStream
    ensures var c', st := Run(c, HeaderFrames(sid, end, block, max)), c.streams[sid];
            var resp := WithFields(st.resp, DecodeBlock(c.encoder.tables, c.dyn, block).headers);
            if Escapes(c, block) then EndedBy(c', c, block) else
            && Follows(c, c', sid)
            && (end ==> c'.completed == c.completed + [Answered(sid, resp.(body := st.body))])
            && (!end ==> c'.completed == c.completed && SameTalk(c'.streams[sid], st.(resp := resp)))
  {
    hide ApplyBlock, ProcessFrame, Fragment, HasFlag, Run, ContinuationFrames, DecodeBlock, ReceiveResponse;
    if |block| <= max {
      var f := Frame(HEADERS, EndFlag(end) + END_HEADERS, sid, block);
      PlainFlags(f);
      HeaderFlags(f, end, true);
      RunOne(c, f);
      WholeHeard(c, f, end);
      BlockHeard(c, sid, block, end);
    } else {
      var f := Frame(HEADERS, EndFlag(end), sid, block[..max]);
      PlainFlags(f);
      HeaderFlags(f, end, false);
      SplitHeard(c, f, end, block, max);
      BlockHeard(Resumed(Listening(c, sid, block[..max], end), sid), sid, block, end);
    }
  }

  lemma SplitHeard(c: Session, f: Frame, end: bool, block: seq<byte>, max: FrameLimit)
    requires Asker(c) && f.sid > 0 && f.sid in c.streams && !c.streams[f.sid].endStream && |block| > max
    requires f == Frame(HEADERS, EndFlag(end), f.sid, block[..max])
    requires Fragment(f) == Content(f.payload) && !HasFlag(f, END_HEADERS) && HasFlag(f, END_STREAM) == end
    ensures Run(c, [f] + ContinuationFrames(f.sid, block[max..], max))
         == ApplyBlock(Resumed(Listening(c, f.sid, block[..max], end), f.sid), f.sid, block, end)
  {
    hide ApplyBlock, ProcessFrame, Fragment, HasFlag, Run, ContinuationFrames;
    RunConcat(c, [f], ContinuationFrames(f.sid, block[max..], max));
    RunOne(c, f);
    OpenHeard(c, f, end);
    var c1 := Listening(c, f.sid, block[..max], end);
    ContinuationsArrive(c1, f.sid, block[max..], max);
    assert block[..max] + block[max..] == block;
  }

  // ---------------------------------------------------------------- bodies

  lemma DataHeard(c: Session, f: Frame)
    requires Asker(c) && f.kind == DATA && f.flags == 0 && f.sid > 0 && f.sid in c.streams
    ensures var c', st := ProcessFrame(c, f), c.streams[f.sid];
            && Follows(c, c', f.sid) && c'.completed == c.completed
            && SameTalk(c'.streams[f.sid], st.(body := st.body + f.payload))
  {
    hide RefillFrames, Refill, Fragment;
    PlainFlags(f);
  }

  lemma LastDataHeard(c: Session, f: Frame)
    requires Asker(c) && f.kind == DATA && f.flags == END_STREAM && f.sid > 0 && f.sid in c.streams
             && c.streams[f.sid].promise
    ensures var c', st := ProcessFrame(c, f), c.streams[f.sid];
            && Follows(c, c', f.sid)
            && c'.completed == c.completed + [Answered(f.sid, st.resp.(body := st.body + f.payload))]
  {
    hide RefillFrames, Refill, Fragment;
    PlainFlags(f);
    assert HasFlag(f, END_STREAM);
  }

  lemma {:induction false} BodyHeard(c: Session, sid: nat, body: seq<byte>, end: bool, max: FrameLimit)
    requires Asker(c) && sid > 0 && sid in c.streams && c.streams[sid].promise && (end ==> body != [])
    ensures var c', st := Run(c, DataFrames(sid, end, body, max)), c.streams[sid];
            && Follows(c, c', sid)
            && (end ==> c'.completed == c.completed + [Answered(sid, st.resp.(body := st.body + body))])
            && (!end ==> c'.completed == c.completed && SameTalk(c'.streams[sid], st.(body := st.body + body)))
    decreases |body|
  {
    hide ProcessFrame;
    var st := c.streams[sid];
    if body == [] {
      assert st.body + body == st.body;
    } else if |body| <= max {
      var f := Frame(DATA, EndFlag(end), sid, body);
      RunOne(c, f);
      if end {
        LastDataHeard(c, f);
      } else {
        DataHeard(c, f);
      }
    } else {
      var f := Frame(DATA, 0, sid, body[..max]);
      RunConcat(c, [f], DataFrames(sid, end, body[max..], max));
      RunOne(c, f);
      DataHeard(c, f);
      var c1 := ProcessFrame(c, f);
      BodyHeard(c1, sid, body[max..], end, max);
      FollowsTrans(c, c1, Run(c1, DataFrames(sid, end, body[max..], max)), sid);
      assert st.body + body[..max] + body[max..] == st.body + body;
    }
  }

  // ---------------------------------------------------------------- one answer

  /** The frames of an answer, as they depend on the server's encoder and frame limit. */
  function AnswerFrames(e: Encoder, max: FrameLimit, sid: nat, resp: Response): seq<Frame> {
    var hasTrailers := resp.trailers != [];
    HeaderFrames(sid, resp.body == [] && !hasTrailers, EncodeBlock(e, ResponseFields(resp, true)), max)
    + DataFrames(sid, !hasTrailers, resp.body, max)
    + (if hasTrailers then HeaderFrames(sid, true, EncodeBlock(AfterBlock(e), TrailerFields(resp.trailers)), max)
      else [])
  }

  /** What a client reports for an answer: trailers end up behind the headers. */
  function Heard(tb: Tables, resp: Response): Response {
    var r := WithFields(EmptyResponse(), DeliveredFields(tb, ResponseFields(resp, true)));
    var r' := if resp.trailers == [] then r else WithFields(r, DeliveredFields(tb, TrailerFields(resp.trailers)));
    r'.(body := resp.body)
  }

  ghost predicate Sizable(resp: Response) {
    AllSized(ResponseFields(resp, true)) && AllSized(TrailerFields(resp.trailers))
  }

  ghost predicate Speaks(e: Encoder, tb: Tables) {
    e.tables == tb && Addressable(tb) && e.max < PrefixInt.WORD64
  }

  /** A stream whose answer has not begun. */
  ghost predicate Awaiting(st: Stream) {
    st.promise && !st.endStream && st.body == [] && st.resp == EmptyResponse()
  }

  lemma FieldsHeard(c: Session, e: Encoder, sid: nat, end: bool, fs: seq<Field>, max: FrameLimit)
    requires Asker(c) && sid > 0 && sid in c.streams && c.streams[sid].promise && !c.streams[sid].endStream
    requires Speaks(e, c.encoder.tables) && AllSized(fs)
    ensures var c', st := Run(c, HeaderFrames(sid, end, EncodeBlock(e, fs), max)), c.streams[sid];
            var resp := WithFields(st.resp, DeliveredFields(e.tables, fs));
            && Follows(c, c', sid)
            && (end ==> c'.completed == c.completed + [Answered(sid, resp.(body := st.body))])
            && (!end ==> c'.completed == c.completed && SameTalk(c'.streams[sid], st.(resp := resp)))
  {
    hide HeaderFrames, EncodeBlock, DecodeBlock, ReceiveResponse, DeliveredFields, Run;
    BlockTransfer(e, c.dyn, fs);
    HeadersHeard(c, sid, end, EncodeBlock(e, fs), max);
  }

  lemma ThreeParts(c: Session, a: seq<Frame>, b: seq<Frame>, d: seq<Frame>)
    ensures Run(c, a + b + d) == Run(Run(Run(c, a), b), d)
  {
    hide Run;
    RunConcat(c, a + b, d);
    RunConcat(c, a, b);
  }

  /** A whole answer on a stream that waits for it completes exactly that stream's promise. */
  lemma AnswerHeard(c: Session, e: Encoder, max: FrameLimit, sid: nat, resp: Response)
    requires Asker(c) && sid > 0 && sid in c.streams && Awaiting(c.streams[sid])
    requires Speaks(e, c.encoder.tables) && Sizable(resp)
    ensures var c' := Run(c, AnswerFrames(e, max, sid, resp));
            Follows(c, c', sid) && c'.completed == c.completed + [Answered(sid, Heard(e.tables, resp))]
  {
    hide Run, HeaderFrames, DataFrames, EncodeBlock, ResponseFields, TrailerFields, DeliveredFields, ReceiveResponse,
      EmptyResponse;
    var hasTrailers := resp.trailers != [];
    var last := resp.body == [] && !hasTrailers;
    var fs, ts := ResponseFields(resp, true), TrailerFields(resp.trailers);
    var a, b := HeaderFrames(sid, last, EncodeBlock(e, fs), max), DataFrames(sid, !hasTrailers, resp.body, max);
    var d := if hasTrailers then HeaderFrames(sid, true, EncodeBlock(AfterBlock(e), ts), max) else [];
    ThreeParts(c, a, b, d);
    FieldsHeard(c, e, sid, last, fs, max);
    var c1 := Run(c, a);
    var c2 := Run(c1, b);
    if last {
      assert b == [] by { NoData(sid, max); }
      RunNone(c1);
      assert c.streams[sid].body == resp.body;
    } else {
      BodyHeard(c1, sid, resp.body, !hasTrailers, max);
      FollowsTrans(c, c1, c2, sid);
      assert [] + resp.body == resp.body;
      if hasTrailers {
        FieldsHeard(c2, AfterBlock(e), sid, true, ts, max);
        FollowsTrans(c, c2, Run(c2, d), sid);
      }
    }
    if !hasTrailers {
      RunNone(c2);
    }
  }

  lemma NoData(sid: nat, max: FrameLimit)
    ensures DataFrames(sid, true, [], max) == []
  {
  }
}
