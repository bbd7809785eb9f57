/** A pushed stream: the promise made by a PUSH_PROMISE frame is settled by the answer on the stream it names. */
module H2Push {
  import opened Bytes
  import opened DynamicTable
  import opened H2Frame
  import opened Hpack
  import opened HttpTypes
  import opened H2Session
  import opened H2Responses

  /** The frame of section 6.6 of RFC 7540: the promised stream, and the header block of the request it stands for. */
  function PromiseFrame(sid: nat, promised: nat, block: seq<byte>): Frame {
    Frame(0x5, 0x4, sid, Be32(promised) + block)
  }

  lemma PromiseTaken(c: Session, e: Encoder, sid: nat, promised: nat, fs: seq<Field>)
    requires Asker(c) && promised < SID_LIMIT && promised !in c.streams
    requires Speaks(e, c.encoder.tables) && AllSized(fs)
    ensures var c' := ProcessFrame(c, PromiseFrame(sid, promised, EncodeBlock(e, fs)));
            && Asker(c') && c'.encoder == c.encoder && c'.output == c.output && c'.completed == c.completed
            && c'.streams.Keys == c.streams.Keys + {promised} && Awaiting(c'.streams[promised])
            && forall k :: k in c.streams ==> c'.streams[k] == c.streams[k]
  {
    hide Be32, From32, EncodeBlock, DecodeBlock, Ascii, EmptyRequest, EmptyResponse;
    var p := Be32(promised) + EncodeBlock(e, fs);
    Be32RoundTrip(promised, EncodeBlock(e, fs));
    assert p[4..] == EncodeBlock(e, fs);
    assert promised % SID_LIMIT == promised;
    BlockTransfer(e, c.dyn, fs);
  }

  /** A promise followed by its answer: exactly the promised stream's promise is settled, with that answer. */
  lemma PushedAnswer(c: Session, e: Encoder, max: FrameLimit, sid: nat, promised: nat, fs: seq<Field>, resp: Response)
    requires Asker(c) && 0 < promised < SID_LIMIT && promised !in c.streams
    requires Speaks(e, c.encoder.tables) && AllSized(fs) && Sizable(resp)
    ensures var frame := PromiseFrame(sid, promised, EncodeBlock(e, fs));
            var c' := Run(c, [frame] + AnswerFrames(AfterBlock(e), max, promised, resp));
            && Asker(c') && c'.completed == c.completed + [Answered(promised, Heard(e.tables, resp))]
            && forall k :: k in c.streams ==> k in c'.streams && SameTalk(c'.streams[k], c.streams[k])
  {
    hide Be32, EncodeBlock, ProcessFrame, Run, AnswerFrames, Heard, Sizable;
    var frame := PromiseFrame(sid, promised, EncodeBlock(e, fs));
    PromiseTaken(c, e, sid, promised, fs);
    RunOne(c, frame);
    RunConcat(c, [frame], AnswerFrames(AfterBlock(e), max, promised, resp));
    AnswerHeard(ProcessFrame(c, frame), AfterBlock(e), max, promised, resp);
  }
}
