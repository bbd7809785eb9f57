/**
  Header blocks are atomic (section 6.10 of RFC 7540): while a block is open, the session holds
  exactly the fragments received for it, and the only frame it survives is the next CONTINUATION.
 */
module H2Atomicity {
  import opened Bytes
  import opened DynamicTable
  import opened H2Frame
  import opened HttpTypes
  import opened Hpack
  import opened H2Session
  import opened H2Books

  /** What an observer of the arriving frames knows of the header block in progress. */
  datatype Progress = NoBlock | Block(sid: nat, fragments: seq<byte>, end: bool)

  /** A HEADERS frame that leaves its block open; a client ignores one on a stream it does not know. */
  predicate Opens(s: Session, f: Frame) {
    f.kind == HEADERS && f.sid != 0 && Fragment(f).Content? && !HasFlag(f, END_HEADERS)
    && (s.mode.Server? || f.sid in s.streams)
  }

  function Watch(o: Progress, s: Session, e: Event): Progress {
    if !e.Arrive? then o
    else if o.NoBlock? then
      if Opens(s, e.f) then Block(e.f.sid, Fragment(e.f).data, StreamOf(s, e.f.sid).endStream
        || HasFlag(e.f, END_STREAM)) else NoBlock
    else if HasFlag(e.f, END_HEADERS) then NoBlock
    else o.(fragments := o.fragments + e.f.payload)
  }

  function ProgressOf(s: Session, es: seq<Event>): Progress {
    if |es| == 0 then NoBlock
    else Watch(ProgressOf(s, es[..|es| - 1]), Reach(s, es[..|es| - 1]), es[|es| - 1])
  }

  /** The session's continuation state is the block the observer saw. */
  ghost predicate Faithful(o: Progress, s: Session) {
    match o
    case NoBlock => s.contSid == 0
    case Block(sid, fragments, end) =>
      sid != 0 && s.contSid == sid && sid in s.streams
      && s.streams[sid].pendingBlock == fragments && s.streams[sid].endStream == end
  }

  // ---------------------------------------------------------------- steps outside a block

  /** Neither the continuation state nor the fragments of any stream change. */
  ghost predicate KeepsBlocks(s: Session, s': Session) {
    && s'.contSid == s.contSid
    && (s'.alive ==> s.alive)
    && forall k :: k in s.streams ==> k in s'.streams && s'.streams[k].pendingBlock == s.streams[k].pendingBlock
                                      && s'.streams[k].endStream == s.streams[k].endStream
  }

  lemma ResponseKeepsBlocks(s: Session, sid: nat, resp: Response)
    ensures KeepsBlocks(s, SubmitResponse(s, sid, resp))
  {
    hide HeaderFrames, EncodeBlock, AfterBlock, DataFrames, ResponseFields, TrailerFields;
  }

  lemma RequestKeepsBlocks(s: Session, req: Request, keepOpen: bool)
    ensures KeepsBlocks(s, SubmitRequest(s, req, keepOpen))
  {
    hide HeaderFrames, EncodeBlock, AfterBlock, DataFrames, RequestFields, FreshStream;
  }

  lemma SubmissionKeeps(s: Session, e: Event)
    requires !e.Arrive?
    ensures KeepsBlocks(s, Step(s, e))
  {
    hide SubmitResponse, SubmitRequest, ProcessFrame, HeaderFrames, EncodeBlock, AfterBlock, DataFrames, ResponseFields,
      TrailerFields;
    match e
    case Answer(sid, resp) => ResponseKeepsBlocks(s, sid, resp);
    case Ask(req, keepOpen) => RequestKeepsBlocks(s, req, keepOpen);
    case _ =>
  }

  /** What the representations of a block do to the decoder. */
  function Comes(s: Session, block: seq<byte>): Fate {
    BlockFate(s.encoder.tables, s.dyn, block)
  }

  function Then(before: Fate, after: Fate): Fate {
    if after == Returned then before else after
  }

  lemma EndKeeps(s: Session, sid: nat)
    requires sid in s.streams
    ensures EndOfStream(s, sid).contSid == s.contSid && EndOfStream(s, sid).alive == s.alive
            && EndOfStream(s, sid).fate == s.fate
  {
    hide SubmitResponse;
    if s.mode.Server? {
      var st := s.streams[sid].(endStream := true);
      var req := st.req.(body := st.body);
      var s1 := WithStream(s, sid, st);
      var s2 := WithStream(s1, sid, st.(req := req, body := [])).(dispatched := s1.dispatched + [Dispatch(sid, req)]);
      ResponseSame(s2, sid, s.handler(req));
    }
  }

  lemma ResponseSame(s: Session, sid: nat, resp: Response)
    ensures var s' := SubmitResponse(s, sid, resp); s'.contSid == s.contSid && s'.alive == s.alive && s'.fate == s.fate
  {
    hide HeaderFrames, EncodeBlock, AfterBlock, DataFrames, ResponseFields, TrailerFields;
  }

  lemma ApplyKeeps(s: Session, sid: nat, block: seq<byte>, end: bool)
    requires sid in s.streams
    ensures ApplyBlock(s, sid, block, end).contSid == s.contSid
    ensures ApplyBlock(s, sid, block, end).alive <==> s.alive && Comes(s, block) == Returned
    ensures ApplyBlock(s, sid, block, end).fate == Then(s.fate, Comes(s, block))
  {
    hide EndOfStream, DecodeBlock, ReceiveFields, ReceiveResponse, BlockFate;
    BlockFateIs(s.encoder.tables, s.dyn, block);
    var s1 := s.(dyn := DecodeBlock(s.encoder.tables, s.dyn, block).dyn);
    var st, hs := s.streams[sid], DecodeBlock(s.encoder.tables, s.dyn, block).headers;
    if s.mode.Server? {
      EndKeeps(WithStream(s1, sid, st.(headersComplete := true, req := ReceiveFields(st.req, hs).(version := Http2))),
        sid);
    } else {
      EndKeeps(WithStream(s1, sid,
        st.(headersComplete := true, resp := ReceiveResponse(st.resp, hs).(version := Http2))), sid);
    }
  }

  lemma {:induction false} SettingsKeep(s: Session, xs: seq<Setting>)
    ensures ApplySettings(s, xs).contSid == s.contSid
    decreases |xs|
  {
    if |xs| > 0 && s.alive {
      SettingsKeep(ApplySetting(s, xs[0]), xs[1..]);
    }
  }

  lemma DataKeeps(s: Session, f: Frame)
    ensures HandleData(s, f).contSid == s.contSid
  {
    hide EndOfStream, Ascii, Unpadded, RefillFrames, Refill;
    if f.sid in s.streams && Unpadded(f).Content? {
      var st, data := s.streams[f.sid], Unpadded(f).data;
      EndKeeps(CountData(WithStream(s, f.sid, st.(body := st.body + data)), f.sid, |data|), f.sid);
    }
  }

  /** Outside a block no frame but an open HEADERS starts one. */
  lemma NoBlockStarts(s: Session, f: Frame)
    requires s.alive && s.contSid == 0 && f.kind != HEADERS
    ensures ProcessFrame(s, f).contSid == 0
  {
    hide HandleData, HandleSettings, HandlePing, HandleRstStream, HandleWindowUpdate, HandlePushPromise, Goaway;
    DataKeeps(s, f);
    SettingsFrameKeeps(s, f);
    ControlKeeps(s, f);
    PushKeeps(s, f);
    GoawayKeeps(s, PROTOCOL_ERROR, "Unexpected CONTINUATION");
  }

  lemma GoawayKeeps(s: Session, code: nat, debug: string)
    ensures Goaway(s, code, debug).contSid == s.contSid
  {
    hide Ascii;
  }

  lemma SettingsFrameKeeps(s: Session, f: Frame)
    ensures HandleSettings(s, f).contSid == s.contSid
  {
    hide ApplySettings, ParseSettings, Goaway, HasFlag;
    GoawayKeeps(s, PROTOCOL_ERROR, "SETTINGS on non-zero stream");
    GoawayKeeps(s, FRAME_SIZE_ERROR, "");
    SettingsKeep(s, ParseSettings(f.payload));
  }

  lemma ControlKeeps(s: Session, f: Frame)
    ensures HandlePing(s, f).contSid == s.contSid && HandleRstStream(s, f).contSid == s.contSid
            && HandleWindowUpdate(s, f).contSid == s.contSid
  {
    hide Goaway, HasFlag, ParseWindowUpdate, Be32;
    GoawayKeeps(s, PROTOCOL_ERROR, "PING on non-zero stream");
    GoawayKeeps(s, FRAME_SIZE_ERROR, "");
    GoawayKeeps(s, PROTOCOL_ERROR, "WINDOW_UPDATE 0 increment");
    GoawayKeeps(s.(connSend := s.connSend + ParseWindowUpdate(f.payload)), FLOW_CONTROL_ERROR, "");
  }

  lemma PushKeeps(s: Session, f: Frame)
    ensures HandlePushPromise(s, f).contSid == s.contSid
  {
    hide Goaway, DecodeBlock, FreshStream, From32;
    GoawayKeeps(s, PROTOCOL_ERROR, "PUSH_PROMISE on server");
  }

  /** The state in which a HEADERS frame's fragment is looked at. */
  function Begun(s: Session, sid: nat): Session {
    if s.mode.Client? then s
    else WithStream(s, sid, StreamOf(s, sid).(phase := Open)).(lastClient := if s.lastClient < sid then sid
      else s.lastClient)
  }

  lemma HeadersAre(s: Session, f: Frame)
    requires f.sid != 0 && Fragment(f).Content? && (s.mode.Server? || f.sid in s.streams)
    ensures HandleHeaders(s, f) == StartBlock(Begun(s, f.sid), f, Fragment(f).data)
  {
    hide StartBlock, Fragment, FreshStream, Ascii;
  }

  lemma StartKeeps(s: Session, f: Frame, fragment: seq<byte>)
    requires f.sid in s.streams
    ensures var s' := StartBlock(s, f, fragment);
            if HasFlag(f, END_HEADERS) then
              && s'.contSid == s.contSid && (s'.alive <==> s.alive && Comes(s, fragment) == Returned)
              && s'.fate == Then(s.fate, Comes(s, fragment))
            else
              && s'.alive == s.alive && s'.fate == s.fate
              && (f.sid != 0 ==> Faithful(Block(f.sid, fragment, s.streams[f.sid].endStream || HasFlag(f, END_STREAM)),
                s'))
  {
    hide ApplyBlock, HasFlag, DecodeBlock;
    if HasFlag(f, END_HEADERS) {
      ApplyKeeps(s, f.sid, fragment, HasFlag(f, END_STREAM));
    }
  }

  lemma HeadersStart(s: Session, f: Frame)
    requires s.alive && s.contSid == 0 && f.kind == HEADERS
    ensures Opens(s, f) ==> Faithful(Block(f.sid, Fragment(f).data, StreamOf(s, f.sid).endStream
            || HasFlag(f, END_STREAM)), ProcessFrame(s, f))
    ensures !Opens(s, f) ==> ProcessFrame(s, f).contSid == 0
  {
    hide StartBlock, Fragment, Ascii, FreshStream, HasFlag, Faithful, DecodeBlock;
    if f.sid != 0 && Fragment(f).Content? && (s.mode.Server? || f.sid in s.streams) {
      HeadersAre(s, f);
      StartKeeps(Begun(s, f.sid), f, Fragment(f).data);
    }
  }

  // ---------------------------------------------------------------- inside a block

  /** The next CONTINUATION extends the block, or completes it and applies every fragment at once. */
  lemma NextFragment(o: Progress, s: Session, f: Frame)
    requires s.alive && o.Block? && Faithful(o, s) && f.kind == CONTINUATION && f.sid == o.sid
    ensures ProcessFrame(s, f).alive <==> HasFlag(f, END_HEADERS) ==> Comes(s, o.fragments + f.payload) == Returned
    ensures Faithful(Watch(o, s, Arrive(f)), ProcessFrame(s, f))
    ensures HasFlag(f, END_HEADERS) ==>
              var closed := WithStream(s, o.sid, s.streams[o.sid].(pendingBlock := [])).(contSid := 0);
              ProcessFrame(s, f) == ApplyBlock(closed, o.sid, o.fragments + f.payload, o.end)
  {
    hide ApplyBlock, HasFlag, Ascii, DecodeBlock;
    if HasFlag(f, END_HEADERS) {
      var closed := WithStream(s, o.sid, s.streams[o.sid].(pendingBlock := [])).(contSid := 0);
      ApplyKeeps(closed, o.sid, o.fragments + f.payload, o.end);
    }
  }

  // ---------------------------------------------------------------- whole runs

  lemma StepFaithful(o: Progress, s: Session, e: Event)
    requires s.alive ==> Faithful(o, s)
    ensures Step(s, e).alive ==> Faithful(Watch(o, s, e), Step(s, e))
  {
    hide ProcessFrame, SubmitRequest, SubmitResponse, SubmitResponseHeaders, SubmitData, SubmitTrailers, HasFlag,
      Fragment, FreshStream;
    if !e.Arrive? {
      SubmissionKeeps(s, e);
    } else if s.alive {
      if o.Block? {
        if e.f.kind == CONTINUATION && e.f.sid == o.sid {
          NextFragment(o, s, e.f);
        } else {
          InterleavingKills(s, e.f);
        }
      } else if e.f.kind == HEADERS {
        HeadersStart(s, e.f);
      } else {
        NoBlockStarts(s, e.f);
      }
    }
  }

  lemma InterleavingKills(s: Session, f: Frame)
    requires s.alive && s.contSid != 0 && (f.kind != CONTINUATION || f.sid != s.contSid)
    ensures !ProcessFrame(s, f).alive
  {
  }

  /** In every reachable live state the continuation stream exists and holds the fragments received so far. */
  lemma {:induction false} BlocksAreFaithful(mode: Mode, tb: Tables, handler: Request -> Response, es: seq<Event>)
    ensures var s0 := NewSession(mode, tb, handler); Reach(s0, es).alive ==> Faithful(ProgressOf(s0, es), Reach(s0, es))
  {
    hide Step, Watch, Faithful;
    var s0 := NewSession(mode, tb, handler);
    if |es| == 0 {
      NewIsFaithful(mode, tb, handler);
    } else {
      BlocksAreFaithful(mode, tb, handler, es[..|es| - 1]);
      StepFaithful(ProgressOf(s0, es[..|es| - 1]), Reach(s0, es[..|es| - 1]), es[|es| - 1]);
    }
  }

  lemma NewIsFaithful(mode: Mode, tb: Tables, handler: Request -> Response)
    ensures Faithful(NoBlock, NewSession(mode, tb, handler))
  {
  }

  /**
    A reachable live session in the middle of a block survives a frame exactly when it is a CONTINUATION of that block
    that does not complete it to one from which the decoder does not return; the branch for an unknown stream is never
    taken.
   */
  lemma BlocksAreAtomic(mode: Mode, tb: Tables, handler: Request -> Response, es: seq<Event>, f: Frame)
    ensures var s := Reach(NewSession(mode, tb, handler), es);
            s.alive && s.contSid != 0 ==>
              && s.contSid in s.streams
              && (ProcessFrame(s, f).alive <==>
                    f.kind == CONTINUATION && f.sid == s.contSid
                    && (HasFlag(f, END_HEADERS) ==>
                      Comes(s, s.streams[s.contSid].pendingBlock + f.payload) == Returned))
  {
    hide Reach, ProgressOf, ProcessFrame, HasFlag, NewSession;
    var s0 := NewSession(mode, tb, handler);
    var s, o := Reach(s0, es), ProgressOf(s0, es);
    BlocksAreFaithful(mode, tb, handler, es);
    if s.alive && s.contSid != 0 {
      if f.kind == CONTINUATION && f.sid == s.contSid {
        NextFragment(o, s, f);
      } else {
        InterleavingKills(s, f);
      }
    }
  }

  // ---------------------------------------------------------------- reading beyond a block

  /** The header block that a frame completes, if it completes one that is decoded. */
  function Completed(s: Session, f: Frame): Option<seq<byte>> {
    if s.contSid != 0 then
      if f.kind == CONTINUATION && f.sid == s.contSid && f.sid in s.streams && HasFlag(f, END_HEADERS)
      then Some(s.streams[f.sid].pendingBlock + f.payload) else None
    else if f.kind == HEADERS then
      if f.sid != 0 && Fragment(f).Content? && HasFlag(f, END_HEADERS) && (s.mode.Server? || f.sid in s.streams)
      then Some(Fragment(f).data) else None
    else if f.kind == PUSH_PROMISE && s.mode.Client? then Some(if |f.payload| < 4 then [] else f.payload[4..])
    else None
  }

  lemma {:induction false} SettingsNoCrash(s: Session, xs: seq<Setting>)
    ensures ApplySettings(s, xs).fate == s.fate
    decreases |xs|
  {
    hide Resize, ShiftWindows, Ascii;
    if |xs| > 0 && s.alive {
      SettingsNoCrash(ApplySetting(s, xs[0]), xs[1..]);
    }
  }

  lemma DataNoCrash(s: Session, f: Frame)
    ensures HandleData(s, f).fate == s.fate
  {
    hide EndOfStream, Ascii, Unpadded, RefillFrames, Refill, HasFlag;
    if f.sid in s.streams && Unpadded(f).Content? {
      var st, data := s.streams[f.sid], Unpadded(f).data;
      EndKeeps(CountData(WithStream(s, f.sid, st.(body := st.body + data)), f.sid, |data|), f.sid);
    }
  }

  lemma SettingsFrameNoCrash(s: Session, f: Frame)
    ensures HandleSettings(s, f).fate == s.fate
  {
    hide ApplySettings, ParseSettings, Goaway, HasFlag;
    GoawayNoCrash(s, PROTOCOL_ERROR, "SETTINGS on non-zero stream");
    GoawayNoCrash(s, FRAME_SIZE_ERROR, "");
    SettingsNoCrash(s, ParseSettings(f.payload));
  }

  lemma PingNoCrash(s: Session, f: Frame)
    ensures HandlePing(s, f).fate == s.fate
  {
    hide Goaway, HasFlag;
    GoawayNoCrash(s, PROTOCOL_ERROR, "PING on non-zero stream");
    GoawayNoCrash(s, FRAME_SIZE_ERROR, "");
  }

  lemma UpdateNoCrash(s: Session, f: Frame)
    ensures HandleWindowUpdate(s, f).fate == s.fate
  {
    hide Goaway, ParseWindowUpdate, Be32;
    GoawayNoCrash(s, FRAME_SIZE_ERROR, "");
    GoawayNoCrash(s, PROTOCOL_ERROR, "WINDOW_UPDATE 0 increment");
    GoawayNoCrash(s.(connSend := s.connSend + ParseWindowUpdate(f.payload)), FLOW_CONTROL_ERROR, "");
  }

  lemma GoawayNoCrash(s: Session, code: nat, debug: string)
    ensures Goaway(s, code, debug).fate == s.fate
  {
    hide Ascii;
  }

  lemma ResetNoCrash(s: Session, f: Frame)
    ensures HandleRstStream(s, f).fate == s.fate
  {
    hide Goaway;
    GoawayNoCrash(s, FRAME_SIZE_ERROR, "");
  }

  lemma HeadersCrash(s: Session, f: Frame)
    requires s.contSid == 0 && f.kind == HEADERS
    ensures HandleHeaders(s, f).fate == if Completed(s, f).None? then s.fate
            else Then(s.fate, Comes(s, Completed(s, f).value))
  {
    hide StartBlock, Fragment, Ascii, FreshStream, HasFlag, Faithful, DecodeBlock;
    if f.sid != 0 && Fragment(f).Content? && (s.mode.Server? || f.sid in s.streams) {
      HeadersAre(s, f);
      StartKeeps(Begun(s, f.sid), f, Fragment(f).data);
    }
  }

  lemma ContinuationCrash(s: Session, f: Frame)
    ensures f.sid in s.streams ==>
              var block := s.streams[f.sid].pendingBlock + f.payload;
              HandleContinuation(s, f).fate == if HasFlag(f, END_HEADERS) then Then(s.fate, Comes(s, block)) else s.fate
    ensures f.sid !in s.streams ==> HandleContinuation(s, f).fate == s.fate
  {
    hide ApplyBlock, Ascii, HasFlag, DecodeBlock;
    if f.sid in s.streams {
      var st := s.streams[f.sid];
      ApplyKeeps(WithStream(s, f.sid, st.(pendingBlock := [])).(contSid := 0), f.sid, st.pendingBlock + f.payload,
        st.endStream);
    }
  }

  lemma PushCrash(s: Session, f: Frame)
    ensures HandlePushPromise(s, f).fate
         == if s.mode.Server? then s.fate else Then(s.fate, Comes(s, if |f.payload| < 4 then [] else f.payload[4..]))
  {
    hide Goaway, DecodeBlock, FreshStream, From32, BlockFate;
    GoawayNoCrash(s, PROTOCOL_ERROR, "PUSH_PROMISE on server");
    BlockFateIs(s.encoder.tables, s.dyn, if |f.payload| < 4 then [] else f.payload[4..]);
  }

  /**
    A frame makes the session end by an exception, or its decoder read beyond a block, if and only if it completes a
    block whose representations, taken one after the other, come to a string that does so: one of a length that wraps,
    in plain form, or in Huffman form with nothing behind it on which the bit loop gives up.
   */
  lemma CrashIff(s: Session, f: Frame)
    requires s.fate == Returned
    ensures ProcessFrame(s, f).fate == if Completed(s, f).None? then Returned else Comes(s, Completed(s, f).value)
  {
    hide HandleData, HandleHeaders, HandleContinuation, HandleSettings, HandlePing, HandleRstStream, HandleWindowUpdate,
      HandlePushPromise, Goaway, HasFlag, Fragment, DecodeBlock, FreshStream, BlockFate;
    GoawayNoCrash(s, PROTOCOL_ERROR, "Expected CONTINUATION");
    GoawayNoCrash(s, PROTOCOL_ERROR, "Unexpected CONTINUATION");
    if s.contSid != 0 {
      ContinuationCrash(s, f);
    } else if f.kind == HEADERS {
      HeadersCrash(s, f);
    } else {
      DataNoCrash(s, f);
      SettingsFrameNoCrash(s, f);
      PingNoCrash(s, f);
      UpdateNoCrash(s, f);
      ResetNoCrash(s, f);
      PushCrash(s, f);
    }
  }
}
