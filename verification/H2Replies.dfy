/**
  What a live client sends on its own in answer to received frames, and what that does to the
  server: acknowledgements and resets are harmless, credit adds up in the connection's send window.
 */
module H2Replies {
  import opened Bytes
  import opened DynamicTable
  import opened H2Frame
  import opened HttpTypes
  import opened Hpack
  import opened H2Session
  import opened H2Books

  /** SETTINGS and PING acknowledgements. */
  ghost predicate IsAck(f: Frame) {
    f.sid == 0 && f.flags == ACK && ((f.kind == SETTINGS && f.payload == []) || (f.kind == PING && |f.payload| == 8))
  }

  ghost predicate IsReset(f: Frame) {
    f.kind == RST_STREAM && |f.payload| == 4
  }

  ghost predicate IsCredit(f: Frame) {
    f.kind == WINDOW_UPDATE && |f.payload| == 4 && ParseWindowUpdate(f.payload) > 0
  }

  ghost predicate IsReply(f: Frame) {
    Fits(f) && (IsAck(f) || IsReset(f) || IsCredit(f))
  }

  ghost predicate AllReplies(fs: seq<Frame>) {
    forall f :: f in fs ==> IsReply(f)
  }

  ghost predicate Full(window: int) {
    DEFAULT_WINDOW / 2 <= window <= DEFAULT_WINDOW
  }

  /** Every receive window is at least half full. */
  ghost predicate InRange(s: Session) {
    Full(s.connRecv) && forall k :: k in s.streams && k != 0 ==> Full(s.streams[k].recvWindow)
  }

  // ---------------------------------------------------------------- the client's side

  /** A client completing a stream or a header block sends nothing. */
  lemma BlockSilent(s: Session, sid: nat, block: seq<byte>, end: bool)
    requires s.mode.Client? && sid in s.streams
    ensures ApplyBlock(s, sid, block, end).output == s.output
  {
    hide DecodeBlock, ReceiveResponse;
  }

  lemma StartSilent(s: Session, f: Frame, fragment: seq<byte>)
    requires s.mode.Client? && f.sid in s.streams
    ensures StartBlock(s, f, fragment).output == s.output
  {
    hide ApplyBlock, HasFlag;
    BlockSilent(s, f.sid, fragment, HasFlag(f, END_STREAM));
  }

  lemma HeadersSilent(s: Session, f: Frame)
    requires s.mode.Client? && HandleHeaders(s, f).alive
    ensures HandleHeaders(s, f).output == s.output
  {
    hide StartBlock, Fragment, Ascii;
    if f.sid in s.streams && Fragment(f).Content? {
      StartSilent(s, f, Fragment(f).data);
    }
  }

  lemma ContinuationSilent(s: Session, f: Frame)
    requires s.mode.Client? && HandleContinuation(s, f).alive
    ensures HandleContinuation(s, f).output == s.output
  {
    hide ApplyBlock, HasFlag, Ascii;
    if f.sid in s.streams {
      var st := s.streams[f.sid];
      BlockSilent(WithStream(s, f.sid, st.(pendingBlock := [])).(contSid := 0), f.sid, st.pendingBlock + f.payload,
        st.endStream);
    }
  }

  /** The credit frames of a refill, with increments that fit 31 bits. */
  lemma RefillIsReply(sid: nat, window: int)
    requires sid < SID_LIMIT && window <= DEFAULT_WINDOW && DEFAULT_WINDOW - window < SID_LIMIT
    ensures AllReplies(RefillFrames(sid, Refill(window)))
  {
    hide ParseWindowUpdate, Be32;
    WindowUpdateRoundTrip(sid, Refill(window));
  }

  lemma DataReplies(s: Session, f: Frame)
    requires s.mode.Client? && InRange(s) && Fits(f) && HandleData(s, f).alive
    ensures s.output <= HandleData(s, f).output && AllReplies(NewFrames(s, HandleData(s, f)))
  {
    hide RefillFrames, Refill, Unpadded, Ascii, HasFlag, Be32, CompletePromise;
    var s' := HandleData(s, f);
    if f.sid !in s.streams {
      assert NewFrames(s, s') == [RstStreamFrame(f.sid, STREAM_CLOSED)];
    } else {
      var data := Unpadded(f).data;
      assert |data| < LENGTH_LIMIT by { ContentLength(f); }
      var a, b := s.connRecv - |data|, s.streams[f.sid].recvWindow - |data|;
      RefillIsReply(0, a);
      RefillIsReply(f.sid, b);
      var st := s.streams[f.sid];
      var s1 := CountData(WithStream(s, f.sid, st.(body := st.body + data)), f.sid, |data|);
      CompleteSilent(WithStream(s1, f.sid, s1.streams[f.sid].(endStream := true)), f.sid);
      assert s'.output == s.output + (RefillFrames(0, Refill(a)) + RefillFrames(f.sid, Refill(b)));
    }
  }

  lemma CompleteSilent(s: Session, sid: nat)
    requires sid in s.streams
    ensures CompletePromise(s, sid).output == s.output
  {
  }

  lemma {:induction false} SettingsSilent(s: Session, xs: seq<Setting>)
    requires ApplySettings(s, xs).alive
    ensures ApplySettings(s, xs).output == s.output && s.alive
    decreases |xs|
  {
    hide Resize, ShiftWindows, Ascii;
    if |xs| > 0 && s.alive {
      SettingsSilent(ApplySetting(s, xs[0]), xs[1..]);
    }
  }

  lemma ControlReplies(s: Session, f: Frame)
    requires Fits(f)
    ensures HandleSettings(s, f).alive ==>
              s.output <= HandleSettings(s, f).output && AllReplies(NewFrames(s, HandleSettings(s, f)))
    ensures HandlePing(s, f).alive ==> s.output <= HandlePing(s, f).output && AllReplies(NewFrames(s, HandlePing(s, f)))
  {
    hide ApplySettings, ParseSettings, HasFlag, Ascii;
    if HandleSettings(s, f).alive {
      if f.sid == 0 && !HasFlag(f, ACK) && |f.payload| % 6 == 0 {
        SettingsSilent(s, ParseSettings(f.payload));
        assert NewFrames(s, HandleSettings(s, f)) == [SettingsAck()];
      } else {
        assert NewFrames(s, HandleSettings(s, f)) == [];
      }
    }
    if HandlePing(s, f).alive {
      assert NewFrames(s, HandlePing(s, f)) == if HasFlag(f, ACK) then [] else [PingAck(f.payload)];
    }
  }

  lemma UpdateReplies(s: Session, f: Frame)
    requires Fits(f) && HandleWindowUpdate(s, f).alive
    ensures s.output <= HandleWindowUpdate(s, f).output && AllReplies(NewFrames(s, HandleWindowUpdate(s, f)))
  {
    hide ParseWindowUpdate, Goaway, Be32, AllReplies;
    var s', n := HandleWindowUpdate(s, f), ParseWindowUpdate(f.payload);
    GoawayEnds(s, FRAME_SIZE_ERROR, "");
    GoawayEnds(s, PROTOCOL_ERROR, "WINDOW_UPDATE 0 increment");
    GoawayEnds(s.(connSend := s.connSend + n), FLOW_CONTROL_ERROR, "");
    if s'.output == s.output {
      Unchanged(s, s');
    } else {
      var code := if n == 0 then PROTOCOL_ERROR else FLOW_CONTROL_ERROR;
      assert NewFrames(s, s') == [RstStreamFrame(f.sid, code)];
      ResetIsReply(f.sid, code);
    }
  }

  lemma GoawayEnds(s: Session, code: nat, debug: string)
    ensures !Goaway(s, code, debug).alive
  {
    hide Ascii;
  }

  lemma ResetIsReply(sid: nat, code: nat)
    requires sid < SID_LIMIT
    ensures AllReplies([RstStreamFrame(sid, code)])
  {
    hide Be32;
  }

  lemma Unchanged(s: Session, s': Session)
    requires s'.output == s.output
    ensures s.output <= s'.output && AllReplies(NewFrames(s, s'))
  {
    assert NewFrames(s, s') == [];
  }

  /** Whatever frame a client survives, it answers with acknowledgements, resets and credit only. */
  lemma ClientReplies(c: Session, f: Frame)
    requires c.mode.Client? && InRange(c) && Fits(f) && ProcessFrame(c, f).alive
    ensures c.output <= ProcessFrame(c, f).output && AllReplies(NewFrames(c, ProcessFrame(c, f)))
  {
    hide HandleData, HandleHeaders, HandleContinuation, HandleSettings, HandlePing, HandleWindowUpdate, DecodeBlock,
      FreshStream, AllReplies, NewFrames, InRange, Ascii;
    var c' := ProcessFrame(c, f);
    if c.contSid != 0 {
      ContinuationSilent(c, f);
      Unchanged(c, c');
    } else if f.kind == DATA {
      DataReplies(c, f);
    } else if f.kind == HEADERS {
      HeadersSilent(c, f);
      Unchanged(c, c');
    } else if f.kind == SETTINGS || f.kind == PING {
      ControlReplies(c, f);
    } else if f.kind == WINDOW_UPDATE {
      UpdateReplies(c, f);
    } else {
      Unchanged(c, c');
    }
  }

  // ---------------------------------------------------------------- the server's side

  ghost predicate Receiver(s: Session) {
    s.mode.Server? && s.alive && s.fate == Returned && s.contSid == 0
  }

  /** Nothing a request depends on has changed, and no stream has appeared. */
  ghost predicate Undisturbed(s: Session, s': Session) {
    Receiver(s') && s'.encoder.tables == s.encoder.tables && s'.streams.Keys <= s.streams.Keys
    && s'.dispatched == s.dispatched
  }

  /** The server has ended the session itself, and no request was dispatched meanwhile. */
  ghost predicate GivenUp(s: Session, s': Session) {
    !s'.alive && s'.fate == Returned && s'.dispatched == s.dispatched
  }

  lemma AckTaken(s: Session, a: Frame)
    requires Receiver(s) && IsAck(a)
    ensures ProcessFrame(s, a) == s && a.kind != WINDOW_UPDATE
  {
    hide ApplySettings, ParseSettings, Ascii, HandleData, HandleHeaders;
  }

  lemma ResetTaken(s: Session, a: Frame)
    requires Receiver(s) && IsReset(a)
    ensures Undisturbed(s, ProcessFrame(s, a)) && ProcessFrame(s, a).connSend == s.connSend && a.kind != WINDOW_UPDATE
  {
    hide Ascii, HandleData, HandleHeaders;
  }

  lemma CreditTaken(s: Session, a: Frame)
    requires Receiver(s) && IsCredit(a) && s.connSend <= MAX_WINDOW_SIZE
    ensures var s', n := ProcessFrame(s, a), if a.sid == 0 then ParseWindowUpdate(a.payload) else 0;
            && (s.connSend + n <= MAX_WINDOW_SIZE ==> Undisturbed(s, s') && s'.connSend == s.connSend + n)
            && (s.connSend + n > MAX_WINDOW_SIZE ==> GivenUp(s, s'))
  {
    hide Ascii, HandleData, HandleHeaders, ParseWindowUpdate;
  }

  /**
    One reply: the connection's credit grows by what it announces, and the server dies exactly when that exceeds 2^31
    - 1.
   */
  lemma ReplyTaken(s: Session, a: Frame)
    requires Receiver(s) && IsReply(a) && s.connSend <= MAX_WINDOW_SIZE
    ensures var s', n := ProcessFrame(s, a), Announced([a], 0);
            && (s.connSend + n <= MAX_WINDOW_SIZE ==> Undisturbed(s, s') && s'.connSend == s.connSend + n)
            && (s.connSend + n > MAX_WINDOW_SIZE ==> GivenUp(s, s'))
  {
    hide ProcessFrame, ParseWindowUpdate;
    assert [a][1..] == [];
    assert Announced([a][1..], 0) == 0;
    if IsAck(a) {
      AckTaken(s, a);
    } else if IsReset(a) {
      ResetTaken(s, a);
    } else {
      CreditTaken(s, a);
    }
  }

  lemma {:induction false} RepliesTaken(s: Session, rs: seq<Frame>)
    requires Receiver(s) && AllReplies(rs) && s.connSend <= MAX_WINDOW_SIZE
    ensures var s', n := Run(s, rs), Announced(rs, 0);
            && (s.connSend + n <= MAX_WINDOW_SIZE ==> Undisturbed(s, s') && s'.connSend == s.connSend + n)
            && (s.connSend + n > MAX_WINDOW_SIZE ==> GivenUp(s, s'))
    decreases |rs|
  {
    hide ProcessFrame, IsReply;
    if |rs| > 0 {
      assert rs[0] in rs;
      var s1 := ProcessFrame(s, rs[0]);
      ReplyTaken(s, rs[0]);
      assert Announced(rs, 0) == Announced([rs[0]], 0) + Announced(rs[1..], 0) by {
        AnnouncedConcat([rs[0]], rs[1..], 0);
        assert [rs[0]] + rs[1..] == rs;
      }
      assert AllReplies(rs[1..]);
      if s1.alive {
        RepliesTaken(s1, rs[1..]);
      }
    }
  }

  // ---------------------------------------------------------------- requests bring no credit

  lemma {:induction false} SettingsKeepCredit(s: Session, xs: seq<Setting>)
    ensures ApplySettings(s, xs).connSend == s.connSend
    decreases |xs|
  {
    hide Resize, ShiftWindows, Ascii;
    if |xs| > 0 && s.alive {
      SettingsKeepCredit(ApplySetting(s, xs[0]), xs[1..]);
    }
  }

  lemma DataKeepsCredit(s: Session, f: Frame)
    ensures HandleData(s, f).connSend == s.connSend
  {
    hide EndOfStream, Unpadded, RefillFrames, Refill, Ascii, HasFlag;
    if f.sid in s.streams && Unpadded(f).Content? {
      var st, data := s.streams[f.sid], Unpadded(f).data;
      EndNeutral(CountData(WithStream(s, f.sid, st.(body := st.body + data)), f.sid, |data|), f.sid);
    }
  }

  lemma NeutralCredit(s: Session, s': Session)
    requires Neutral(s, s')
    ensures s'.connSend == s.connSend
  {
  }

  lemma SettingsFrameKeepsCredit(s: Session, f: Frame)
    ensures HandleSettings(s, f).connSend == s.connSend
  {
    hide ApplySettings, ParseSettings, Ascii, HasFlag;
    SettingsKeepCredit(s, ParseSettings(f.payload));
  }

  lemma FrameKeepsCredit(s: Session, f: Frame)
    requires f.kind != WINDOW_UPDATE
    ensures ProcessFrame(s, f).connSend == s.connSend
  {
    hide HandleData, HandleHeaders, HandleContinuation, HandleSettings, HandlePing, HandlePushPromise, Ascii, Neutral;
    DataKeepsCredit(s, f);
    HeadersNeutral(s, f);
    NeutralCredit(s, HandleHeaders(s, f));
    ContinuationNeutral(s, f);
    NeutralCredit(s, HandleContinuation(s, f));
    SettingsFrameKeepsCredit(s, f);
    PingNeutral(s, f);
    NeutralCredit(s, HandlePing(s, f));
    PushNeutral(s, f);
    NeutralCredit(s, HandlePushPromise(s, f));
  }

  lemma {:induction false} RunKeepsCredit(s: Session, fs: seq<Frame>)
    requires NoUpdates(fs)
    ensures Run(s, fs).connSend == s.connSend
    decreases |fs|
  {
    hide ProcessFrame;
    if |fs| > 0 && s.alive {
      assert fs[0] in fs;
      FrameKeepsCredit(s, fs[0]);
      RunKeepsCredit(ProcessFrame(s, fs[0]), fs[1..]);
    }
  }
}
