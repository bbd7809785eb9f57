/**
  The terms a session speaks on are the ones its peer has set (section 6.5 of RFC 7540): over every run they are told by
  the SETTINGS frames received, and every frame sent keeps to them.
 */
module H2Terms {
  import opened Bytes
  import opened DynamicTable
  import opened H2Frame
  import opened HttpTypes
  import opened Hpack
  import opened H2Session
  import opened H2Books
  import opened H2Writer

  // ---------------------------------------------------------------- what the peer has said

  /** Values that section 6.5.2 forbids for SETTINGS_INITIAL_WINDOW_SIZE and SETTINGS_MAX_FRAME_SIZE. */
  predicate Forbidden(x: Setting) {
    || (x.id == 0x4 && x.value > 0x7FFF_FFFF)
    || (x.id == 0x5 && !(0x4000 <= x.value <= 0xFF_FFFF))
  }

  /** The settings of a frame up to the first forbidden one. */
  function Accepted(xs: seq<Setting>): seq<Setting> {
    if |xs| == 0 || Forbidden(xs[0]) then [] else [xs[0]] + Accepted(xs[1..])
  }

  /** A SETTINGS frame that is not out of place, malformed or an acknowledgement. */
  predicate Heeded(s: Session, e: Event) {
    && e.Arrive? && s.alive && s.contSid == 0
    && e.f.kind == 0x4 && e.f.sid == 0 && e.f.flags % 2 == 0 && |e.f.payload| % 6 == 0
  }

  /** The settings an event makes known. */
  function Told(s: Session, e: Event): seq<Setting> {
    if Heeded(s, e) then Accepted(ParseSettings(e.f.payload)) else []
  }

  function ToldBy(s: Session, es: seq<Event>): seq<Setting> {
    if |es| == 0 then []
    else ToldBy(s, es[..|es| - 1]) + Told(Reach(s, es[..|es| - 1]), es[|es| - 1])
  }

  /** The last value told for an id, or the initial one. */
  function LastTold(xs: seq<Setting>, id: nat, initial: nat): nat {
    if |xs| == 0 then initial
    else if xs[|xs| - 1].id == id then xs[|xs| - 1].value
    else LastTold(xs[..|xs| - 1], id, initial)
  }

  /** The identifiers and initial values of section 6.5.2. */
  function Agreed(xs: seq<Setting>): Terms {
    Terms(LastTold(xs, 0x5, 16384), LastTold(xs, 0x2, 1) != 0, LastTold(xs, 0x1, 4096), LastTold(xs, 0x1, 4096),
          LastTold(xs, 0x4, 65535))
  }

  // ---------------------------------------------------------------- one frame

  lemma ToldOne(xs: seq<Setting>, x: Setting)
    ensures Agreed(xs + [x]) == Terms(
              if x.id == 0x5 then x.value else Agreed(xs).frame,
              if x.id == 0x2 then x.value != 0 else Agreed(xs).push,
              if x.id == 0x1 then x.value else Agreed(xs).table,
              if x.id == 0x1 then x.value else Agreed(xs).held,
              if x.id == 0x4 then x.value else Agreed(xs).initial)
  {
    assert (xs + [x])[..|xs|] == xs;
  }

  lemma SettingChanges(s: Session, x: Setting, xs: seq<Setting>)
    requires s.alive && TermsOf(s) == Agreed(xs)
    ensures ApplySetting(s, x).alive <==> !Forbidden(x)
    ensures TermsOf(ApplySetting(s, x)) == if Forbidden(x) then Agreed(xs) else Agreed(xs + [x])
  {
    hide Agreed, Ascii, ShiftWindows, Kept;
    ToldOne(xs, x);
  }

  lemma {:induction false} SettingsChange(s: Session, ys: seq<Setting>, xs: seq<Setting>)
    requires s.alive && TermsOf(s) == Agreed(xs)
    ensures ApplySettings(s, ys).alive <==> Accepted(ys) == ys
    ensures TermsOf(ApplySettings(s, ys)) == Agreed(xs + Accepted(ys))
    decreases |ys|
  {
    hide ApplySetting, Agreed, Forbidden, TermsOf;
    if |ys| == 0 {
      assert xs + [] == xs;
    } else {
      SettingChanges(s, ys[0], xs);
      var s1 := ApplySetting(s, ys[0]);
      if Forbidden(ys[0]) {
        assert xs + [] == xs;
        assert ApplySettings(s1, ys[1..]) == s1;
      } else {
        SettingsChange(s1, ys[1..], xs + [ys[0]]);
        assert xs + [ys[0]] + Accepted(ys[1..]) == xs + ([ys[0]] + Accepted(ys[1..]));
        assert [ys[0]] + ys[1..] == ys;
        AcceptedPart(ys[1..]);
      }
    }
  }

  lemma {:induction false} AcceptedPart(ys: seq<Setting>)
    ensures Accepted(ys) <= ys && forall x :: x in Accepted(ys) ==> !Forbidden(x)
  {
    if |ys| > 0 && !Forbidden(ys[0]) {
      AcceptedPart(ys[1..]);
    }
  }

  /** A SETTINGS frame ends the session if and only if it is out of place, malformed or has a forbidden setting. */
  lemma FrameChanges(s: Session, f: Frame, xs: seq<Setting>)
    requires s.alive && Settles(s, f) && TermsOf(s) == Agreed(xs)
    ensures TermsOf(ProcessFrame(s, f)) == Agreed(xs + Told(s, Arrive(f)))
    ensures Heeded(s, Arrive(f)) ==>
              (ProcessFrame(s, f).alive <==> Accepted(ParseSettings(f.payload)) == ParseSettings(f.payload))
    ensures !Heeded(s, Arrive(f)) ==> (ProcessFrame(s, f).alive <==> f.sid == 0 && f.flags % 2 == 1)
  {
    hide ApplySettings, ParseSettings, Agreed, Accepted, Ascii;
    assert xs + [] == xs;
    SettingsChange(s, ParseSettings(f.payload), xs);
  }

  // ---------------------------------------------------------------- whole runs

  lemma StepChanges(s: Session, e: Event, xs: seq<Setting>)
    requires TermsOf(s) == Agreed(xs)
    ensures TermsOf(Step(s, e)) == Agreed(xs + Told(s, e))
  {
    hide ProcessFrame, SubmitRequest, SubmitResponse, SubmitResponseHeaders, SubmitData, SubmitTrailers, TermsOf,
      Agreed, Accepted, ParseSettings;
    assert xs + [] == xs;
    if e.Arrive? && s.alive && Settles(s, e.f) {
      FrameChanges(s, e.f, xs);
    } else if !(e.Arrive? && !s.alive) {
      EventAdds(s, e);
    }
  }

  lemma {:induction false} TermsAreTold(mode: Mode, tb: Tables, handler: Request -> Response, es: seq<Event>)
    ensures var s0 := NewSession(mode, tb, handler); TermsOf(Reach(s0, es)) == Agreed(ToldBy(s0, es))
  {
    hide Step, Told, Agreed, TermsOf;
    var s0 := NewSession(mode, tb, handler);
    if |es| == 0 {
      FirstTerms(mode, tb, handler);
      assert es == [];
    } else {
      TermsAreTold(mode, tb, handler, es[..|es| - 1]);
      StepChanges(Reach(s0, es[..|es| - 1]), es[|es| - 1], ToldBy(s0, es[..|es| - 1]));
    }
  }

  lemma FirstTerms(mode: Mode, tb: Tables, handler: Request -> Response)
    ensures TermsOf(NewSession(mode, tb, handler)) == Agreed([])
  {
  }

  lemma {:induction false} NothingForbidden(s: Session, es: seq<Event>)
    ensures forall x :: x in ToldBy(s, es) ==> !Forbidden(x)
  {
    hide Step, Accepted, Forbidden;
    if |es| > 0 {
      NothingForbidden(s, es[..|es| - 1]);
      var last := Reach(s, es[..|es| - 1]);
      if Heeded(last, es[|es| - 1]) {
        AcceptedPart(ParseSettings(es[|es| - 1].f.payload));
      }
    }
  }

  lemma {:induction false} LastInRange(xs: seq<Setting>)
    requires forall x :: x in xs ==> !Forbidden(x)
    ensures 16384 <= LastTold(xs, 0x5, 16384) <= 16777215 && LastTold(xs, 0x4, 65535) <= 0x7FFF_FFFF
  {
    if |xs| > 0 {
      assert xs[|xs| - 1] in xs;
      LastInRange(xs[..|xs| - 1]);
    }
  }

  /**
    Over every run the frame limit, the push permission, the encoder's table limit and the initial window are the last
    ones the peer has set, and whatever happens next, every frame that is sent fits that frame limit.
   */
  lemma SpeaksOnTerms(mode: Mode, tb: Tables, handler: Request -> Response, es: seq<Event>, e: Event)
    ensures var s0 := NewSession(mode, tb, handler);
            var s, told := Reach(s0, es), ToldBy(s0, es);
            && s.peerMaxFrame == LastTold(told, 0x5, 16384) && 16384 <= LastTold(told, 0x5, 16384) <= 16777215
            && (s.enablePush <==> LastTold(told, 0x2, 1) != 0)
            && s.encoder.max == s.encoder.dyn.max == LastTold(told, 0x1, 4096)
            && s.peerInitial == LastTold(told, 0x4, 65535) <= 0x7FFF_FFFF
            && (forall f :: f in NewFrames(s, Step(s, e)) ==> |f.payload| <= LastTold(told, 0x5, 16384))
  {
    hide Reach, ToldBy, Step, NewFrames, Forbidden;
    var s0 := NewSession(mode, tb, handler);
    TermsAreTold(mode, tb, handler, es);
    NothingForbidden(s0, es);
    LastInRange(ToldBy(s0, es));
    EventAdds(Reach(s0, es), e);
  }
}
