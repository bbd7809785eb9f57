/** Padding and priority (sections 6.1 and 6.2 of RFC 7540) change nothing a session does. */
module H2Padding {
  import opened Bytes
  import opened H2Frame
  import opened H2Session

  /** A DATA or HEADERS frame with padding: its length in front and the filler behind. */
  function Padded(f: Frame, filler: seq<byte>): Frame
    requires f.flags + 8 < 256 && |filler| < 256
  {
    Frame(f.kind, f.flags + 8, f.sid, [|filler|] + f.payload + filler)
  }

  /** A HEADERS frame with a priority. */
  function Prioritized(f: Frame, priority: seq<byte>): Frame
    requires f.flags + 32 < 256
  {
    Frame(f.kind, f.flags + 32, f.sid, priority + f.payload)
  }

  lemma OtherBits(flags: nat, x: nat)
    requires x in {8, 32} && flags / x % 2 == 0 && flags < 256
    ensures flags + x < 256 && (flags + x) / x % 2 == 1
    ensures (flags + x) / 1 % 2 == flags / 1 % 2 && (flags + x) / 4 % 2 == flags / 4 % 2
    ensures (flags + x) / 8 % 2 == if x == 8 then 1 else flags / 8 % 2
    ensures (flags + x) / 32 % 2 == if x == 32 then 1 else flags / 32 % 2
  {
    var q, r := flags / x, flags % x;
    assert (flags + x) / x == q + 1;
    if x == 8 {
      assert flags == 8 * q + r;
      assert q % 2 == 0;
      assert flags / 32 == q / 4 && (flags + 8) / 32 == (q + 1) / 4;
    } else {
      assert (flags + 32) / 8 == flags / 8 + 4;
    }
  }

  lemma PaddedContent(f: Frame, filler: seq<byte>)
    requires !HasFlag(f, PADDED) && f.flags + 8 < 256 && |filler| < 256
    ensures Unpadded(Padded(f, filler)) == Content(f.payload) && Unpadded(f) == Content(f.payload)
    ensures Fragment(Padded(f, filler)) == Fragment(f)
  {
    OtherBits(f.flags, 8);
    var p := Padded(f, filler).payload;
    assert p[1..|p| - |filler|] == f.payload;
  }

  lemma PriorityContent(f: Frame, priority: seq<byte>)
    requires !HasFlag(f, PADDED) && !HasFlag(f, WITH_PRIORITY) && f.flags + 32 < 256 && |priority| == 5
    ensures Fragment(Prioritized(f, priority)) == Fragment(f) == Content(f.payload)
  {
    OtherBits(f.flags, 32);
    assert (priority + f.payload)[5..] == f.payload;
  }

  lemma SameHeaders(s: Session, f: Frame, g: Frame)
    requires g.sid == f.sid && Fragment(g) == Fragment(f)
    requires HasFlag(g, END_STREAM) == HasFlag(f, END_STREAM) && HasFlag(g, END_HEADERS) == HasFlag(f, END_HEADERS)
    ensures HandleHeaders(s, g) == HandleHeaders(s, f)
  {
    hide ApplyBlock, Fragment, HasFlag, FreshStream, Goaway;
  }

  lemma SameData(s: Session, f: Frame, g: Frame)
    requires g.sid == f.sid && Unpadded(g) == Unpadded(f) && HasFlag(g, END_STREAM) == HasFlag(f, END_STREAM)
    ensures HandleData(s, g) == HandleData(s, f)
  {
    hide EndOfStream, CountData, Unpadded, HasFlag, Goaway;
  }

  /** A session that receives a padded frame is the session that receives the frame without its padding. */
  lemma PaddingIrrelevant(s: Session, f: Frame, filler: seq<byte>)
    requires f.kind in {DATA, HEADERS} && !HasFlag(f, PADDED) && |filler| < 256
    ensures f.flags + 8 < 256 && ProcessFrame(s, Padded(f, filler)) == ProcessFrame(s, f)
  {
    hide HandleData, HandleHeaders, HandleContinuation, Fragment, Unpadded, Goaway;
    OtherBits(f.flags, 8);
    PaddedContent(f, filler);
    SameHeaders(s, f, Padded(f, filler));
    SameData(s, f, Padded(f, filler));
  }

  /** The same for a priority of any value. */
  lemma PriorityIrrelevant(s: Session, f: Frame, priority: seq<byte>)
    requires f.kind == HEADERS && !HasFlag(f, PADDED) && !HasFlag(f, WITH_PRIORITY) && |priority| == 5
    ensures f.flags + 32 < 256 && ProcessFrame(s, Prioritized(f, priority)) == ProcessFrame(s, f)
  {
    hide HandleData, HandleHeaders, HandleContinuation, Fragment, Unpadded, Goaway;
    OtherBits(f.flags, 32);
    PriorityContent(f, priority);
    SameHeaders(s, f, Prioritized(f, priority));
  }

  /** With both, the padding is around the priority. */
  lemma BothIrrelevant(s: Session, f: Frame, priority: seq<byte>, filler: seq<byte>)
    requires f.kind == HEADERS && !HasFlag(f, PADDED) && !HasFlag(f, WITH_PRIORITY) && |priority| == 5 && |filler| < 256
    ensures f.flags + 40 < 256
            && ProcessFrame(s, Padded(Prioritized(f, priority), filler)) == ProcessFrame(s, f)
  {
    hide ProcessFrame;
    OtherBits(f.flags, 32);
    PriorityIrrelevant(s, f, priority);
    PaddingIrrelevant(s, Prioritized(f, priority), filler);
  }
}
