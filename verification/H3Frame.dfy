/**
  The HTTP/3 frame layer of src/http/h3_frame.hpp (section 7.1 of RFC 9114) and the stream loop that drives its
  reader.
 */
module H3Frame {
  import opened Bytes
  import Varint

  const DATA := 0x00
  const HEADERS := 0x01

  datatype Frame = Frame(kind: nat, payload: seq<byte>)

  /** Types and lengths a variable-length integer can carry. */
  ghost predicate Fits(f: Frame) {
    f.kind < Varint.VARINT_LIMIT && |f.payload| < Varint.VARINT_LIMIT
  }

  function Build(f: Frame): seq<byte> {
    Varint.Encode(f.kind) + Varint.Encode(|f.payload|) + f.payload
  }

  function Serialize(fs: seq<Frame>): seq<byte> {
    if |fs| == 0 then [] else Build(fs[0]) + Serialize(fs[1..])
  }

  // ---------------------------------------------------------------- one-shot parse

  datatype Header = Header(kind: nat, length: nat, size: nat)

  function HeaderOf(s: seq<byte>): (r: Option<Header>)
    ensures r.Some? ==> 2 <= r.value.size <= |s|
  {
    match Varint.Decode(s)
    case None => None
    case Some(kind) =>
      match Varint.Decode(s[kind.consumed..])
      case None => None
      case Some(length) => Some(Header(kind.value, length.value, kind.consumed + length.consumed))
  }

  /**
    Can a frame be reported? Its bytes must be there; a frame without payload is
    reported late, only once a further byte has arrived.
   */
  predicate Ready(s: seq<byte>) {
    var h := HeaderOf(s);
    h.Some? && |s| >= h.value.size + h.value.length && (h.value.length == 0 ==> |s| > h.value.size)
  }

  function End(s: seq<byte>): (r: nat)
    requires Ready(s)
    ensures 2 <= r <= |s|
  {
    HeaderOf(s).value.size + HeaderOf(s).value.length
  }

  function FirstFrame(s: seq<byte>): Frame
    requires Ready(s)
  {
    Frame(HeaderOf(s).value.kind, s[HeaderOf(s).value.size..End(s)])
  }

  datatype Parsed = Parsed(frames: seq<Frame>, rest: seq<byte>)

  function Parse(s: seq<byte>): (r: Parsed)
    ensures |r.rest| <= |s|
    decreases |s|
  {
    if !Ready(s) then Parsed([], s)
    else
      var tail := Parse(s[End(s)..]);
      Parsed([FirstFrame(s)] + tail.frames, tail.rest)
  }

  lemma HeaderPrefix(a: seq<byte>, b: seq<byte>)
    requires HeaderOf(a).Some?
    ensures HeaderOf(a + b) == HeaderOf(a)
  {
    hide Varint.Decode;
    var k := Varint.Decode(a).value.consumed;
    Varint.Prefix(a, b);
    Varint.Prefix(a[k..], b);
    assert (a + b)[k..] == a[k..] + b;
  }

  lemma ReadyPrefix(a: seq<byte>, b: seq<byte>)
    requires Ready(a)
    ensures Ready(a + b) && End(a + b) == End(a) && FirstFrame(a + b) == FirstFrame(a)
    ensures (a + b)[End(a)..] == a[End(a)..] + b
  {
    hide HeaderOf;
    HeaderPrefix(a, b);
    var h := HeaderOf(a).value;
    assert (a + b)[h.size..End(a)] == a[h.size..End(a)];
  }

  /** Parsing in two pieces, carrying the remainder over, is parsing the whole. */
  lemma {:induction false} ParseAppend(a: seq<byte>, b: seq<byte>)
    ensures var p, q, w := Parse(a), Parse(Parse(a).rest + b), Parse(a + b);
            w.frames == p.frames + q.frames && w.rest == q.rest
    decreases |a|
  {
    hide FirstFrame, Ready;
    if Ready(a) {
      ReadyPrefix(a, b);
      ParseAppend(a[End(a)..], b);
    }
  }

  lemma {:induction false} RestIsPartial(s: seq<byte>)
    ensures !Ready(Parse(s).rest)
    decreases |s|
  {
    hide Ready;
    if Ready(s) {
      RestIsPartial(s[End(s)..]);
    }
  }

  lemma BuildHeader(f: Frame, s: seq<byte>)
    requires Fits(f)
    ensures HeaderOf(Build(f) + s) == Some(Header(f.kind, |f.payload|, |Build(f)| - |f.payload|))
  {
    hide Varint.Decode, Varint.Encode;
    var k, n := Varint.Encode(f.kind), Varint.Encode(|f.payload|);
    var w := Build(f) + s;
    assert w == k + (n + (f.payload + s));
    Varint.RoundTrip(f.kind, n + (f.payload + s));
    assert w[|k|..] == n + (f.payload + s);
    Varint.RoundTrip(|f.payload|, f.payload + s);
  }

  /** A built frame is read back at once, unless it is empty and nothing follows. */
  lemma BuildLayout(f: Frame, s: seq<byte>)
    requires Fits(f)
    ensures Ready(Build(f) + s) <==> f.payload != [] || s != []
    ensures Ready(Build(f) + s) ==>
              End(Build(f) + s) == |Build(f)| && FirstFrame(Build(f) + s) == f && (Build(f) + s)[|Build(f)|..] == s
  {
    hide HeaderOf, Varint.Encode;
    BuildHeader(f, s);
    var w := Build(f) + s;
    assert w[|Build(f)| - |f.payload|..|Build(f)|] == f.payload;
  }

  lemma {:induction false} SerializeNonEmpty(fs: seq<Frame>)
    requires |fs| > 0 && Fits(fs[0])
    ensures Serialize(fs) != []
  {
    hide Varint.Decode, Varint.Encode;
    Varint.RoundTrip(fs[0].kind, []);
    assert |Varint.Encode(fs[0].kind)| > 0;
  }

  /**
    A stream of built frames parses to those frames; only an empty last frame is still pending.
   */
  lemma {:induction false} SerializeParse(fs: seq<Frame>)
    requires forall f :: f in fs ==> Fits(f)
    ensures |fs| == 0 || fs[|fs| - 1].payload != [] ==> Parse(Serialize(fs)) == Parsed(fs, [])
    ensures |fs| > 0 && fs[|fs| - 1].payload == [] ==>
              Parse(Serialize(fs)) == Parsed(fs[..|fs| - 1], Build(fs[|fs| - 1]))
    decreases |fs|
  {
    hide Build, FirstFrame, Ready, HeaderOf;
    if |fs| == 0 {
      assert Parse([]) == Parsed([], []) by { EmptyIsPartial(); }
    } else {
      assert fs[0] in fs;
      var tail := Serialize(fs[1..]);
      BuildLayout(fs[0], tail);
      SerializeParse(fs[1..]);
      if |fs| == 1 {
        assert tail == [] && Serialize(fs) == Build(fs[0]) + tail == Build(fs[0]);
        assert Parse([]) == Parsed([], []) by { EmptyIsPartial(); }
        assert fs == [fs[0]];
      } else {
        SerializeNonEmpty(fs[1..]);
        assert [fs[0]] + fs[1..] == fs;
        assert [fs[0]] + fs[1..][..|fs| - 2] == fs[..|fs| - 1];
      }
    }
  }

  lemma EmptyIsPartial()
    ensures !Ready([])
  {
  }

  // ---------------------------------------------------------------- any chunking

  /** What a stream's reader has reported and what it still holds. */
  datatype Inbox = Inbox(reported: seq<Frame>, pending: seq<byte>)

  function FeedChunk(i: Inbox, chunk: seq<byte>): Inbox {
    var p := Parse(i.pending + chunk);
    Inbox(i.reported + p.frames, p.rest)
  }

  function FeedAll(i: Inbox, chunks: seq<seq<byte>>): Inbox
    decreases |chunks|
  {
    if |chunks| == 0 then i else FeedAll(FeedChunk(i, chunks[0]), chunks[1..])
  }

  function Concat(chunks: seq<seq<byte>>): seq<byte> {
    if |chunks| == 0 then [] else chunks[0] + Concat(chunks[1..])
  }

  lemma NothingNew(i: Inbox)
    requires !Ready(i.pending)
    ensures FeedChunk(i, []) == i
  {
    hide Ready;
    assert i.pending + [] == i.pending;
  }

  /** Two chunks in a row are one longer chunk. */
  lemma FeedTwice(i: Inbox, a: seq<byte>, b: seq<byte>)
    ensures FeedChunk(FeedChunk(i, a), b) == FeedChunk(i, a + b)
  {
    hide Parse;
    ParseAppend(i.pending + a, b);
    assert i.pending + a + b == i.pending + (a + b);
    var p, q := Parse(i.pending + a), Parse(Parse(i.pending + a).rest + b);
    assert i.reported + p.frames + q.frames == i.reported + (p.frames + q.frames);
  }

  /** The frames reported depend only on the bytes, not on how they were cut. */
  lemma {:induction false} ChunkingIrrelevant(i: Inbox, chunks: seq<seq<byte>>)
    requires !Ready(i.pending)
    ensures FeedAll(i, chunks) == FeedChunk(i, Concat(chunks))
    decreases |chunks|
  {
    hide Ready, FeedChunk;
    if |chunks| == 0 {
      NothingNew(i);
    } else {
      assert !Ready(FeedChunk(i, chunks[0]).pending) by { PartialAfter(i, chunks[0]); }
      ChunkingIrrelevant(FeedChunk(i, chunks[0]), chunks[1..]);
      FeedTwice(i, chunks[0], Concat(chunks[1..]));
    }
  }

  lemma PartialAfter(i: Inbox, chunk: seq<byte>)
    ensures !Ready(FeedChunk(i, chunk).pending)
  {
    hide Ready, Parse;
    RestIsPartial(i.pending + chunk);
  }

  // ---------------------------------------------------------------- the incremental reader

  datatype ReadState = ReadType | ReadLength | ReadPayload | Complete

  class FrameReader {
    var state: ReadState
    var currentType: nat
    var currentLength: nat
    var payloadBuf: seq<byte>
    var varintComplete: bool
    var varintVal: nat
    const varintBuf: array<byte>
    var varintBufLen: nat
    var varintExpected: nat
    ghost var seen: seq<byte>       // the bytes consumed of the current frame
    ghost var typeSize: nat         // how many of them are the type

    /** A partly read integer: the bytes so far and how many it needs. */
    ghost predicate PartialVarint(bytes: seq<byte>)
      reads this, varintBuf
    {
      && varintBuf.Length == 8 && !varintComplete
      && (varintExpected == 0 ==> bytes == [])
      && (varintExpected > 0 ==>
            0 < varintBufLen < varintExpected <= 8 && varintBuf[..varintBufLen] == bytes
            && varintExpected == Varint.SizeOf(bytes[0]))
    }

    ghost predicate Valid()
      reads this, varintBuf
    {
      match state
      case ReadType => PartialVarint(seen)
      case ReadLength =>
        typeSize <= |seen| && Varint.Decode(seen[..typeSize]) == Some(Varint.Read(currentType, typeSize))
        && PartialVarint(seen[typeSize..])
      case _ =>
        && PartialVarint([]) && HeaderOf(seen).Some? && HeaderOf(seen).value.kind == currentType
        && HeaderOf(seen).value.length == currentLength && payloadBuf == seen[HeaderOf(seen).value.size..]
        && (if state.Complete? then |payloadBuf| == currentLength else |payloadBuf| < currentLength || payloadBuf == [])
    }

    constructor ()
      ensures Valid() && seen == [] && state.ReadType? && fresh(varintBuf)
    {
      state, currentType, currentLength, payloadBuf := ReadType, DATA, 0, [];
      varintComplete, varintVal, varintBufLen, varintExpected := false, 0, 0, 0;
      varintBuf := new byte[8];
      seen, typeSize := [], 0;
    }

    predicate HasFrame()
      reads this
    {
      state.Complete?
    }

    /** feed_varint: take as many bytes as the integer still needs. */
    method FeedVarint(data: seq<byte>, ghost bytes: seq<byte>) returns (n: nat)
      requires data != [] && PartialVarint(bytes)
      modifies this`varintComplete, this`varintVal, this`varintBufLen, this`varintExpected, varintBuf
      ensures 0 < n <= |data|
      ensures varintComplete ==>
                varintExpected == 0 && Varint.Decode(bytes + data[..n]) == Some(Varint.Read(varintVal, |bytes| + n))
      ensures !varintComplete ==> n == |data| && PartialVarint(bytes + data)
    {
      if varintExpected == 0 {
        varintExpected := Varint.SizeOf(data[0]);
        varintBufLen := 0;
      }
      ghost var whole := bytes + data;
      assert varintExpected == Varint.SizeOf(whole[0]) && varintBufLen == |bytes|;
      var needed := varintExpected - varintBufLen;
      n := Min(needed, |data|);
      CopyIn(data[..n], bytes);
      varintBufLen := varintBufLen + n;
      assert varintBuf[..varintBufLen] == bytes + data[..n];
      if varintBufLen == varintExpected {
        var val := Varint.Decode(varintBuf[..varintBufLen]);
        varintVal := val.value.value;
        varintComplete := true;
        varintExpected := 0;
        varintBufLen := 0;
      } else {
        assert data[..n] == data;
      }
    }

    /** The memcpy behind the bytes already held. */
    method CopyIn(piece: seq<byte>, ghost held: seq<byte>)
      requires varintBuf.Length == 8 && |held| == varintBufLen && varintBufLen + |piece| <= 8
               && varintBuf[..varintBufLen] == held
      modifies varintBuf
      ensures varintBuf[..varintBufLen + |piece|] == held + piece
    {
      for i := 0 to |piece|
        invariant varintBuf[..varintBufLen + i] == held + piece[..i]
      {
        varintBuf[varintBufLen + i] := piece[i];
        assert varintBuf[..varintBufLen + i + 1] == varintBuf[..varintBufLen + i] + [piece[i]];
        assert piece[..i + 1] == piece[..i] + [piece[i]];
      }
      assert piece[..|piece|] == piece;
    }

    method TypeStep(data: seq<byte>) returns (n: nat)
      requires Valid() && state.ReadType? && data != []
      modifies this, varintBuf
      ensures Valid() && 0 < n <= |data| && seen == old(seen) + data[..n]
      ensures state.ReadType? || state.ReadLength?
    {
      n := FeedVarint(data, seen);
      seen := seen + data[..n];
      if varintComplete {
        typeSize := |seen|;
        assert seen[..typeSize] == seen && seen[typeSize..] == [];
        currentType := varintVal;
        varintComplete := false;
        state := ReadLength;
      } else {
        assert data[..n] == data;
      }
    }

    method LengthStep(data: seq<byte>) returns (n: nat)
      requires Valid() && state.ReadLength? && data != []
      modifies this, varintBuf
      ensures Valid() && 0 < n <= |data| && seen == old(seen) + data[..n]
      ensures state.ReadLength? || state.ReadPayload?
    {
      hide Varint.Decode;
      ghost var before, t := seen, typeSize;
      n := FeedVarint(data, seen[typeSize..]);
      seen := seen + data[..n];
      assert seen[..t] == before[..t] && seen[t..] == before[t..] + data[..n];
      if varintComplete {
        Varint.Prefix(seen[..t], seen[t..]);
        assert seen[..t] + seen[t..] == seen;
        currentLength := varintVal;
        varintComplete := false;
        payloadBuf := [];
        state := ReadPayload;
      } else {
        assert data[..n] == data;
      }
    }

    method PayloadStep(data: seq<byte>) returns (n: nat)
      requires Valid() && state.ReadPayload? && data != []
      modifies this
      ensures Valid() && n <= |data| && seen == old(seen) + data[..n]
      ensures state.ReadPayload? || state.Complete?
      ensures n == 0 ==> state.Complete?
      ensures state.Complete? && currentLength == 0 ==> n == 0
      ensures state.ReadPayload? ==> n == |data|
    {
      hide HeaderOf;
      var remaining := currentLength - |payloadBuf|;
      n := Min(remaining, |data|);
      HeaderPrefix(seen, data[..n]);
      seen := seen + data[..n];
      payloadBuf := payloadBuf + data[..n];
      if |payloadBuf| == currentLength {
        state := Complete;
      }
    }

    /** What an unfinished frame has consumed is never a reportable frame. */
    lemma Unfinished()
      requires Valid() && !HasFrame()
      ensures !Ready(seen)
    {
      hide Varint.Decode;
      if state.ReadLength? {
        Varint.Prefix(seen[..typeSize], seen[typeSize..]);
        assert seen[..typeSize] + seen[typeSize..] == seen;
      }
    }

    /** A finished one is reportable once the bytes behind it are there. */
    lemma Finished(behind: seq<byte>)
      requires Valid() && HasFrame() && (currentLength == 0 ==> behind != [])
      ensures Ready(seen + behind) && End(seen + behind) == |seen|
              && FirstFrame(seen + behind) == Frame(currentType, payloadBuf)
      ensures (seen + behind)[|seen|..] == behind
    {
      hide HeaderOf;
      HeaderPrefix(seen, behind);
      assert (seen + behind)[HeaderOf(seen).value.size..|seen|] == payloadBuf;
    }

    /** Reads bytes of one frame; stops short only when that frame is complete. */
    method Feed(data: seq<byte>) returns (consumed: nat)
      requires Valid()
      modifies this, varintBuf
      ensures Valid() && consumed <= |data| && seen == old(seen) + data[..consumed]
      ensures old(HasFrame()) ==> consumed == 0 && unchanged(this)
      ensures !HasFrame() ==> consumed == |data|
      ensures HasFrame() && !old(HasFrame()) ==> (currentLength == 0 ==> consumed < |data|)
    {
      hide Valid;
      consumed := 0;
      while consumed < |data|
        invariant Valid() && consumed <= |data| && seen == old(seen) + data[..consumed]
        invariant old(HasFrame()) ==> consumed == 0 && unchanged(this)
        invariant HasFrame() && !old(HasFrame()) ==> (currentLength == 0 ==> consumed < |data|)
        decreases |data| - consumed, if HasFrame() then 0 else 1
      {
        var n := 0;
        match state {
          case ReadType => n := TypeStep(data[consumed..]);
          case ReadLength => n := LengthStep(data[consumed..]);
          case ReadPayload => n := PayloadStep(data[consumed..]);
          case Complete => return;
        }
        assert data[..consumed] + data[consumed..][..n] == data[..consumed + n];
        consumed := consumed + n;
      }
    }

    method TakeFrame() returns (f: Frame)
      requires Valid() && HasFrame()
      modifies this
      ensures Valid() && !HasFrame() && seen == []
      ensures f == Frame(old(currentType), old(payloadBuf))
    {
      state := ReadType;
      varintComplete := false;
      f := Frame(currentType, payloadBuf);
      payloadBuf := [];
      seen := [];
    }
  }

  lemma ParseStep(s: seq<byte>)
    ensures Ready(s) ==> Parse(s) == Parsed([FirstFrame(s)] + Parse(s[End(s)..]).frames, Parse(s[End(s)..]).rest)
    ensures !Ready(s) ==> Parse(s) == Parsed([], s)
  {
    hide Ready, FirstFrame;
  }

  /** The take-and-refeed loop of http3_session: everything is consumed and exactly the one-shot frames come out. */
  method OnStreamData(reader: FrameReader, data: seq<byte>) returns (frames: seq<Frame>, fed: nat)
    requires reader.Valid() && !reader.HasFrame()
    modifies reader, reader.varintBuf
    ensures reader.Valid() && !reader.HasFrame() && fed == |data|
    ensures frames == Parse(old(reader.seen) + data).frames && reader.seen == Parse(old(reader.seen) + data).rest
  {
    hide Ready, FirstFrame, Parse, FrameReader.Valid;
    frames := [];
    ghost var whole := reader.seen + data;
    fed := reader.Feed(data);
    assert reader.seen + data[fed..] == whole;
    while reader.HasFrame()
      invariant reader.Valid() && 0 <= fed <= |data|
      invariant reader.HasFrame() ==> (reader.currentLength == 0 ==> fed < |data|)
      invariant !reader.HasFrame() ==> fed == |data|
      invariant Parse(whole).frames == frames + Parse(reader.seen + data[fed..]).frames
      invariant Parse(whole).rest == Parse(reader.seen + data[fed..]).rest
      decreases |reader.seen| + |data| - fed
    {
      var behind := data[fed..];
      reader.Finished(behind);
      ParseStep(reader.seen + behind);
      var f := reader.TakeFrame();
      assert frames + ([f] + Parse(behind).frames) == frames + [f] + Parse(behind).frames;
      frames := frames + [f];
      var n := reader.Feed(behind);
      assert reader.seen + behind[n..] == behind;
      fed := fed + n;
      assert data[fed..] == behind[n..];
    }
    reader.Unfinished();
    ParseStep(reader.seen);
    assert reader.seen + data[fed..] == reader.seen;
  }

  /** A stream's data events one after another, on the reader object. */
  method ReadStream(reader: FrameReader, chunks: seq<seq<byte>>) returns (reported: seq<Frame>)
    requires reader.Valid() && !reader.HasFrame()
    modifies reader, reader.varintBuf
    ensures reader.Valid() && !reader.HasFrame()
    ensures Inbox(reported, reader.seen) == FeedAll(Inbox([], old(reader.seen)), chunks)
  {
    hide Parse, FrameReader.Valid;
    reported := [];
    assert chunks[0..] == chunks;
    for k := 0 to |chunks|
      invariant reader.Valid() && !reader.HasFrame()
      invariant FeedAll(Inbox(reported, reader.seen), chunks[k..]) == FeedAll(Inbox([], old(reader.seen)), chunks)
    {
      assert chunks[k..][1..] == chunks[k + 1..];
      var frames, _ := OnStreamData(reader, chunks[k]);
      reported := reported + frames;
    }
  }
}
