/**
  The gRPC message framing of src/grpc/grpc_wire.cpp and the deframer of include/async_net/grpc/stream_deframer.hpp. The
  sum of the prefix and the length is 32-bit, so the five largest lengths wrap.
 */
module GrpcWire {
  import opened Bytes
  import opened H2Frame
  import opened H2Splitting

  type Message = seq<byte>

  // ---------------------------------------------------------------- one message

  /** PastEnd stands for reading beyond the data, which happens when the sum wraps. */
  datatype Decoded = TooShort | PastEnd | Decoded(m: Message)

  /** The size of the framed message at the start of the data, in 32 bits. */
  function Need(data: seq<byte>): (r: nat)
    requires |data| >= 5
  {
    (5 + From32(data[1..])) % WORD32
  }

  /** The compression flag is not looked at. */
  function Decode(data: seq<byte>): Decoded {
    if |data| < 5 || Need(data) > |data| then TooShort
    else if 5 + From32(data[1..]) > |data| then PastEnd
    else Decoded(data[5..5 + From32(data[1..])])
  }

  // ---------------------------------------------------------------- a stream of messages

  /** What a call of feed extracts, what it leaves in the buffer, and whether it never returns. */
  datatype Drained = Drained(messages: seq<Message>, rest: seq<byte>, hangs: bool)

  /** A message of no bytes at all is taken from the buffer for ever. */
  function Drain(buf: seq<byte>): (r: Drained)
    ensures |r.rest| <= |buf|
    decreases |buf|
  {
    if |buf| < 5 || |buf| < Need(buf) then Drained([], buf, false)
    else if Need(buf) == 0 then Drained([], buf, true)
    else
      var d := Drain(buf[Need(buf)..]);
      match Decode(buf[..Need(buf)])
      case Decoded(m) => d.(messages := [m] + d.messages)
      case _ => d
  }

  /** The buffer is drained again with each piece of data. */
  function FeedAll(buf: seq<byte>, pieces: seq<seq<byte>>): Drained
    decreases |pieces|
  {
    if |pieces| == 0 then Drained([], buf, false)
    else
      var d := Drain(buf + pieces[0]);
      if d.hangs then d
      else
        var e := FeedAll(d.rest, pieces[1..]);
        e.(messages := d.messages + e.messages)
  }

  function Concat(pieces: seq<seq<byte>>): seq<byte> {
    if |pieces| == 0 then [] else pieces[0] + Concat(pieces[1..])
  }

  class Deframer {
    var buf: seq<byte>

    constructor ()
      ensures buf == []
    {
      buf := [];
    }

    /** The loop over the buffer; hangs stands for a call that never returns. */
    method Feed(data: seq<byte>) returns (messages: seq<Message>, hangs: bool)
      modifies this
      ensures Drained(messages, buf, hangs) == Drain(old(buf) + data)
    {
      hide Need, Decode, Drain, Behind;
      buf := buf + data;
      messages, hangs := [], false;
      ghost var all := Drain(buf);
      BehindNone(all);
      while |buf| >= 5 && |buf| >= Need(buf)
        invariant all == Behind(messages, Drain(buf))
        decreases |buf|
      {
        if Need(buf) == 0 {
          DrainsNot(buf);
          BehindAll(messages, buf, true);
          return messages, true;
        }
        var frame, rest := buf[..Need(buf)], buf[Need(buf)..];
        DrainTurn(buf);
        BehindMore(messages, First(frame), Drain(rest));
        messages := messages + First(frame);
        buf := rest;
      }
      DrainsNot(buf);
      BehindAll(messages, buf, false);
    }
  }

  /** What is drained behind some messages. */
  function Behind(messages: seq<Message>, d: Drained): Drained {
    d.(messages := messages + d.messages)
  }

  lemma BehindNone(d: Drained)
    ensures Behind([], d) == d
  {
    assert [] + d.messages == d.messages;
  }

  lemma BehindMore(a: seq<Message>, b: seq<Message>, d: Drained)
    ensures Behind(a, Behind(b, d)) == Behind(a + b, d)
  {
    assert a + (b + d.messages) == a + b + d.messages;
  }

  lemma BehindAll(messages: seq<Message>, rest: seq<byte>, hangs: bool)
    ensures Behind(messages, Drained([], rest, hangs)) == Drained(messages, rest, hangs)
  {
    assert messages + [] == messages;
  }

  // ---------------------------------------------------------------- chunking

  lemma NeedExtends(a: seq<byte>, b: seq<byte>)
    requires |a| >= 5
    ensures Need(a + b) == Need(a)
  {
    assert (a + b)[1..] == a[1..] + b;
  }

  function First(frame: seq<byte>): seq<Message> {
    match Decode(frame)
    case Decoded(m) => [m]
    case _ => []
  }

  lemma DrainTurn(a: seq<byte>)
    requires |a| >= 5 && 0 < Need(a) <= |a|
    ensures Drain(a) == Behind(First(a[..Need(a)]), Drain(a[Need(a)..]))
  {
    hide Need, Decode;
    var d := Drain(a[Need(a)..]);
    assert [] + d.messages == d.messages;
  }

  lemma DrainsNot(a: seq<byte>)
    requires |a| >= 5 ==> Need(a) > |a| || Need(a) == 0
    ensures Drain(a) == Drained([], a, |a| >= 5 && Need(a) == 0)
  {
  }

  lemma After(a: seq<byte>, b: seq<byte>, n: nat)
    requires n <= |a|
    ensures (a + b)[n..] == a[n..] + b && (a + b)[..n] == a[..n]
  {
  }

  /** More data behind a buffer: what was extracted stays, and the rest is drained with it. */
  lemma {:induction false} DrainMore(a: seq<byte>, b: seq<byte>)
    ensures var d := Drain(a);
            if d.hangs then Drain(a + b) == Drained(d.messages, d.rest + b, true)
            else Drain(a + b) == Drain(d.rest + b).(messages := d.messages + Drain(d.rest + b).messages)
    decreases |a|
  {
    hide Need, First, Drain;
    if |a| >= 5 {
      NeedExtends(a, b);
    }
    if |a| >= 5 && 0 < Need(a) <= |a| {
      var n := Need(a);
      DrainMore(a[n..], b);
      After(a, b, n);
      DrainTurn(a);
      DrainTurn(a + b);
    } else {
      DrainsNot(a);
      if |a| >= 5 && Need(a) == 0 {
        DrainsNot(a + b);
      } else {
        assert [] + Drain(a + b).messages == Drain(a + b).messages;
      }
    }
  }

  lemma {:induction false} Drains(buf: seq<byte>)
    ensures !Drain(buf).hangs ==> Drain(Drain(buf).rest) == Drained([], Drain(buf).rest, false)
    decreases |buf|
  {
    hide Need, Decode;
    if |buf| >= 5 && 0 < Need(buf) <= |buf| {
      Drains(buf[Need(buf)..]);
    }
  }

  /**
    However the data is cut, the messages are those of the whole, and so is the rest or that the call never returns.
   */
  lemma {:induction false} ChunkingIrrelevant(buf: seq<byte>, pieces: seq<seq<byte>>)
    requires Drain(buf) == Drained([], buf, false)
    ensures var d, e := Drain(buf + Concat(pieces)), FeedAll(buf, pieces);
            e.messages == d.messages && e.hangs == d.hangs && (!e.hangs ==> e.rest == d.rest)
    decreases |pieces|
  {
    hide Drain;
    if |pieces| == 0 {
      assert buf + [] == buf;
    } else {
      var a, b := buf + pieces[0], Concat(pieces[1..]);
      assert buf + Concat(pieces) == a + b;
      DrainMore(a, b);
      Drains(a);
      if !Drain(a).hangs {
        ChunkingIrrelevant(Drain(a).rest, pieces[1..]);
      }
    }
  }

  // ---------------------------------------------------------------- the round trip

  /** Messages one after the other, as the writer frames them. */
  function Framed(ms: seq<Message>): seq<byte> {
    if |ms| == 0 then [] else GrpcMessage(ms[0]) + Framed(ms[1..])
  }

  /** The lengths whose sum with the prefix does not wrap. */
  predicate Framable(m: Message) {
    |m| + 5 < WORD32
  }

  lemma PrefixSays(m: Message, rest: seq<byte>)
    ensures var d := GrpcMessage(m) + rest;
            |d| == 5 + |m| + |rest| && From32(d[1..]) == |m| % WORD32
  {
    hide Be32, From32;
    var d := GrpcMessage(m) + rest;
    Be32RoundTrip(|m| % WORD32, m + rest);
    assert d[1..] == Be32(|m| % WORD32) + (m + rest);
  }

  lemma Small(n: nat)
    requires n < WORD32
    ensures n % WORD32 == n
  {
  }

  lemma FirstDrained(m: Message, rest: seq<byte>)
    requires Framable(m)
    ensures Drain(GrpcMessage(m) + rest) == Drain(rest).(messages := [m] + Drain(rest).messages)
  {
    hide From32, GrpcMessage;
    var d, n := GrpcMessage(m) + rest, |m| + 5;
    PrefixSays(m, rest);
    PrefixSays(m, []);
    Small(|m|);
    Small(n);
    var frame := GrpcMessage(m);
    assert frame + [] == frame;
    assert d[..n] == frame && d[n..] == rest;
    assert frame[5..n] == m by { BehindPrefix(m); }
  }

  lemma BehindPrefix(m: Message)
    ensures |GrpcMessage(m)| == 5 + |m| && GrpcMessage(m)[5..] == m
  {
    hide Be32;
  }

  /** Framed messages are read back exactly, in order, and nothing is left but what follows them. */
  lemma {:induction false} FramedRead(ms: seq<Message>, rest: seq<byte>)
    requires forall m :: m in ms ==> Framable(m)
    ensures Drain(Framed(ms) + rest) == Drain(rest).(messages := ms + Drain(rest).messages)
    decreases |ms|
  {
    hide Drain, GrpcMessage;
    if |ms| == 0 {
      assert Framed(ms) + rest == rest;
      assert ms + Drain(rest).messages == Drain(rest).messages;
    } else {
      assert ms[0] in ms;
      FirstDrained(ms[0], Framed(ms[1..]) + rest);
      FramedRead(ms[1..], rest);
      assert Framed(ms) + rest == GrpcMessage(ms[0]) + (Framed(ms[1..]) + rest);
      assert [ms[0]] + (ms[1..] + Drain(rest).messages) == ms + Drain(rest).messages;
    }
  }

  lemma {:induction false} MessagesFit(buf: seq<byte>)
    ensures forall m :: m in Drain(buf).messages ==> |m| + 5 <= |buf|
    decreases |buf|
  {
    hide From32;
    if |buf| >= 5 && 0 < Need(buf) <= |buf| {
      MessagesFit(buf[Need(buf)..]);
    }
  }

  /** A framed message is read back if and only if the sum of its length and the prefix fits in 32 bits. */
  lemma FramedIff(m: Message)
    ensures Drain(GrpcMessage(m)) == Drained([m], [], false) <==> Framable(m)
  {
    hide From32, GrpcMessage;
    var d := GrpcMessage(m);
    assert d + [] == d;
    if Framable(m) {
      FirstDrained(m, []);
    } else {
      PrefixSays(m, []);
      if 0 < Need(d) <= |d| {
        MessagesFit(d[Need(d)..]);
        ShortOfAll(m);
        assert m !in Drain(d).messages;
      }
    }
  }

  /** What is taken for the first message is not the whole of one whose length does not fit. */
  lemma ShortOfAll(m: Message)
    requires !Framable(m)
    ensures var d := GrpcMessage(m);
            |d| == 5 + |m| && (Need(d) <= |d| && Decode(d[..Need(d)]).Decoded? ==> |Decode(d[..Need(d)]).m| < |m|)
  {
    hide From32, GrpcMessage;
    var d := GrpcMessage(m);
    PrefixSays(m, []);
    assert d + [] == d;
    var n := From32(d[1..]);
    WrappedNeed(|m|, n);
    if 5 <= Need(d) <= |d| {
      assert d[..Need(d)][1..] == d[1..Need(d)];
      FirstFour(d[1..], Need(d) - 1);
      assert d[1..][..Need(d) - 1] == d[1..Need(d)];
    }
  }

  lemma FirstFour(b: seq<byte>, k: nat)
    requires 4 <= k <= |b|
    ensures From32(b[..k]) == From32(b)
  {
  }

  lemma WrappedNeed(size: nat, n: nat)
    requires size + 5 >= WORD32 && n == size % WORD32
    ensures (5 + n) % WORD32 >= 5 ==> (5 + n) % WORD32 == 5 + n && n < size
  {
  }

  /** A length of 2^32 - 5: whatever follows, the call never returns. */
  lemma NeverReturns(flag: byte, rest: seq<byte>)
    ensures Drain([flag, 255, 255, 255, 251] + rest).hangs
  {
    var d := [flag, 255, 255, 255, 251] + rest;
    assert d[1..][0] == 255 && d[1..][1] == 255 && d[1..][2] == 255 && d[1..][3] == 251;
  }

  /** The deframer hangs if and only if it comes to that length. */
  lemma {:induction false} HangsIff(buf: seq<byte>)
    ensures Drain(buf).hangs <==>
              |Drain(buf).rest| >= 5 && Drain(buf).rest[1..5] == [255, 255, 255, 251]
    decreases |buf|
  {
    if |buf| >= 5 {
      LengthIs(buf);
      if 0 < Need(buf) <= |buf| {
        HangsIff(buf[Need(buf)..]);
      }
    }
  }

  lemma LengthIs(buf: seq<byte>)
    requires |buf| >= 5
    ensures Need(buf) == 0 <==> buf[1..5] == [255, 255, 255, 251]
  {
    var b := buf[1..];
    assert buf[1..5] == b[..4] == [b[0], b[1], b[2], b[3]];
    Largest(b[0], b[1], b[2], b[3]);
    WrapsToNothing(From32(b));
  }

  lemma WrapsToNothing(n: nat)
    requires n < WORD32
    ensures (5 + n) % WORD32 == 0 <==> n == WORD32 - 5
  {
  }

  lemma Largest(a: byte, b: byte, c: byte, d: byte)
    ensures var n := a as nat * 0x100_0000 + b as nat * 0x1_0000 + c as nat * 0x100 + d;
            && n < WORD32
            && (n == WORD32 - 5 <==> a == 255 && b == 255 && c == 255 && d == 251)
  {
  }

  /** Decoding one framed message by itself, as a unary call does. */
  lemma DecodeRead(m: Message, rest: seq<byte>)
    requires Framable(m)
    ensures Decode(GrpcMessage(m) + rest) == Decoded(m)
  {
    hide From32, GrpcMessage;
    var d := GrpcMessage(m) + rest;
    PrefixSays(m, rest);
    Small(|m|);
    Small(|m| + 5);
    BehindPrefix(m);
    assert d[5..5 + |m|] == m;
  }
}
