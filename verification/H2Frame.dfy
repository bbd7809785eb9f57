/** The HTTP/2 frame layer of src/http/h2_frame.hpp (section 4.1 of RFC 7540). */
module H2Frame {
  import opened Bytes

  const FRAME_HEADER_SIZE := 9
  const MAX_WINDOW_SIZE := 0x7FFF_FFFF
  const LENGTH_LIMIT := 0x100_0000
  const SID_LIMIT := 0x8000_0000
  const WORD32 := 0x1_0000_0000

  // Frame types.
  const DATA: byte := 0x0
  const HEADERS: byte := 0x1
  const PRIORITY: byte := 0x2
  const RST_STREAM: byte := 0x3
  const SETTINGS: byte := 0x4
  const PUSH_PROMISE: byte := 0x5
  const PING: byte := 0x6
  const GOAWAY: byte := 0x7
  const WINDOW_UPDATE: byte := 0x8
  const CONTINUATION: byte := 0x9

  // Flags.
  const ACK: byte := 0x01
  const END_STREAM: byte := 0x01
  const END_HEADERS: byte := 0x04
  const PADDED: byte := 0x08
  const WITH_PRIORITY: byte := 0x20

  // Error codes.
  const PROTOCOL_ERROR := 0x1
  const FLOW_CONTROL_ERROR := 0x3
  const STREAM_CLOSED := 0x5
  const FRAME_SIZE_ERROR := 0x6

  /** A frame; its 24-bit length field is the length of the payload. */
  datatype Frame = Frame(kind: byte, flags: byte, sid: nat, payload: seq<byte>)

  /** Frames the wire format can carry. */
  ghost predicate Fits(f: Frame) {
    f.sid < SID_LIMIT && |f.payload| < LENGTH_LIMIT
  }

  predicate HasFlag(f: Frame, bit: byte)
    requires bit > 0
  {
    (f.flags / bit) % 2 == 1
  }

  // ---------------------------------------------------------------- big-endian numbers

  function Be32(v: nat): (r: seq<byte>)
    ensures |r| == 4
  {
    [v / 0x100_0000 % 256, v / 0x1_0000 % 256, v / 0x100 % 256, v % 256]
  }

  function From32(b: seq<byte>): (r: nat)
    requires |b| >= 4
    ensures r < WORD32
  {
    (b[0] as nat) * 0x100_0000 + (b[1] as nat) * 0x1_0000 + (b[2] as nat) * 0x100 + b[3]
  }

  lemma Be32RoundTrip(v: nat, rest: seq<byte>)
    requires v < WORD32
    ensures From32(Be32(v) + rest) == v
  {
    Digits32(v);
    var w := Be32(v) + rest;
    assert w[0] == Be32(v)[0] && w[1] == Be32(v)[1] && w[2] == Be32(v)[2] && w[3] == Be32(v)[3];
  }

  lemma Digits32(v: nat)
    requires v < WORD32
    ensures (v / 0x100_0000 % 256) * 0x100_0000 + (v / 0x1_0000 % 256) * 0x1_0000 + (v / 0x100 % 256) * 0x100 + v % 256
            == v
  {
    var a := v / 0x100;
    var b := a / 0x100;
    assert v / 0x1_0000 == b;
    assert v / 0x100_0000 == b / 0x100;
  }

  // ---------------------------------------------------------------- building and parsing frames

  function HeaderBytes(f: Frame): (r: seq<byte>)
    ensures |r| == FRAME_HEADER_SIZE
  {
    var n := |f.payload|;
    [n / 0x1_0000 % 256, n / 0x100 % 256, n % 256, f.kind, f.flags] + Be32(f.sid % SID_LIMIT)
  }

  function Build(f: Frame): seq<byte> {
    HeaderBytes(f) + f.payload
  }

  function Serialize(fs: seq<Frame>): seq<byte> {
    if |fs| == 0 then [] else Build(fs[0]) + Serialize(fs[1..])
  }

  function PayloadLength(s: seq<byte>): (r: nat)
    requires |s| >= 3
    ensures r < LENGTH_LIMIT
  {
    (s[0] as nat) * 0x1_0000 + (s[1] as nat) * 0x100 + s[2]
  }

  /** Does the stream start with a complete frame? */
  predicate StartsWithFrame(s: seq<byte>) {
    |s| >= FRAME_HEADER_SIZE && |s| >= FRAME_HEADER_SIZE + PayloadLength(s)
  }

  function FrameEnd(s: seq<byte>): (r: nat)
    requires StartsWithFrame(s)
    ensures FRAME_HEADER_SIZE <= r <= |s|
  {
    FRAME_HEADER_SIZE + PayloadLength(s)
  }

  function FirstFrame(s: seq<byte>): (f: Frame)
    requires StartsWithFrame(s)
    ensures Fits(f)
  {
    Frame(s[3], s[4], From32(s[5..9]) % SID_LIMIT, s[FRAME_HEADER_SIZE..FrameEnd(s)])
  }

  /** One-shot parse: all complete frames, and the bytes of the unfinished one. */
  datatype Parsed = Parsed(frames: seq<Frame>, rest: seq<byte>)

  function Parse(s: seq<byte>): (r: Parsed)
    ensures |r.rest| <= |s|
    decreases |s|
  {
    if !StartsWithFrame(s) then Parsed([], s)
    else
      var tail := Parse(s[FrameEnd(s)..]);
      Parsed([FirstFrame(s)] + tail.frames, tail.rest)
  }

  lemma {:induction false} RestIsPartial(s: seq<byte>)
    ensures !StartsWithFrame(Parse(s).rest)
    decreases |s|
  {
    if StartsWithFrame(s) {
      RestIsPartial(s[FrameEnd(s)..]);
    }
  }

  lemma PrefixDecides(a: seq<byte>, b: seq<byte>)
    requires StartsWithFrame(a)
    ensures StartsWithFrame(a + b) && FrameEnd(a + b) == FrameEnd(a) && FirstFrame(a + b) == FirstFrame(a)
    ensures (a + b)[FrameEnd(a)..] == a[FrameEnd(a)..] + b
  {
    assert (a + b)[5..9] == a[5..9];
    assert (a + b)[FRAME_HEADER_SIZE..FrameEnd(a)] == a[FRAME_HEADER_SIZE..FrameEnd(a)];
  }

  /** Parsing in two pieces, carrying the remainder over, is parsing the whole. */
  lemma {:induction false} ParseAppend(a: seq<byte>, b: seq<byte>)
    ensures var p, q, w := Parse(a), Parse(Parse(a).rest + b), Parse(a + b);
            w.frames == p.frames + q.frames && w.rest == q.rest
    decreases |a|
  {
    hide FirstFrame;
    if StartsWithFrame(a) {
      PrefixDecides(a, b);
      ParseAppend(a[FrameEnd(a)..], b);
    }
  }

  lemma BuildLayout(f: Frame, s: seq<byte>)
    requires Fits(f)
    ensures StartsWithFrame(Build(f) + s) && FrameEnd(Build(f) + s) == |Build(f)|
    ensures FirstFrame(Build(f) + s) == f
    ensures (Build(f) + s)[|Build(f)|..] == s
  {
    var w := Build(f) + s;
    LengthRoundTrip(f, s);
    assert w[5..9] == Be32(f.sid);
    Be32RoundTrip(f.sid, []);
    assert Be32(f.sid) + [] == Be32(f.sid);
    assert w[FRAME_HEADER_SIZE..|Build(f)|] == f.payload;
  }

  lemma LengthRoundTrip(f: Frame, s: seq<byte>)
    requires |f.payload| < LENGTH_LIMIT
    ensures PayloadLength(Build(f) + s) == |f.payload|
  {
    LengthDigits(|f.payload|);
    var w := Build(f) + s;
    assert w[0] == HeaderBytes(f)[0] && w[1] == HeaderBytes(f)[1] && w[2] == HeaderBytes(f)[2];
  }

  lemma LengthDigits(n: nat)
    requires n < LENGTH_LIMIT
    ensures (n / 0x1_0000 % 256) * 0x1_0000 + (n / 0x100 % 256) * 0x100 + n % 256 == n
  {
  }

  lemma ParseOne(s: seq<byte>)
    requires StartsWithFrame(s)
    ensures Parse(s) == Parsed([FirstFrame(s)] + Parse(s[FrameEnd(s)..]).frames, Parse(s[FrameEnd(s)..]).rest)
  {
    hide FirstFrame;
  }

  /** A stream of built frames parses to those frames, whatever follows. */
  lemma {:induction false} SerializeParse(fs: seq<Frame>, s: seq<byte>)
    requires forall f :: f in fs ==> Fits(f)
    ensures Parse(Serialize(fs) + s) == Parsed(fs + Parse(s).frames, Parse(s).rest)
    decreases |fs|
  {
    hide Build, FirstFrame, Parse, StartsWithFrame;
    if |fs| == 0 {
      assert Serialize(fs) + s == s;
      assert fs + Parse(s).frames == Parse(s).frames;
    } else {
      assert fs[0] in fs;
      var tail := Serialize(fs[1..]) + s;
      assert Serialize(fs) + s == Build(fs[0]) + tail;
      BuildLayout(fs[0], tail);
      ParseOne(Build(fs[0]) + tail);
      SerializeParse(fs[1..], s);
      assert [fs[0]] + (fs[1..] + Parse(s).frames) == fs + Parse(s).frames;
    }
  }

  lemma {:induction false} SerializeConcat(a: seq<Frame>, b: seq<Frame>)
    ensures Serialize(a + b) == Serialize(a) + Serialize(b)
  {
    hide Build;
    if |a| == 0 {
      assert a + b == b;
    } else {
      SerializeConcat(a[1..], b);
      assert (a + b)[1..] == a[1..] + b;
    }
  }

  // ---------------------------------------------------------------- payloads

  datatype Setting = Setting(id: nat, value: nat)

  const HEADER_TABLE_SIZE := 0x1
  const ENABLE_PUSH := 0x2
  const MAX_CONCURRENT_STREAMS := 0x3
  const INITIAL_WINDOW_SIZE := 0x4
  const MAX_FRAME_SIZE := 0x5
  const MAX_HEADER_LIST_SIZE := 0x6

  function SettingBytes(s: Setting): (r: seq<byte>)
    ensures |r| == 6
  {
    [s.id / 0x100 % 256, s.id % 256] + Be32(s.value)
  }

  function SettingsPayload(ss: seq<Setting>): (r: seq<byte>)
    ensures |r| == 6 * |ss|
  {
    if |ss| == 0 then [] else SettingBytes(ss[0]) + SettingsPayload(ss[1..])
  }

  function SettingAt(p: seq<byte>): (s: Setting)
    requires |p| >= 6
    ensures s.value < WORD32
  {
    Setting((p[0] as nat) * 0x100 + p[1], From32(p[2..]))
  }

  /** Nothing when the length is not a multiple of six. */
  function ParseSettings(p: seq<byte>): (r: seq<Setting>)
    ensures forall s :: s in r ==> s.value < WORD32
  {
    if |p| % 6 != 0 || |p| == 0 then [] else [SettingAt(p)] + ParseSettings(p[6..])
  }

  lemma {:induction false} SettingsRoundTrip(ss: seq<Setting>)
    requires forall s :: s in ss ==> s.id < 0x1_0000 && s.value < WORD32
    ensures ParseSettings(SettingsPayload(ss)) == ss
  {
    if |ss| > 0 {
      var p := SettingsPayload(ss);
      assert ss[0] in ss;
      SettingsRoundTrip(ss[1..]);
      assert p[6..] == SettingsPayload(ss[1..]);
      SettingRoundTrip(ss[0], p[6..]);
      assert p == SettingBytes(ss[0]) + p[6..];
    }
  }

  lemma SettingRoundTrip(s: Setting, rest: seq<byte>)
    requires s.id < 0x1_0000 && s.value < WORD32
    ensures SettingAt(SettingBytes(s) + rest) == s
  {
    Be32RoundTrip(s.value, rest);
    assert (SettingBytes(s) + rest)[2..] == Be32(s.value) + rest;
  }

  function SettingsFrame(ss: seq<Setting>): Frame {
    Frame(SETTINGS, 0, 0, SettingsPayload(ss))
  }

  function SettingsAck(): Frame {
    Frame(SETTINGS, ACK, 0, [])
  }

  function WindowUpdateFrame(sid: nat, increment: nat): Frame {
    Frame(WINDOW_UPDATE, 0, sid, Be32(increment % SID_LIMIT))
  }

  function ParseWindowUpdate(p: seq<byte>): (r: nat)
    ensures r < SID_LIMIT
  {
    if |p| < 4 then 0 else From32(p) % SID_LIMIT
  }

  lemma WindowUpdateRoundTrip(sid: nat, increment: nat)
    requires increment < SID_LIMIT
    ensures ParseWindowUpdate(WindowUpdateFrame(sid, increment).payload) == increment
  {
    Be32RoundTrip(increment, []);
    assert Be32(increment) + [] == Be32(increment);
  }

  function RstStreamFrame(sid: nat, code: nat): Frame {
    Frame(RST_STREAM, 0, sid, Be32(code))
  }

  function GoawayFrame(last: nat, code: nat, debug: seq<byte>): Frame {
    Frame(GOAWAY, 0, 0, Be32(last % SID_LIMIT) + Be32(code) + debug)
  }

  function PingAck(opaqueData: seq<byte>): Frame {
    Frame(PING, ACK, 0, opaqueData)
  }

  // ---------------------------------------------------------------- the incremental reader

  class FrameReader {
    const headerBuf: array<byte>
    var headerLen: nat
    var currentLength: Option<nat>   // None is the source's SIZE_MAX: header not parsed yet
    var payload: seq<byte>

    constructor ()
      ensures Valid() && Pending() == [] && fresh(headerBuf)
    {
      headerBuf := new byte[9];
      headerLen, currentLength, payload := 0, None, [];
    }

    ghost predicate Valid()
      reads this, headerBuf
    {
      && headerBuf.Length == 9 && headerLen <= 9
      && (headerLen < 9 ==> payload == [] && currentLength == None)
      && (headerLen == 9 ==> currentLength == Some(PayloadLength(headerBuf[..])) && |payload| <= currentLength.value)
    }

    /** The bytes read of the current frame. */
    ghost function Pending(): seq<byte>
      requires Valid()
      reads this, headerBuf
    {
      headerBuf[..headerLen] + payload
    }

    predicate HasFrame()
      requires Valid()
      reads this, headerBuf
    {
      headerLen == 9 && currentLength.Some? && |payload| >= currentLength.value
    }

    lemma HasFrameMeans()
      requires Valid()
      ensures HasFrame() <==> StartsWithFrame(Pending())
      ensures HasFrame() ==> FrameEnd(Pending()) == |Pending()|
    {
      if headerLen == 9 {
        assert headerBuf[..9] == headerBuf[..];
        assert PayloadLength(Pending()) == PayloadLength(headerBuf[..]);
      }
    }

    method TakeHeaderBytes(data: seq<byte>) returns (take: nat)
      requires Valid() && headerLen < 9 && |data| > 0
      modifies this, headerBuf
      ensures Valid() && 0 < take <= |data|
      ensures Pending() == old(Pending()) + data[..take]
      ensures take < |data| ==> headerLen == 9
    {
      take := Min(9 - headerLen, |data|);
      ghost var before := headerBuf[..headerLen];
      for i := 0 to take
        invariant headerLen == old(headerLen) && payload == [] && currentLength == None
        invariant headerBuf[..headerLen + i] == before + data[..i]
      {
        headerBuf[headerLen + i] := data[i];
        assert headerBuf[..headerLen + i + 1] == headerBuf[..headerLen + i] + [data[i]];
        assert data[..i + 1] == data[..i] + [data[i]];
      }
      headerLen := headerLen + take;
      if headerLen == 9 && currentLength.None? {
        currentLength := Some(PayloadLength(headerBuf[..]));
        payload := [];
      }
    }

    method TakePayloadBytes(data: seq<byte>) returns (take: nat)
      requires Valid() && headerLen == 9 && |payload| < currentLength.value && |data| > 0
      modifies this`payload
      ensures Valid() && 0 < take <= |data|
      ensures Pending() == old(Pending()) + data[..take]
    {
      take := Min(currentLength.value - |payload|, |data|);
      payload := payload + data[..take];
      assert Pending() == old(Pending()) + data[..take];
    }

    /** Reads bytes of one frame; stops short only when that frame is complete. */
    method Feed(data: seq<byte>) returns (consumed: nat)
      requires Valid()
      modifies this, headerBuf
      ensures Valid() && consumed <= |data|
      ensures Pending() == old(Pending()) + data[..consumed]
      ensures consumed < |data| ==> HasFrame()
    {
      consumed := 0;
      while consumed < |data|
        invariant Valid() && consumed <= |data|
        invariant Pending() == old(Pending()) + data[..consumed]
        decreases |data| - consumed
      {
        if headerLen < 9 {
          var take := TakeHeaderBytes(data[consumed..]);
          assert data[..consumed] + data[consumed..][..take] == data[..consumed + take];
          consumed := consumed + take;
        } else if |payload| < currentLength.value {
          var take := TakePayloadBytes(data[consumed..]);
          assert data[..consumed] + data[consumed..][..take] == data[..consumed + take];
          consumed := consumed + take;
        } else {
          break;
        }
      }
    }

    method TakeFrame() returns (f: Frame)
      requires Valid() && HasFrame()
      modifies this
      ensures Valid() && Pending() == []
      ensures StartsWithFrame(old(Pending())) && f == FirstFrame(old(Pending()))
    {
      HasFrameMeans();
      ghost var p := Pending();
      assert headerBuf[..9] == headerBuf[..];
      assert p[5..9] == headerBuf[5..9];
      assert p[9..] == payload;
      f := Frame(headerBuf[3], headerBuf[4], From32(headerBuf[5..9]) % SID_LIMIT, payload);
      headerLen, currentLength, payload := 0, None, [];
    }
  }
}
