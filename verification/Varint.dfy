/** QUIC variable-length integers (section 16 of RFC 9000), as src/http/h3_frame.hpp writes and reads them. */
module Varint {
  import opened Bytes

  const VARINT_LIMIT := 0x4000_0000_0000_0000

  datatype Read = Read(value: nat, consumed: nat)

  /** The number of bytes announced by the two high bits of the first byte. */
  function SizeOf(first: byte): (r: nat)
    ensures r == 1 || r == 2 || r == 4 || r == 8
  {
    if first < 64 then 1 else if first < 128 then 2 else if first < 192 then 4 else 8
  }

  /** The shortest of the four forms; nothing for a value that fits none. */
  function Encode(v: nat): seq<byte> {
    if v < 64 then [v]
    else if v < 16384 then [v / 0x100 + 0x40, v % 0x100]
    else if v < 1073741824 then [v / 0x100_0000 + 0x80, v / 0x1_0000 % 0x100, v / 0x100 % 0x100, v % 0x100]
    else if v < VARINT_LIMIT then Wide(v / 0x1_0000_0000, v % 0x1_0000_0000)
    else []
  }

  /** Eight bytes from two 32-bit halves, the upper one below 2^30. */
  function Wide(hi: nat, lo: nat): (r: seq<byte>)
    requires hi < 0x4000_0000
    ensures |r| == 8
  {
    [hi / 0x100_0000 + 0xC0, hi / 0x1_0000 % 0x100, hi / 0x100 % 0x100, hi % 0x100,
     lo / 0x100_0000 % 0x100, lo / 0x1_0000 % 0x100, lo / 0x100 % 0x100, lo % 0x100]
  }

  function Word(a: nat, b: nat, c: nat, d: nat): nat {
    a * 0x100_0000 + b * 0x1_0000 + c * 0x100 + d
  }

  function Decode(s: seq<byte>): (r: Option<Read>)
    ensures r.Some? <==> |s| > 0 && |s| >= SizeOf(s[0])
    ensures r.Some? ==> r.value.consumed == SizeOf(s[0]) && r.value.value < VARINT_LIMIT
  {
    if |s| == 0 || |s| < SizeOf(s[0]) then None
    else if s[0] < 64 then Some(Read(s[0], 1))
    else if s[0] < 128 then Some(Read((s[0] as nat - 64) * 0x100 + s[1], 2))
    else if s[0] < 192 then Some(Read(Word(s[0] - 128, s[1], s[2], s[3]), 4))
    else
      var hi: nat := Word(s[0] - 192, s[1], s[2], s[3]);
      var lo: nat := Word(s[4], s[5], s[6], s[7]);
      Some(Read(hi * 0x1_0000_0000 + lo, 8))
  }

  lemma WordDigits(v: nat)
    requires v < 0x1_0000_0000
    ensures Word(v / 0x100_0000, v / 0x1_0000 % 0x100, v / 0x100 % 0x100, v % 0x100) == v
    ensures v / 0x100_0000 < 0x100
  {
    var a := v / 0x100;
    var b := a / 0x100;
    assert v / 0x1_0000 == b;
    assert v / 0x100_0000 == b / 0x100;
  }

  lemma RoundTrip(v: nat, rest: seq<byte>)
    requires v < VARINT_LIMIT
    ensures Decode(Encode(v) + rest) == Some(Read(v, |Encode(v)|))
  {
    if 16384 <= v < 1073741824 {
      WordDigits(v);
    } else if v >= 1073741824 {
      var hi, lo := v / 0x1_0000_0000, v % 0x1_0000_0000;
      WordDigits(hi);
      WordDigits(lo);
      WideRoundTrip(hi, lo, rest);
    }
  }

  lemma WideRoundTrip(hi: nat, lo: nat, rest: seq<byte>)
    requires hi < 0x4000_0000 && lo < 0x1_0000_0000
    requires Word(hi / 0x100_0000, hi / 0x1_0000 % 0x100, hi / 0x100 % 0x100, hi % 0x100) == hi
    requires Word(lo / 0x100_0000, lo / 0x1_0000 % 0x100, lo / 0x100 % 0x100, lo % 0x100) == lo
    ensures Decode(Wide(hi, lo) + rest) == Some(Read(hi * 0x1_0000_0000 + lo, 8))
  {
    hide Word;
    var s := Wide(hi, lo) + rest;
    assert s[0] == Wide(hi, lo)[0] && s[1] == Wide(hi, lo)[1] && s[2] == Wide(hi, lo)[2] && s[3] == Wide(hi, lo)[3];
    assert s[4] == Wide(hi, lo)[4] && s[5] == Wide(hi, lo)[5] && s[6] == Wide(hi, lo)[6] && s[7] == Wide(hi, lo)[7];
  }

  /** Only the announced bytes matter. */
  lemma Prefix(a: seq<byte>, b: seq<byte>)
    requires Decode(a).Some?
    ensures Decode(a + b) == Decode(a)
  {
  }

  /** No shorter form can carry the value. */
  lemma Shortest(v: nat, s: seq<byte>)
    requires v < VARINT_LIMIT && Decode(s).Some? && Decode(s).value.value == v
    ensures |Encode(v)| <= Decode(s).value.consumed
  {
  }
}
