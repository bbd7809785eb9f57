/** Prefix-coded integers (section 5.1 of RFC 7541), as hpack_encode_int and hpack_decode_int write and read them. */
module PrefixInt {
  import opened Bytes

  const WORD64 := 0x1_0000_0000_0000_0000

  /** A decoded value and the number of bytes it took. */
  datatype Decoded = Decoded(value: nat, consumed: nat)

  /** The number of values an n-bit prefix can hold, 1 << n, for n from 1 to 8. */
  type Span = p: nat | p == 2 || p == 4 || p == 8 || p == 16 || p == 32 || p == 64 || p == 128 || p == 256 witness 2

  /** The prefix bits of a byte. */
  function Low(b: byte, span: Span): (r: nat)
    ensures r < span
  {
    match span
    case 2 => b % 2
    case 4 => b % 4
    case 8 => b % 8
    case 16 => b % 16
    case 32 => b % 32
    case 64 => b % 64
    case 128 => b % 128
    case _ => b
  }

  /** A first byte whose prefix bits are free for the value. */
  ghost predicate Mask(mask: byte, span: Span) {
    Low(mask, span) == 0 && mask + span <= 256
  }

  /** Seven bits per byte, least significant first, the high bit marking all but the last. */
  function Groups(v: nat): (r: seq<byte>)
    ensures |r| >= 1
  {
    if v < 128 then [v] else [v % 128 + 128] + Groups(v / 128)
  }

  /** A value below span - 1 fits the prefix; span - 1 itself marks a continued integer. */
  function EncodeInt(v: nat, span: Span, mask: byte): (r: seq<byte>)
    requires mask + span <= 256
    ensures |r| >= 1
  {
    if v < span - 1 then [mask + v]
    else [mask + (span - 1)] + Groups(v - (span - 1))
  }

  /** Accumulates groups modulo 2^64; group k is shifted left by 7k, which leaves nothing from 64 bits on. */
  function DecodeGroups(data: seq<byte>, acc: nat, m: nat): (r: Option<Decoded>)
    ensures r.Some? ==> 1 <= r.value.consumed <= |data|
    decreases |data|
  {
    if |data| == 0 then None
    else
      var v := (acc + (data[0] % 128) * Pow2(m)) % WORD64;
      if data[0] >= 128 then
        match DecodeGroups(data[1..], v, m + 7)
        case None => None
        case Some(d) => Some(Decoded(d.value, d.consumed + 1))
      else Some(Decoded(v, 1))
  }

  function DecodeInt(data: seq<byte>, span: Span): (r: Option<Decoded>)
    ensures r.Some? ==> 1 <= r.value.consumed <= |data|
  {
    if |data| == 0 then None
    else
      var v := Low(data[0], span);
      if v < span - 1 then Some(Decoded(v, 1))
      else
        match DecodeGroups(data[1..], v, 0)
        case None => None
        case Some(d) => Some(Decoded(d.value, d.consumed + 1))
  }

  lemma {:induction false} GroupsFit(data: seq<byte>, acc: nat, m: nat)
    ensures DecodeGroups(data, acc, m).Some? ==> DecodeGroups(data, acc, m).value.value < WORD64
    decreases |data|
  {
    hide Pow2;
    if |data| > 0 && data[0] >= 128 {
      GroupsFit(data[1..], (acc + (data[0] % 128) * Pow2(m)) % WORD64, m + 7);
    }
  }

  /** Values are read in 64 bits. */
  lemma DecodedFits(data: seq<byte>, span: Span)
    ensures DecodeInt(data, span).Some? ==> DecodeInt(data, span).value.value < WORD64
  {
    hide DecodeGroups;
    if |data| > 0 {
      GroupsFit(data[1..], Low(data[0], span), 0);
    }
  }

  // ---------------------------------------------------------------- round trip

  lemma AddWrapped(x: nat, y: nat)
    ensures (x % WORD64 + y) % WORD64 == (x + y) % WORD64
  {
  }

  lemma GroupSum(v: nat, p: nat)
    ensures (v % 128) * p + (v / 128) * (128 * p) == v * p
  {
    var q, r := v / 128, v % 128;
    assert v == 128 * q + r;
    Distribute(128 * q, r, p);
    assert (128 * q) * p == q * (128 * p);
  }

  lemma {:induction false} GroupsRoundTrip(v: nat, rest: seq<byte>, acc: nat, m: nat)
    ensures DecodeGroups(Groups(v) + rest, acc, m) == Some(Decoded((acc + v * Pow2(m)) % WORD64, |Groups(v)|))
    decreases v
  {
    hide Pow2;
    var data := Groups(v) + rest;
    if v >= 128 {
      var acc' := (acc + (v % 128) * Pow2(m)) % WORD64;
      GroupsRoundTrip(v / 128, rest, acc', m + 7);
      assert data[1..] == Groups(v / 128) + rest;
      Pow2Add(m, 7);
      Pow2Literals();
      GroupSum(v, Pow2(m));
      AddWrapped(acc + (v % 128) * Pow2(m), (v / 128) * Pow2(m + 7));
    }
  }

  lemma LowIsRemainder(b: byte, span: Span)
    ensures Low(b, span) == b % span
  {
  }

  lemma LowBits(mask: byte, span: Span, v: nat)
    requires Mask(mask, span) && v < span
    ensures Low(mask + v, span) == v
  {
    LowIsRemainder(mask, span);
    LowIsRemainder(mask + v, span);
    DivideUnique(mask + v, span, mask / span, v);
  }

  lemma ContinuedInt(first: byte, w: nat, span: Span, rest: seq<byte>)
    requires Low(first, span) == span - 1
    ensures DecodeInt([first] + Groups(w) + rest, span) == Some(Decoded((span - 1 + w) % WORD64, 1 + |Groups(w)|))
  {
    assert ([first] + Groups(w) + rest)[1..] == Groups(w) + rest;
    GroupsRoundTrip(w, rest, span - 1, 0);
    assert w * Pow2(0) == w;
  }

  lemma MaskRoom(mask: byte, span: Span)
    requires Mask(mask, span)
    ensures mask + span <= 256
  {
  }

  /** Any 64-bit value is read back, with the exact number of bytes, whatever follows it. */
  lemma IntRoundTrip(v: nat, span: Span, mask: byte, rest: seq<byte>)
    requires Mask(mask, span) && v < WORD64
    ensures DecodeInt(EncodeInt(v, span, mask) + rest, span) == Some(Decoded(v, |EncodeInt(v, span, mask)|))
  {
    hide Groups, DecodeGroups, Low, Pow2;
    assert mask + span <= 256 by { MaskRoom(mask, span); }
    if v < span - 1 {
      LowBits(mask, span, v);
      assert (EncodeInt(v, span, mask) + rest)[0] == mask + v;
    } else {
      hide DecodeInt;
      LowBits(mask, span, span - 1);
      ContinuedInt(mask + (span - 1), v - (span - 1), span, rest);
    }
  }

  lemma {:induction false} GroupsLength(v: nat, k: nat)
    requires k >= 1 && v < Pow2(7 * k)
    ensures |Groups(v)| <= k
    decreases k
  {
    if v >= 128 {
      Pow2Literals();
      if k == 1 {
        assert false;
      }
      Pow2Add(7 * (k - 1), 7);
      GroupsLength(v / 128, k - 1);
    }
  }

  lemma {:induction false} GroupsNeeded(v: nat, k: nat)
    requires v >= Pow2(7 * k)
    ensures |Groups(v)| > k
    decreases k
  {
    if k > 0 {
      Pow2Literals();
      Pow2Add(7 * (k - 1), 7);
      assert Pow2(7 * (k - 1)) >= 1;
      GroupsNeeded(v / 128, k - 1);
    }
  }

  /** The longest form belongs to the largest values. */
  lemma LongestForm(v: nat, span: Span, mask: byte)
    requires mask + span <= 256 && WORD64 - 11 <= v < WORD64
    ensures |EncodeInt(v, span, mask)| == 11
  {
    FitsScratch(v, span, mask);
    assert Pow2(63) == 0x8000_0000_0000_0000 by { Pow2Of63(); }
    GroupsNeeded(v - (span - 1), 9);
  }

  lemma {:induction false} GroupsLast(v: nat, k: nat)
    requires Pow2(7 * k) <= v < Pow2(7 * k + 7)
    ensures |Groups(v)| == k + 1 && Groups(v)[k] == v / Pow2(7 * k)
    decreases k
  {
    Pow2Literals();
    Pow2Add(7 * k, 7);
    if k > 0 {
      Pow2Add(7 * (k - 1), 7);
      var p := Pow2(7 * (k - 1));
      assert Pow2(7 * k) == 128 * p;
      Shifted(v, p);
      GroupsLast(v / 128, k - 1);
    }
  }

  lemma Shifted(v: nat, p: nat)
    requires 128 * p <= v < 128 * (128 * p)
    ensures p > 0 && p <= v / 128 < 128 * p && (v / 128) / p == v / (128 * p)
  {
    var q, r := v / (128 * p), v % (128 * p);
    assert v == 128 * (p * q) + r by { assert 128 * p * q == 128 * (p * q); }
    var r', rest := r / 128, r % 128;
    assert r == 128 * r' + rest;
    assert v / 128 == p * q + r';
    DivideUnique(v / 128, p, q, r');
  }

  /** The last byte of the largest value. */
  lemma LastGroup()
    ensures |EncodeInt(WORD64 - 1, 128, 0x80)| == 11 && EncodeInt(WORD64 - 1, 128, 0x80)[10] == 1
  {
    hide Groups, Pow2;
    assert Pow2(63) == 0x8000_0000_0000_0000 by { Pow2Of63(); }
    Pow2Of70();
    GroupsLast(WORD64 - 128, 9);
  }

  lemma Pow2Of63()
    ensures Pow2(63) == 0x8000_0000_0000_0000
  {
    Pow2Literals();
    Pow2Add(7, 7);
    Pow2Add(14, 14);
    Pow2Add(28, 28);
    Pow2Add(56, 7);
  }

  /** Three bytes that announce more never make an integer. */
  lemma CutOff()
    ensures DecodeInt([255, 255, 255], 128) == None
  {
    hide Pow2;
    var data: seq<byte> := [255, 255, 255];
    assert data[1..] == [255, 255] && data[1..][1..] == [255] && data[1..][1..][1..] == [];
    assert forall acc: nat, m: nat :: DecodeGroups(data[1..][1..][1..], acc, m) == None;
    assert forall acc: nat, m: nat :: DecodeGroups(data[1..][1..], acc, m) == None;
    assert forall acc: nat, m: nat :: DecodeGroups(data[1..], acc, m) == None;
  }

  lemma Pow2Of70()
    ensures Pow2(70) > WORD64
  {
    assert Pow2(14) == 0x4000 by { Pow2Add(7, 7); Pow2Literals(); }
    assert Pow2(28) == 0x1000_0000 by { Pow2Add(14, 14); }
    assert Pow2(56) == 0x100_0000_0000_0000 by { Pow2Add(28, 28); }
    assert Pow2(70) == 0x100_0000_0000_0000 * 0x4000 by { Pow2Add(56, 14); }
  }

  /** Every 64-bit value fits the callers' 16-byte scratch buffers. */
  lemma FitsScratch(v: nat, span: Span, mask: byte)
    requires mask + span <= 256 && v < WORD64
    ensures |EncodeInt(v, span, mask)| <= 11
  {
    Pow2Of70();
    if v >= span - 1 {
      GroupsLength(v - (span - 1), 10);
    }
  }

  // ---------------------------------------------------------------- shifts of 64 bits and more

  /**
    Reading these groups, the first shifted by m, comes to one shifted by 64 bits or more, which C++ leaves undefined.
   */
  predicate ShiftsOut(data: seq<byte>, m: nat)
    decreases |data|
  {
    |data| > 0 && (m >= 64 || (data[0] >= 128 && ShiftsOut(data[1..], m + 7)))
  }

  predicate Undefined(data: seq<byte>, span: Span) {
    |data| > 0 && Low(data[0], span) == span - 1 && ShiftsOut(data[1..], 0)
  }

  lemma {:induction false} ShiftsOutIff(data: seq<byte>, k: nat)
    requires k <= 10
    ensures ShiftsOut(data, 7 * k) <==> |data| >= 11 - k && forall i :: 0 <= i < 10 - k ==> data[i] >= 128
    decreases 10 - k
  {
    if |data| > 0 && k < 10 {
      ShiftsOutIff(data[1..], k + 1);
      if |data| >= 11 - k && data[0] >= 128 && forall i :: 0 <= i < 9 - k ==> data[1..][i] >= 128 {
        forall i | 0 <= i < 10 - k ensures data[i] >= 128 {
          assert i == 0 || data[i] == data[1..][i - 1];
        }
      }
    }
  }

  /** Such an input is one with a full prefix and ten further bytes marked as not the last. */
  lemma UndefinedIff(data: seq<byte>, span: Span)
    ensures Undefined(data, span) <==>
              |data| >= 12 && Low(data[0], span) == span - 1 && forall i :: 1 <= i <= 10 ==> data[i] >= 128
  {
    hide Low, ShiftsOut;
    if |data| > 0 {
      ShiftsOutIff(data[1..], 0);
      assert forall i :: 1 <= i < |data| ==> data[i] == data[1..][i - 1];
    }
  }

  lemma {:induction false} GroupsEnd(v: nat)
    ensures Groups(v)[|Groups(v)| - 1] < 128
  {
    if v >= 128 {
      GroupsEnd(v / 128);
    }
  }

  /** No 64-bit value is written in a form whose reading is undefined, whatever follows it. */
  lemma EncodedIsDefined(v: nat, span: Span, mask: byte, rest: seq<byte>)
    requires Mask(mask, span) && v < WORD64
    ensures !Undefined(EncodeInt(v, span, mask) + rest, span)
  {
    hide Low, ShiftsOut, Pow2;
    MaskRoom(mask, span);
    var data := EncodeInt(v, span, mask) + rest;
    UndefinedIff(data, span);
    if v < span - 1 {
      LowBits(mask, span, v);
      assert data[0] == mask + v;
    } else {
      var n := |Groups(v - (span - 1))|;
      FitsScratch(v, span, mask);
      GroupsEnd(v - (span - 1));
      assert data[n] == Groups(v - (span - 1))[n - 1];
    }
  }

  // ---------------------------------------------------------------- the loops

  lemma GroupsUnfold(v: nat)
    ensures Groups(v) == if v < 128 then [v] else [v % 128 + 128] + Groups(v / 128)
  {
  }

  lemma EncodeIntUnfold(v: nat, span: Span, mask: byte)
    requires mask + span <= 256
    ensures EncodeInt(v, span, mask) == if v < span - 1 then [mask + v]
            else [mask + (span - 1)] + Groups(v - (span - 1))
  {
  }

  lemma Reassociate(a: seq<byte>, b: byte, c: seq<byte>)
    ensures a + [b] + c == a + ([b] + c)
  {
  }

  /** Writes into a caller's buffer; 0 means that the buffer is too small. */
  method HpackEncodeInt(buf: array<byte>, value: nat, span: Span, mask: byte) returns (n: nat)
    requires mask + span <= 256
    modifies buf
    ensures n == if |EncodeInt(value, span, mask)| <= buf.Length then |EncodeInt(value, span, mask)| else 0
    ensures n > 0 ==> buf[..n] == EncodeInt(value, span, mask)
  {
    hide Groups, EncodeInt;
    EncodeIntUnfold(value, span, mask);
    ghost var all := EncodeInt(value, span, mask);
    if buf.Length == 0 {
      return 0;
    }
    var maxPrefix := span - 1;
    if value < maxPrefix {
      buf[0] := mask + value;
      return 1;
    }
    buf[0] := mask + maxPrefix;
    var pos: nat := 1;
    var v: nat := value - maxPrefix;
    assert buf[..1] == [mask + maxPrefix];
    while v >= 128
      invariant 1 <= pos <= buf.Length
      invariant buf[..pos] + Groups(v) == all
      decreases v
    {
      GroupsUnfold(v);
      if pos >= buf.Length {
        return 0;
      }
      ghost var before := buf[..pos];
      buf[pos] := v % 128 + 128;
      assert buf[..pos + 1] == before + [v % 128 + 128];
      Reassociate(before, v % 128 + 128, Groups(v / 128));
      pos := pos + 1;
      v := v / 128;
    }
    GroupsUnfold(v);
    if pos >= buf.Length {
      return 0;
    }
    ghost var before := buf[..pos];
    buf[pos] := v;
    assert buf[..pos + 1] == before + [v];
    n := pos + 1;
  }

  ghost function Offset(r: Option<Decoded>, k: nat): Option<Decoded> {
    if r.None? then None else Some(Decoded(r.value.value, r.value.consumed + k))
  }

  lemma DecodeGroupsUnfold(data: seq<byte>, pos: nat, acc: nat, m: nat)
    requires pos <= |data|
    ensures DecodeGroups(data[pos..], acc, m)
         == if pos == |data| then None
            else
              var v := (acc + (data[pos] % 128) * Pow2(m)) % WORD64;
              if data[pos] >= 128 then Offset(DecodeGroups(data[pos + 1..], v, m + 7), 1) else Some(Decoded(v, 1))
  {
    hide Pow2;
    if pos < |data| {
      assert data[pos..][1..] == data[pos + 1..];
      assert data[pos..][0] == data[pos];
    }
  }

  method HpackDecodeInt(data: seq<byte>, span: Span) returns (r: Option<Decoded>)
    ensures r == DecodeInt(data, span)
  {
    hide DecodeGroups, Low, Pow2;
    if |data| == 0 {
      return None;
    }
    var maxPrefix := span - 1;
    var value: nat := Low(data[0], span);
    if value < maxPrefix {
      return Some(Decoded(value, 1));
    }
    var pos, m: nat := 1, 0;
    while true
      invariant 1 <= pos <= |data|
      invariant Offset(DecodeGroups(data[pos..], value, m), pos) == DecodeInt(data, span)
      decreases |data| - pos
    {
      DecodeGroupsUnfold(data, pos, value, m);
      if pos >= |data| {
        return None;
      }
      value := (value + (data[pos] % 128) * Pow2(m)) % WORD64;
      m := m + 7;
      pos := pos + 1;
      if data[pos - 1] < 128 {
        return Some(Decoded(value, pos));
      }
    }
  }
}
