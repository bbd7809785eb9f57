/**
  The Huffman string code of src/http/hpack.cpp, over any table of codes.
  A table gives each of the 256 byte values a code of 1 to 30 bits. Nothing here
  assumes that the table is prefix-free: the round trip is characterised exactly.
 */
module Huffman {
  import opened Bytes

  datatype Code = Code(code: nat, bits: nat)

  ghost predicate WellFormed(t: seq<Code>) {
    && |t| >= 256
    && forall i :: 0 <= i < 256 ==> 1 <= t[i].bits <= 30 && t[i].code < Pow2(t[i].bits)
  }

  type Table = t: seq<Code> | WellFormed(t) witness seq(256, _ => Code(0, 1))

  // ---------------------------------------------------------------- encoding

  /** The code bits of one byte. */
  function Symbol(t: Table, ch: byte): seq<bool> {
    ToBits(t[ch].code, t[ch].bits)
  }

  /** The concatenated code bits of a string. */
  function CodeBits(t: Table, s: seq<byte>): seq<bool> {
    if |s| == 0 then [] else Symbol(t, s[0]) + CodeBits(t, s[1..])
  }

  lemma {:induction false} CodeBitsConcat(t: Table, a: seq<byte>, b: seq<byte>)
    ensures CodeBits(t, a + b) == CodeBits(t, a) + CodeBits(t, b)
  {
    hide Symbol, WellFormed;
    if |a| == 0 {
      assert a + b == b;
    } else {
      CodeBitsConcat(t, a[1..], b);
      assert (a + b)[1..] == a[1..] + b;
    }
  }

  /** How many one bits fill the last byte. */
  function PadLength(n: nat): (r: nat)
    ensures r < 8 && (n + r) % 8 == 0
  {
    (8 - n % 8) % 8
  }

  lemma ByteValue(bits: seq<bool>)
    requires |bits| == 8
    ensures Value(bits) < 256
  {
    ValueBound(bits);
    Pow2Literals();
  }

  /** Bits cut into bytes, the last one filled with ones. */
  function Pack(bits: seq<bool>): seq<byte> {
    if |bits| == 0 then []
    else if |bits| < 8 then
      ByteValue(bits + Ones(8 - |bits|));
      [Value(bits + Ones(8 - |bits|))]
    else
      ByteValue(bits[..8]);
      [Value(bits[..8])] + Pack(bits[8..])
  }

  function Encode(t: Table, s: seq<byte>): seq<byte> {
    Pack(CodeBits(t, s))
  }

  lemma PackShort(bits: seq<bool>)
    requires 0 < |bits| < 8
    ensures BitsOf(Pack(bits)) == bits + Ones(8 - |bits|)
  {
    var full := bits + Ones(8 - |bits|);
    ToBitsOfValue(full);
    assert Pack(bits) == [Value(full)];
    assert BitsOf(Pack(bits)[1..]) == [];
  }

  lemma PackStep(bits: seq<bool>)
    requires |bits| >= 8
    ensures BitsOf(Pack(bits)) == bits[..8] + BitsOf(Pack(bits[8..]))
  {
    ToBitsOfValue(bits[..8]);
    assert Pack(bits)[1..] == Pack(bits[8..]);
  }

  lemma PadPeriod(n: nat)
    ensures PadLength(n + 8) == PadLength(n)
  {
  }

  /** The packed bytes hold exactly the given bits followed by fewer than eight ones. */
  lemma {:induction false} PackBits(bits: seq<bool>)
    ensures BitsOf(Pack(bits)) == bits + Ones(PadLength(|bits|))
  {
    if |bits| == 0 {
    } else if |bits| < 8 {
      PackShort(bits);
    } else {
      var tail := bits[8..];
      var pad := Ones(PadLength(|tail|));
      PackBits(tail);
      PackStep(bits);
      PadPeriod(|tail|);
      assert bits[..8] + (tail + pad) == bits + pad;
    }
  }

  lemma PackLength(bits: seq<bool>)
    ensures |Pack(bits)| == (|bits| + 7) / 8
  {
    PackBits(bits);
    assert 8 * |Pack(bits)| == |bits| + PadLength(|bits|);
  }

  /** Whole bytes already written followed by a short remainder pack to those bytes and the padded remainder. */
  lemma {:induction false} PackAppend(done: seq<byte>, rest: seq<bool>)
    requires |rest| < 8
    ensures Pack(BitsOf(done) + rest) == done + Pack(rest)
  {
    hide Value, ToBits, Pow2;
    if |done| == 0 {
      assert BitsOf(done) + rest == rest;
    } else {
      var bits := BitsOf(done) + rest;
      PackAppend(done[1..], rest);
      Pow2Literals();
      ValueOfToBits(done[0], 8);
      assert bits[..8] == ToBits(done[0], 8);
      assert bits[8..] == BitsOf(done[1..]) + rest;
    }
  }

  // ---------------------------------------------------------------- decoding

  /** The first symbol at or after `from` whose code has n bits and value v. */
  function Find(t: Table, n: nat, v: nat, from: nat): (r: Option<byte>)
    requires from <= 256
    ensures r.Some? ==> from <= r.value && t[r.value] == Code(v, n)
    ensures r.Some? ==> forall i :: from <= i < r.value ==> t[i] != Code(v, n)
    ensures r.None? ==> forall i :: from <= i < 256 ==> t[i] != Code(v, n)
    decreases 256 - from
  {
    if from == 256 then None
    else if t[from] == Code(v, n) then Some(from)
    else Find(t, n, v, from + 1)
  }

  function Lookup(t: Table, bits: seq<bool>): Option<byte> {
    Find(t, |bits|, Value(bits), 0)
  }

  /** Where the bit-by-bit decoder stands: what it has output and the bits of the unfinished code. */
  datatype Progress = Failed | Running(out: seq<byte>, cur: seq<bool>)

  function StepBit(t: Table, p: Progress, b: bool): Progress {
    if p.Failed? then p
    else
      var cur := p.cur + [b];
      var hit := Lookup(t, cur);
      if hit.Some? then Running(p.out + [hit.value], [])
      else if |cur| > 30 then Failed
      else Running(p.out, cur)
  }

  function RunBits(t: Table, p: Progress, bits: seq<bool>): Progress
    decreases |bits|
  {
    if |bits| == 0 then p else RunBits(t, StepBit(t, p, bits[0]), bits[1..])
  }

  /** The padding test: at most seven bits left, all of them one; otherwise the empty string. */
  function Finish(p: Progress): seq<byte> {
    if p.Failed? || |p.cur| > 7 || p.cur != Ones(|p.cur|) then [] else p.out
  }

  function Decode(t: Table, data: seq<byte>): seq<byte> {
    Finish(RunBits(t, Running([], []), BitsOf(data)))
  }

  /** The bit loop gives up within these bytes: more than 30 bits without a match. */
  predicate GivesUp(t: Table, data: seq<byte>) {
    RunBits(t, Running([], []), BitsOf(data)).Failed?
  }

  lemma {:induction false} RunBitsConcat(t: Table, p: Progress, a: seq<bool>, b: seq<bool>)
    ensures RunBits(t, p, a + b) == RunBits(t, RunBits(t, p, a), b)
    decreases |a|
  {
    hide StepBit, WellFormed;
    if |a| == 0 {
      assert a + b == b;
    } else {
      RunBitsConcat(t, StepBit(t, p, a[0]), a[1..], b);
      assert (a + b)[1..] == a[1..] + b;
    }
  }

  /** Output is never taken back. */
  lemma {:induction false} OutputGrows(t: Table, p: Progress, bits: seq<bool>)
    requires p.Running?
    ensures var r := RunBits(t, p, bits); r.Running? ==> p.out <= r.out
    decreases |bits|
  {
    if |bits| > 0 {
      var q := StepBit(t, p, bits[0]);
      if q.Running? {
        OutputGrows(t, q, bits[1..]);
      } else {
        FailedStays(t, bits[1..]);
      }
    }
  }

  lemma {:induction false} FailedStays(t: Table, bits: seq<bool>)
    ensures RunBits(t, Failed, bits) == Failed
  {
    if |bits| > 0 {
      FailedStays(t, bits[1..]);
    }
  }

  /** No code starts inside these bits. */
  ghost predicate Silent(t: Table, bits: seq<bool>) {
    forall k :: 1 <= k <= |bits| ==> Lookup(t, bits[..k]).None?
  }

  lemma {:induction false} SilentRun(t: Table, out: seq<byte>, bits: seq<bool>)
    requires Silent(t, bits) && |bits| <= 30
    ensures RunBits(t, Running(out, []), bits) == Running(out, bits)
  {
    hide RunBits, Lookup, WellFormed;
    var n := |bits|;
    if n > 0 {
      var front := bits[..n - 1];
      SilentFront(t, bits);
      SilentRun(t, out, front);
      RunBitsConcat(t, Running(out, []), front, [bits[n - 1]]);
      assert front + [bits[n - 1]] == bits == bits[..n];
      RunOne(t, Running(out, front), bits[n - 1]);
    } else {
      RunNone(t, Running(out, []));
      assert bits == [];
    }
  }

  lemma RunNone(t: Table, p: Progress)
    ensures RunBits(t, p, []) == p
  {
  }

  lemma SilentFront(t: Table, bits: seq<bool>)
    requires Silent(t, bits) && |bits| > 0
    ensures Silent(t, bits[..|bits| - 1])
  {
    hide Lookup, WellFormed;
    var front := bits[..|bits| - 1];
    forall k | 1 <= k <= |front| ensures Lookup(t, front[..k]).None? {
      assert front[..k] == bits[..k];
    }
  }

  lemma RunOne(t: Table, p: Progress, b: bool)
    ensures RunBits(t, p, [b]) == StepBit(t, p, b)
  {
    assert [b][1..] == [];
  }

  // ---------------------------------------------------------------- round trip

  /** No proper prefix of ch's code is a code, and ch is the first symbol with its code. */
  ghost predicate Decodable(t: Table, ch: byte) {
    && Silent(t, Symbol(t, ch)[..t[ch].bits - 1])
    && Lookup(t, Symbol(t, ch)) == Some(ch)
  }

  /** The filler bits never complete a code. */
  ghost predicate PaddingSafe(t: Table) {
    Silent(t, Ones(7))
  }

  /** Reading ch's code: the decoder outputs ch exactly when ch is decodable, and another symbol otherwise. */
  lemma SymbolRun(t: Table, out: seq<byte>, ch: byte)
    ensures Decodable(t, ch) ==> RunBits(t, Running(out, []), Symbol(t, ch)) == Running(out + [ch], [])
    ensures !Decodable(t, ch) ==>
              exists k, other: byte :: 1 <= k <= |Symbol(t, ch)| && other != ch
                && RunBits(t, Running(out, []), Symbol(t, ch)[..k]) == Running(out + [other], [])
  {
    var code := Symbol(t, ch);
    var n := |code|;
    ValueOfToBits(t[ch].code, t[ch].bits);
    assert t[ch] == Code(Value(code), n);
    assert code[..n] == code;
    var k := 1;
    while k < n && Lookup(t, code[..k]).None?
      invariant 1 <= k <= n
      invariant Silent(t, code[..k - 1])
    {
      SilentGrows(t, code, k);
      k := k + 1;
    }
    var hit := Lookup(t, code[..k]);
    FirstHit(t, out, code, k);
    if k < n {
      assert t[hit.value].bits == k;
      assert !Silent(t, code[..n - 1]) by {
        assert code[..n - 1][..k] == code[..k];
      }
    }
  }

  lemma SilentGrows(t: Table, code: seq<bool>, k: nat)
    requires 1 <= k <= |code| && Silent(t, code[..k - 1]) && Lookup(t, code[..k]).None?
    ensures Silent(t, code[..k])
  {
    forall j | 1 <= j <= k ensures Lookup(t, code[..k][..j]).None? {
      assert code[..k][..j] == code[..j];
      if j < k {
        assert code[..k - 1][..j] == code[..j];
      }
    }
  }

  lemma FirstHit(t: Table, out: seq<byte>, code: seq<bool>, k: nat)
    requires 1 <= k <= |code| <= 30 && Silent(t, code[..k - 1]) && Lookup(t, code[..k]).Some?
    ensures RunBits(t, Running(out, []), code[..k]) == Running(out + [Lookup(t, code[..k]).value], [])
  {
    SilentRun(t, out, code[..k - 1]);
    RunBitsConcat(t, Running(out, []), code[..k - 1], [code[k - 1]]);
    assert code[..k - 1] + [code[k - 1]] == code[..k];
    RunOne(t, Running(out, code[..k - 1]), code[k - 1]);
  }

  lemma {:induction false} CleanRun(t: Table, out: seq<byte>, s: seq<byte>)
    requires forall ch :: ch in s ==> Decodable(t, ch)
    ensures RunBits(t, Running(out, []), CodeBits(t, s)) == Running(out + s, [])
    decreases |s|
  {
    hide RunBits, Decodable, Symbol, WellFormed;
    if |s| == 0 {
      RunNone(t, Running(out, []));
      assert out + s == out;
    } else {
      assert s[0] in s;
      SymbolRun(t, out, s[0]);
      RunBitsConcat(t, Running(out, []), Symbol(t, s[0]), CodeBits(t, s[1..]));
      CleanRun(t, out + [s[0]], s[1..]);
      assert out + [s[0]] + s[1..] == out + s;
    }
  }

  /** Once another symbol has been read in place of s[i], no continuation recovers s. */
  lemma WrongSymbolStays(t: Table, s: seq<byte>, i: nat, other: byte, rest: seq<bool>)
    requires i < |s| && other != s[i]
    ensures Finish(RunBits(t, Running(s[..i] + [other], []), rest)) != s
  {
    var p := Running(s[..i] + [other], []);
    var final := RunBits(t, p, rest);
    OutputGrows(t, p, rest);
    if final.Running? {
      assert p.out[i] == other;
      assert final.out[i] == p.out[i];
    }
  }

  lemma CodeBitsSplit(t: Table, s: seq<byte>, i: nat)
    requires i < |s|
    ensures CodeBits(t, s) == CodeBits(t, s[..i]) + (Symbol(t, s[i]) + CodeBits(t, s[i + 1..]))
  {
    assert s == s[..i] + s[i..];
    assert s[i..][1..] == s[i + 1..];
    CodeBitsConcat(t, s[..i], s[i..]);
  }

  lemma Regroup(a: seq<bool>, code: seq<bool>, k: nat, b: seq<bool>, c: seq<bool>)
    requires k <= |code|
    ensures (a + (code + b)) + c == a + (code[..k] + (code[k..] + (b + c)))
  {
    assert code == code[..k] + code[k..];
  }

  /** Up to its first undecodable byte a string is read correctly; there another symbol appears. */
  lemma MisreadRun(t: Table, s: seq<byte>, i: nat, tail: seq<bool>)
    requires i < |s| && !Decodable(t, s[i])
    requires forall ch :: ch in s[..i] ==> Decodable(t, ch)
    ensures Finish(RunBits(t, Running([], []), CodeBits(t, s) + tail)) != s
  {
    var good := s[..i];
    var code := Symbol(t, s[i]);
    SymbolRun(t, good, s[i]);
    var k, other: byte :| 1 <= k <= |code| && other != s[i]
      && RunBits(t, Running(good, []), code[..k]) == Running(good + [other], []);
    var rest := code[k..] + (CodeBits(t, s[i + 1..]) + tail);
    var after := CodeBits(t, s[i + 1..]);
    CodeBitsSplit(t, s, i);
    Regroup(CodeBits(t, good), code, k, after, tail);
    CleanRun(t, [], good);
    assert [] + good == good;
    RunBitsConcat(t, Running([], []), CodeBits(t, good), code[..k] + rest);
    RunBitsConcat(t, Running(good, []), code[..k], rest);
    WrongSymbolStays(t, s, i, other, rest);
  }

  lemma CleanRoundTrip(t: Table, s: seq<byte>)
    requires PaddingSafe(t)
    requires forall ch :: ch in s ==> Decodable(t, ch)
    ensures Decode(t, Encode(t, s)) == s
  {
    hide Value, WellFormed, RunBits, Lookup, CodeBits, Pack, Decodable;
    var bits := CodeBits(t, s);
    var pad := Ones(PadLength(|bits|));
    PackBits(bits);
    CleanRun(t, [], s);
    assert [] + s == s;
    RunBitsConcat(t, Running([], []), bits, pad);
    forall k | 1 <= k <= |pad| ensures Lookup(t, pad[..k]).None? {
      assert pad[..k] == Ones(7)[..k];
    }
    SilentRun(t, s, pad);
  }

  /**
    Filler behind a decodable string is accepted if and only if it is at most seven ones; else the whole is refused
    (section 5.2 of RFC 7541).
   */
  lemma FillerIff(t: Table, s: seq<byte>, filler: seq<bool>, data: seq<byte>)
    requires (forall ch :: ch in s ==> Decodable(t, ch)) && Silent(t, filler) && |filler| <= 30
    requires BitsOf(data) == CodeBits(t, s) + filler
    ensures Decode(t, data) == if |filler| <= 7 && (forall i :: 0 <= i < |filler| ==> filler[i]) then s else []
  {
    hide Value, WellFormed, RunBits, Lookup, CodeBits, Decodable, Silent;
    CleanRun(t, [], s);
    assert [] + s == s;
    RunBitsConcat(t, Running([], []), CodeBits(t, s), filler);
    SilentRun(t, s, filler);
    var ones := Ones(|filler|);
    assert filler == ones <==> forall i :: 0 <= i < |filler| ==> filler[i] == ones[i];
  }

  lemma {:induction false} FirstUndecodable(t: Table, s: seq<byte>) returns (i: nat)
    requires exists ch :: ch in s && !Decodable(t, ch)
    ensures i < |s| && !Decodable(t, s[i])
    ensures forall ch :: ch in s[..i] ==> Decodable(t, ch)
  {
    if !Decodable(t, s[0]) {
      i := 0;
    } else {
      assert s == [s[0]] + s[1..];
      var j := FirstUndecodable(t, s[1..]);
      i := j + 1;
      assert s[..i] == [s[0]] + s[1..][..j];
    }
  }

  /** The code is lossless on s exactly when every byte of s is decodable. */
  lemma RoundTrip(t: Table, s: seq<byte>)
    requires PaddingSafe(t)
    ensures Decode(t, Encode(t, s)) == s <==> forall ch :: ch in s ==> Decodable(t, ch)
  {
    if forall ch :: ch in s ==> Decodable(t, ch) {
      CleanRoundTrip(t, s);
    } else {
      var i := FirstUndecodable(t, s);
      PackBits(CodeBits(t, s));
      MisreadRun(t, s, i, Ones(PadLength(|CodeBits(t, s)|)));
    }
  }

  /** The code c1 is a prefix of the code c2. */
  ghost predicate PrefixOf(c1: Code, c2: Code) {
    c1.bits <= c2.bits && c2.code / Pow2(c2.bits - c1.bits) == c1.code
  }

  lemma QuotientBelow(x: nat, m: nat, d: nat)
    requires d > 0 && x < m * d
    ensures x / d < m
  {
    var q := x / d;
    assert x == q * d + x % d;
    if q >= m {
      ProductUp(m, q, d);
    }
  }

  lemma ProductUp(a: nat, b: nat, d: nat)
    requires a <= b
    ensures a * d <= b * d
  {
  }

  lemma PrefixValue(t: Table, ch: byte, k: nat)
    requires 1 <= k <= t[ch].bits
    ensures Value(Symbol(t, ch)[..k]) == t[ch].code / Pow2(t[ch].bits - k)
  {
    hide Value, ToBits, Pow2;
    var c := t[ch];
    assert WellFormed(t);
    ToBitsPrefix(c.code, c.bits, k);
    Pow2Add(k, c.bits - k);
    QuotientBelow(c.code, Pow2(k), Pow2(c.bits - k));
    ValueOfToBits(c.code / Pow2(c.bits - k), k);
  }

  /** Looking up the first k bits of ch's code finds the symbols whose k-bit code is a prefix of it. */
  lemma PrefixLookup(t: Table, ch: byte, k: nat)
    requires 1 <= k <= t[ch].bits
    ensures var hit := Lookup(t, Symbol(t, ch)[..k]);
            && (hit.Some? ==> t[hit.value].bits == k && PrefixOf(t[hit.value], t[ch]))
            && forall a: byte :: t[a].bits == k && PrefixOf(t[a], t[ch]) ==> hit.Some?
  {
    PrefixValue(t, ch, k);
  }

  /** With distinct codes, a byte is decodable exactly when no other symbol's code is a prefix of its code. */
  lemma DecodableIff(t: Table, ch: byte)
    requires forall a: byte :: a != ch ==> t[a] != t[ch]
    ensures Decodable(t, ch) <==> forall a: byte :: a != ch ==> !PrefixOf(t[a], t[ch])
  {
    var code, n := Symbol(t, ch), t[ch].bits;
    assert code[..n] == code;
    PrefixLookup(t, ch, n);
    assert t[ch].code / 1 == t[ch].code;
    forall a: byte | a != ch && PrefixOf(t[a], t[ch]) ensures !Decodable(t, ch) {
      var k := t[a].bits;
      PrefixLookup(t, ch, k);
      if k < n {
        assert code[..n - 1][..k] == code[..k];
      }
    }
    if forall a: byte :: a != ch ==> !PrefixOf(t[a], t[ch]) {
      UnprefixedSilent(t, ch);
    }
  }

  lemma UnprefixedSilent(t: Table, ch: byte)
    requires forall a: byte :: a != ch ==> !PrefixOf(t[a], t[ch])
    ensures Silent(t, Symbol(t, ch)[..t[ch].bits - 1])
  {
    var front := Symbol(t, ch)[..t[ch].bits - 1];
    forall k | 1 <= k <= |front| ensures Lookup(t, front[..k]).None? {
      assert front[..k] == Symbol(t, ch)[..k];
      PrefixLookup(t, ch, k);
    }
  }

  /** When prefix pairs are known, so are the undecodable bytes. */
  lemma DecodableByPairs(t: Table, ch: byte, special: byte, bad: set<byte>)
    requires special !in bad
    requires forall a: byte :: a != ch ==> t[a] != t[ch]
    requires forall a: byte :: a != ch ==> (PrefixOf(t[a], t[ch]) <==> a == special && ch in bad)
    ensures Decodable(t, ch) <==> ch !in bad
  {
    DecodableIff(t, ch);
    if ch in bad {
      assert PrefixOf(t[special], t[ch]);
    }
  }

  /** Filler bits are silent when no symbol has an all-ones code of at most seven bits. */
  lemma PaddingSafeIf(t: Table)
    requires forall a: byte :: t[a].bits <= 7 ==> t[a].code != Pow2(t[a].bits) - 1
    ensures PaddingSafe(t)
  {
    forall k | 1 <= k <= 7 ensures Lookup(t, Ones(7)[..k]).None? {
      assert Ones(7)[..k] == Ones(k);
      ValueOfOnes(k);
    }
  }

  /** Where no code consists of ones, the bit loop gives up within four FF bytes. */
  lemma OnesGiveUp(t: Table)
    requires forall a: byte :: t[a].code != Pow2(t[a].bits) - 1
    ensures GivesUp(t, [255, 255, 255, 255])
  {
    hide RunBits, WellFormed, Value, Pow2;
    var data: seq<byte> := [255, 255, 255, 255];
    assert BitsOf(data) == Ones(30) + [true] + [true] by { FourFull(data); }
    assert Silent(t, Ones(30)) by {
      forall k | 1 <= k <= 30 ensures Lookup(t, Ones(30)[..k]).None? {
        assert Ones(30)[..k] == Ones(k);
        ValueOfOnes(k);
      }
    }
    SilentRun(t, [], Ones(30));
    var start := Running([], []);
    RunBitsConcat(t, start, Ones(30), [true]);
    RunOne(t, Running([], Ones(30)), true);
    assert Lookup(t, Ones(30) + [true]).None? by { TooLongToFind(t, Ones(30) + [true]); }
    RunBitsConcat(t, start, Ones(30) + [true], [true]);
    FailedStays(t, [true]);
  }

  lemma TooLongToFind(t: Table, bits: seq<bool>)
    requires |bits| > 30
    ensures Lookup(t, bits).None?
  {
  }

  lemma FourFull(data: seq<byte>)
    requires data == [255, 255, 255, 255]
    ensures BitsOf(data) == Ones(30) + [true] + [true]
  {
    hide ToBits;
    assert ToBits(255, 8) == Ones(8) by {
      ValueOfOnes(8);
      Pow2Literals();
      ToBitsOfValue(Ones(8));
    }
    var rest := data[1..];
    assert rest == [255, 255, 255] && rest[1..] == [255, 255] && rest[1..][1..] == [255] && rest[1..][1..][1..] == [];
    assert BitsOf(rest[1..][1..][1..]) == [];
    assert BitsOf(rest[1..][1..]) == Ones(8);
    assert BitsOf(rest[1..]) == Ones(16);
    assert BitsOf(rest) == Ones(24);
    assert BitsOf(data) == Ones(32);
    assert Ones(32) == Ones(30) + [true] + [true];
  }

  lemma {:induction false} ValueOfOnes(n: nat)
    ensures Value(Ones(n)) == Pow2(n) - 1
  {
    if n > 0 {
      ValueOfOnes(n - 1);
      assert Ones(n)[..n - 1] == Ones(n - 1);
    }
  }
}
