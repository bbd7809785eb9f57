/** The loops of huffman_encode, huffman_is_shorter and huffman_decode. */
module HuffmanCodec {
  import opened Bytes
  import opened Huffman

  const WORD64 := 0x1_0000_0000_0000_0000
  const WORD32 := 0x1_0000_0000

  lemma ModOfMod(x: nat, m: nat, k: nat)
    requires m > 0 && k > 0 && m * k > 0
    ensures (x % (m * k)) % m == x % m
  {
    var q, r := x / (m * k), x % (m * k);
    var q', r' := r / m, r % m;
    assert x == q * (m * k) + r;
    assert r == q' * m + r';
    assert q * (m * k) == (q * k) * m;
    Distribute(q * k, q', m);
    DivideUnique(x, m, q * k + q', r');
  }

  lemma Word64()
    ensures Pow2(64) == WORD64
  {
    assert Pow2(16) == 0x1_0000 by { Pow2Add(8, 8); Pow2Literals(); }
    Pow2Add(16, 16);
    Pow2Add(32, 32);
  }

  lemma WrapKeepsLowBits(x: nat, k: nat)
    requires k <= 64
    ensures (x % WORD64) % Pow2(k) == x % Pow2(k)
  {
    Word64();
    Pow2Add(k, 64 - k);
    ModOfMod(x, Pow2(k), Pow2(64 - k));
  }

  lemma ShiftArithmetic(buf: nat, m: nat, p: nat, v: nat, c: nat)
    requires m > 0 && p > 0 && buf % m == v && v * p + c < m * p
    ensures (buf * p + c) % (m * p) == v * p + c
  {
    var q := buf / m;
    assert buf == q * m + v;
    Distribute(q * m, v, p);
    assert (q * m) * p == q * (m * p);
    DivideUnique(buf * p + c, m * p, q, v * p + c);
  }

  /** Shifting a code into the accumulator appends its bits to the low bits, despite the wrap at 64 bits. */
  lemma ShiftIn(buf: nat, pending: seq<bool>, code: seq<bool>)
    requires |pending| + |code| <= 64
    requires buf % Pow2(|pending|) == Value(pending)
    ensures ((buf * Pow2(|code|) + Value(code)) % WORD64) % Pow2(|pending + code|) == Value(pending + code)
  {
    var m, p := Pow2(|pending|), Pow2(|code|);
    ValueConcat(pending, code);
    ValueBound(pending + code);
    Pow2Add(|pending|, |code|);
    ShiftArithmetic(buf, m, p, Value(pending), Value(code));
    WrapKeepsLowBits(buf * p + Value(code), |pending + code|);
  }

  lemma SplitArithmetic(buf: nat, m: nat, a: nat, b: nat)
    requires m > 0 && a < 256 && b < m && buf % (m * 256) == a * m + b
    ensures (buf / m) % 256 == a && buf % m == b
  {
    var q := buf / (m * 256);
    assert buf == q * (m * 256) + (a * m + b);
    assert q * (m * 256) == (q * 256) * m;
    Distribute(q * 256, a, m);
    DivideUnique(buf, m, q * 256 + a, b);
  }

  /** The top eight pending bits are the byte the loop emits; the rest stay pending. */
  lemma TakeByte(buf: nat, pending: seq<bool>)
    requires |pending| >= 8
    requires buf % Pow2(|pending|) == Value(pending)
    ensures (buf / Pow2(|pending| - 8)) % 256 == Value(pending[..8])
    ensures buf % Pow2(|pending| - 8) == Value(pending[8..])
  {
    var top, rest := pending[..8], pending[8..];
    assert pending == top + rest;
    ValueConcat(top, rest);
    ByteValue(top);
    ValueBound(rest);
    Pow2Add(|rest|, 8);
    Pow2Literals();
    SplitArithmetic(buf, Pow2(|rest|), Value(top), Value(rest));
  }

  lemma TakeByteBits(output: seq<byte>, pending: seq<bool>)
    requires |pending| >= 8
    ensures Value(pending[..8]) < 256
    ensures BitsOf(output + [Value(pending[..8])]) + pending[8..] == BitsOf(output) + pending
  {
    var top := pending[..8];
    ByteValue(top);
    BitsOfConcat(output, [Value(top)]);
    ToBitsOfValue(top);
    assert [Value(top)][1..] == [];
    assert BitsOf([Value(top)]) == top;
    assert pending == top + pending[8..];
  }

  lemma FillLow(shifted: nat, x: nat, y: nat)
    requires shifted % 256 == x && x + y < 256
    ensures (shifted + y) % 256 == x + y
  {
  }

  lemma ShiftZeros(buf: nat, pending: seq<bool>, n: nat)
    requires 0 < |pending| < 8 && n == 8 - |pending|
    requires buf % Pow2(|pending|) == Value(pending)
    ensures ((buf * Pow2(n)) % WORD64) % 256 == Value(pending) * Pow2(n)
  {
    var zeros := ToBits(0, n);
    ValueOfToBits(0, n);
    ShiftIn(buf, pending, zeros);
    ValueConcat(pending, zeros);
    Pow2Literals();
  }

  /** The padded last byte. */
  lemma LastByte(buf: nat, pending: seq<bool>)
    requires 0 < |pending| < 8
    requires buf % Pow2(|pending|) == Value(pending)
    ensures ((buf * Pow2(8 - |pending|)) % WORD64 + (Pow2(8 - |pending|) - 1)) % 256
            == Value(pending + Ones(8 - |pending|))
  {
    var n := 8 - |pending|;
    ShiftZeros(buf, pending, n);
    ValueConcat(pending, Ones(n));
    ValueOfOnes(n);
    ByteValue(pending + Ones(n));
    FillLow((buf * Pow2(n)) % WORD64, Value(pending) * Pow2(n), Pow2(n) - 1);
  }

  /** What the accumulator means: the bits output so far and the pending ones are the bits read so far. */
  ghost predicate Accumulated(bits: seq<bool>, output: seq<byte>, pending: seq<bool>, bitBuf: nat) {
    && bits == BitsOf(output) + pending
    && bitBuf % Pow2(|pending|) == Value(pending)
  }

  lemma AddCode(t: Table, input: seq<byte>, i: nat, output: seq<byte>, pending: seq<bool>, bitBuf: nat)
    requires i < |input| && |pending| < 8
    requires Accumulated(CodeBits(t, input[..i]), output, pending, bitBuf)
    ensures var s := t[input[i]];
            Accumulated(CodeBits(t, input[..i + 1]), output, pending + Symbol(t, input[i]),
              (bitBuf * Pow2(s.bits) + s.code) % WORD64)
  {
    hide CodeBits, Value, BitsOf, Pow2, ToBits;
    assert WellFormed(t);
    var code := Symbol(t, input[i]);
    ValueOfToBits(t[input[i]].code, t[input[i]].bits);
    ShiftIn(bitBuf, pending, code);
    CodeBitsSnoc(t, input, i);
    assert BitsOf(output) + pending + code == BitsOf(output) + (pending + code);
  }

  lemma EmitByte(bits: seq<bool>, output: seq<byte>, pending: seq<bool>, bitBuf: nat)
    requires |pending| >= 8 && Accumulated(bits, output, pending, bitBuf)
    ensures Accumulated(bits, output + [(bitBuf / Pow2(|pending| - 8)) % 256], pending[8..], bitBuf)
  {
    TakeByte(bitBuf, pending);
    TakeByteBits(output, pending);
  }

  /** The inner loop: whole bytes leave the accumulator. */
  method EmitBytes(ghost bits: seq<bool>, done: seq<byte>, ghost held: seq<bool>, bitBuf: nat, count: nat)
    returns (output: seq<byte>, bitCount: nat, ghost pending: seq<bool>)
    requires |held| == count && Accumulated(bits, done, held, bitBuf)
    ensures |pending| == bitCount < 8 && Accumulated(bits, output, pending, bitBuf)
  {
    hide Accumulated, Pow2;
    output, bitCount, pending := done, count, held;
    while bitCount >= 8
      invariant |pending| == bitCount && Accumulated(bits, output, pending, bitBuf)
    {
      EmitByte(bits, output, pending, bitBuf);
      bitCount := bitCount - 8;
      output := output + [(bitBuf / Pow2(bitCount)) % 256];
      pending := pending[8..];
    }
  }

  method HuffmanEncode(t: Table, input: seq<byte>) returns (output: seq<byte>)
    ensures output == Encode(t, input)
  {
    hide CodeBits, BitsOf, Value, Accumulated, ToBits, Pow2;
    assert WellFormed(t);
    NothingYet(t, input);
    var bitBuf: nat, bitCount: nat := 0, 0;
    output := [];
    ghost var pending: seq<bool> := [];
    for i := 0 to |input|
      invariant |pending| == bitCount < 8
      invariant Accumulated(CodeBits(t, input[..i]), output, pending, bitBuf)
    {
      AddCode(t, input, i, output, pending, bitBuf);
      var s := t[input[i]];
      bitBuf := (bitBuf * Pow2(s.bits) + s.code) % WORD64;
      output, bitCount, pending :=
        EmitBytes(CodeBits(t, input[..i + 1]), output, pending + Symbol(t, input[i]), bitBuf, bitCount + s.bits);
    }
    assert input[..|input|] == input;
    AllRead(CodeBits(t, input), output, pending, bitBuf);
    PackAppend(output, pending);
    if bitCount > 0 {
      LastByte(bitBuf, pending);
      bitBuf := (bitBuf * Pow2(8 - bitCount)) % WORD64;
      bitBuf := bitBuf + (Pow2(8 - bitCount) - 1);
      output := output + [bitBuf % 256];
    }
  }

  lemma NothingYet(t: Table, input: seq<byte>)
    ensures Accumulated(CodeBits(t, input[..0]), [], [], 0)
  {
    hide WellFormed;
    assert Pow2(0) == 1;
  }

  lemma AllRead(bits: seq<bool>, output: seq<byte>, pending: seq<bool>, bitBuf: nat)
    requires Accumulated(bits, output, pending, bitBuf)
    ensures bits == BitsOf(output) + pending && bitBuf % Pow2(|pending|) == Value(pending)
  {
  }

  lemma CodeBitsSnoc(t: Table, s: seq<byte>, i: nat)
    requires i < |s|
    ensures CodeBits(t, s[..i + 1]) == CodeBits(t, s[..i]) + Symbol(t, s[i])
  {
    assert s[..i + 1] == s[..i] + [s[i]];
    CodeBitsConcat(t, s[..i], [s[i]]);
    assert [s[i]][1..] == [];
    assert CodeBits(t, [s[i]]) == Symbol(t, s[i]);
  }

  /** True exactly when the Huffman form is shorter than the string. */
  method HuffmanIsShorter(t: Table, input: seq<byte>) returns (shorter: bool)
    ensures shorter <==> |Encode(t, input)| < |input|
  {
    var bits := 0;
    for i := 0 to |input|
      invariant bits == |CodeBits(t, input[..i])|
    {
      CodeBitsSnoc(t, input, i);
      bits := bits + t[input[i]].bits;
    }
    assert input[..|input|] == input;
    PackLength(CodeBits(t, input));
    shorter := (bits + 7) / 8 < |input|;
  }

  /** The linear search for the first symbol with a given code. */
  method Search(t: Table, codeBits: nat, code: nat) returns (hit: Option<byte>)
    ensures hit == Find(t, codeBits, code, 0)
  {
    var sym := 0;
    while sym < 256
      invariant 0 <= sym <= 256
      invariant Find(t, codeBits, code, 0) == Find(t, codeBits, code, sym)
    {
      if t[sym].bits == codeBits && t[sym].code == code {
        return Some(sym);
      }
      sym := sym + 1;
    }
    hit := None;
  }

  lemma NextBit(cur: seq<bool>, b: bool)
    requires |cur| <= 30
    ensures Value(cur + [b]) == (Value(cur) * 2) % WORD32 + (if b then 1 else 0)
  {
    hide Pow2, Value;
    ValueSnoc(cur, b);
    Pow2Of30();
    ValueBound(cur);
    Pow2Up(|cur|, 30);
  }

  lemma ValueSnoc(cur: seq<bool>, b: bool)
    ensures Value(cur + [b]) == 2 * Value(cur) + (if b then 1 else 0)
  {
    assert (cur + [b])[..|cur|] == cur;
  }

  lemma Pow2Of30()
    ensures Pow2(30) == 0x4000_0000
  {
    hide Pow2;
    Pow2Add(15, 15);
    Pow2Add(8, 7);
    Pow2Literals();
  }

  lemma {:induction false} Pow2Up(a: nat, b: nat)
    requires a <= b
    ensures Pow2(a) <= Pow2(b)
    decreases b - a
  {
    if a < b {
      Pow2Up(a, b - 1);
    }
  }

  lemma ByteBit(b: byte, k: nat)
    requires k < 8
    ensures ((b / Pow2(7 - k)) % 2 == 1) == ToBits(b, 8)[k]
  {
    ToBitsPrefix(b, 8, k + 1);
    assert ToBits(b, 8)[..k + 1][k] == ToBits(b, 8)[k];
  }

  lemma {:induction false} BitsOfIndex(data: seq<byte>, i: nat, k: nat)
    requires i < |data| && k < 8
    ensures BitsOf(data)[8 * i + k] == ToBits(data[i], 8)[k]
    decreases i
  {
    if i > 0 {
      BitsOfIndex(data[1..], i - 1, k);
      assert BitsOf(data)[8 * i + k] == BitsOf(data[1..])[8 * (i - 1) + k];
    }
  }

  lemma RunSnoc(t: Table, p: Progress, bits: seq<bool>, n: nat)
    requires n < |bits|
    ensures RunBits(t, p, bits[..n + 1]) == StepBit(t, RunBits(t, p, bits[..n]), bits[n])
  {
    assert bits[..n + 1] == bits[..n] + [bits[n]];
    RunBitsConcat(t, p, bits[..n], [bits[n]]);
    RunOne(t, RunBits(t, p, bits[..n]), bits[n]);
  }

  lemma FailedEarly(t: Table, p: Progress, bits: seq<bool>, n: nat)
    requires n <= |bits| && RunBits(t, p, bits[..n]).Failed?
    ensures RunBits(t, p, bits).Failed?
  {
    assert bits == bits[..n] + bits[n..];
    RunBitsConcat(t, p, bits[..n], bits[n..]);
    FailedStays(t, bits[n..]);
  }

  lemma AllOnes(cur: seq<bool>)
    ensures cur == Ones(|cur|) <==> Value(cur) == Pow2(|cur|) - 1
  {
    ValueOfOnes(|cur|);
    ToBitsOfValue(cur);
    ToBitsOfValue(Ones(|cur|));
  }

  /** Where the decoding loop stands after n bits. */
  ghost predicate Reached(t: Table, data: seq<byte>, n: nat, result: seq<byte>, cur: seq<bool>, code: nat)
    requires n <= 8 * |data|
  {
    && |cur| <= 30 && Value(cur) == code
    && RunBits(t, Running([], []), BitsOf(data)[..n]) == Running(result, cur)
  }

  /** What reading one more bit does. */
  lemma ReadBit(t: Table, data: seq<byte>, i: nat, bit: nat, result: seq<byte>, cur: seq<bool>, code: nat,
        next: nat, n: nat)
    requires i < |data| && bit < 8 && n == 8 * i + 7 - bit
    requires Reached(t, data, n, result, cur, code)
    requires next == (code * 2) % WORD32 + (data[i] / Pow2(bit)) % 2
    ensures var hit := Find(t, |cur| + 1, next, 0);
            if hit.Some? then Reached(t, data, n + 1, result + [hit.value], [], 0)
            else if |cur| == 30 then Decode(t, data) == [] && GivesUp(t, data)
            else Reached(t, data, n + 1, result, cur + [BitsOf(data)[n]], next)
  {
    hide Value, BitsOf, RunBits, Find, ToBits, Pow2, WellFormed;
    NoBits();
    var all := BitsOf(data);
    ByteBit(data[i], 7 - bit);
    BitsOfIndex(data, i, 7 - bit);
    RunSnoc(t, Running([], []), all, n);
    NextBit(cur, all[n]);
    assert next == Value(cur + [all[n]]);
    if Find(t, |cur| + 1, next, 0).None? && |cur| == 30 {
      FailedEarly(t, Running([], []), all, n + 1);
    }
  }

  lemma NoBits()
    ensures Value([]) == 0
  {
  }

  /** The padding test on the accumulator is the padding test on the bits. */
  lemma CheckPadding(t: Table, data: seq<byte>, result: seq<byte>, cur: seq<bool>, code: nat)
    requires Reached(t, data, 8 * |data|, result, cur, code)
    ensures Decode(t, data) == if |cur| > 7 || code % Pow2(|cur|) != Pow2(|cur|) - 1 then [] else result
    ensures !GivesUp(t, data)
  {
    assert BitsOf(data)[..8 * |data|] == BitsOf(data);
    AllOnes(cur);
    ValueBound(cur);
    DivideUnique(code, Pow2(|cur|), 0, code);
  }

  lemma Start(t: Table, data: seq<byte>)
    ensures Reached(t, data, 0, [], [], 0)
  {
    hide WellFormed;
    assert BitsOf(data)[..0] == [];
  }

  /** The decoded bytes, and whether the loop gave up before the last of its input. */
  method HuffmanDecode(t: Table, data: seq<byte>) returns (result: seq<byte>, gaveUp: bool)
    ensures result == Decode(t, data) && gaveUp == GivesUp(t, data)
  {
    hide Value, BitsOf, RunBits, Find, Decode, WellFormed, Reached, GivesUp;
    Start(t, data);
    result, gaveUp := [], false;
    var code: nat, codeBits: nat := 0, 0;
    ghost var cur: seq<bool> := [];
    for i := 0 to |data|
      invariant |cur| == codeBits
      invariant Reached(t, data, 8 * i, result, cur, code)
    {
      var bit := 7;
      while bit >= 0
        invariant -1 <= bit <= 7 && |cur| == codeBits
        invariant Reached(t, data, 8 * i + 7 - bit, result, cur, code)
      {
        ghost var n := 8 * i + 7 - bit;
        var next := (code * 2) % WORD32 + (data[i] / Pow2(bit)) % 2;
        ReadBit(t, data, i, bit, result, cur, code, next, n);
        code := next;
        codeBits := codeBits + 1;
        cur := cur + [BitsOf(data)[n]];
        var hit := Search(t, codeBits, code);
        if hit.Some? {
          result := result + [hit.value];
          code, codeBits, cur := 0, 0, [];
        } else if codeBits > 30 {
          return [], true;
        }
        bit := bit - 1;
      }
    }
    CheckPadding(t, data, result, cur, code);
    if codeBits > 7 {
      return [], false;
    }
    if code % Pow2(codeBits) != Pow2(codeBits) - 1 {
      return [], false;
    }
  }
}
