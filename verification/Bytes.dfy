/** Bytes, powers of two and most-significant-bit-first bit strings. */
module Bytes {

  type byte = x: int | 0 <= x < 256

  datatype Option<+T> = None | Some(value: T)

  function Min(a: nat, b: nat): nat {
    if a <= b then a else b
  }

  /** A source string literal as bytes. */
  function Ascii(s: string): seq<byte> {
    seq(|s|, i requires 0 <= i < |s| => (s[i] as int) % 256)
  }

  function Pow2(n: nat): (r: nat)
    ensures r > 0
  {
    if n == 0 then 1 else 2 * Pow2(n - 1)
  }

  lemma {:induction false} Pow2Add(a: nat, b: nat)
    ensures Pow2(a + b) == Pow2(a) * Pow2(b)
  {
    if b > 0 {
      Pow2Add(a, b - 1);
      calc {
        Pow2(a + b);
        2 * Pow2(a + b - 1);
        2 * (Pow2(a) * Pow2(b - 1));
        Pow2(a) * (2 * Pow2(b - 1));
      }
    }
  }

  /** The literal powers the wire formats use. */
  lemma Pow2Literals()
    ensures Pow2(0) == 1 && Pow2(1) == 2 && Pow2(2) == 4 && Pow2(3) == 8
    ensures Pow2(4) == 16 && Pow2(5) == 32 && Pow2(6) == 64 && Pow2(7) == 128 && Pow2(8) == 256
  {
  }

  /** The number a bit string denotes. */
  function Value(bits: seq<bool>): nat {
    if |bits| == 0 then 0
    else 2 * Value(bits[..|bits| - 1]) + (if bits[|bits| - 1] then 1 else 0)
  }

  /** The low n bits of v. */
  function ToBits(v: nat, n: nat): (bits: seq<bool>)
    ensures |bits| == n
  {
    if n == 0 then [] else ToBits(v / 2, n - 1) + [v % 2 == 1]
  }

  function Ones(n: nat): seq<bool> {
    seq(n, _ => true)
  }

  lemma {:induction false} ValueBound(bits: seq<bool>)
    ensures Value(bits) < Pow2(|bits|)
  {
    if |bits| > 0 {
      ValueBound(bits[..|bits| - 1]);
    }
  }

  lemma {:induction false} ValueOfToBits(v: nat, n: nat)
    requires v < Pow2(n)
    ensures Value(ToBits(v, n)) == v
  {
    if n > 0 {
      ValueOfToBits(v / 2, n - 1);
      assert ToBits(v, n)[..n - 1] == ToBits(v / 2, n - 1);
    }
  }

  lemma {:induction false} ToBitsOfValue(bits: seq<bool>)
    ensures ToBits(Value(bits), |bits|) == bits
  {
    if |bits| > 0 {
      var front := bits[..|bits| - 1];
      ToBitsOfValue(front);
      assert Value(bits) / 2 == Value(front);
      assert bits == front + [bits[|bits| - 1]];
    }
  }

  lemma {:induction false} ValueConcat(a: seq<bool>, b: seq<bool>)
    ensures Value(a + b) == Value(a) * Pow2(|b|) + Value(b)
  {
    if |b| == 0 {
      assert a + b == a;
    } else {
      var front := b[..|b| - 1];
      ValueConcat(a, front);
      assert (a + b)[..|a + b| - 1] == a + front;
      calc {
        2 * (Value(a) * Pow2(|front|));
        Value(a) * (2 * Pow2(|front|));
        Value(a) * Pow2(|b|);
      }
    }
  }

  /** The first k of the n bits of v are the bits of v shifted right by n - k. */
  lemma {:induction false} ToBitsPrefix(v: nat, n: nat, k: nat)
    requires k <= n
    ensures ToBits(v, n)[..k] == ToBits(v / Pow2(n - k), k)
    decreases n
  {
    if k < n {
      ToBitsPrefix(v / 2, n - 1, k);
      assert ToBits(v, n)[..k] == ToBits(v / 2, n - 1)[..k];
      HalfThenDivide(v, Pow2(n - 1 - k));
    } else {
      assert ToBits(v, n)[..k] == ToBits(v, n);
    }
  }

  lemma HalfThenDivide(v: nat, d: nat)
    requires d > 0
    ensures (v / 2) / d == v / (2 * d)
  {
    var q := v / (2 * d);
    var r := v % (2 * d);
    assert v == 2 * (q * d) + r;
    assert v / 2 == q * d + r / 2;
    DivideUnique(v / 2, d, q, r / 2);
  }

  lemma Distribute(a: int, b: int, d: int)
    ensures (a - b) * d == a * d - b * d
    ensures (a + b) * d == a * d + b * d
  {
  }

  lemma MultipleAtLeast(k: int, d: int)
    requires k >= 1 && d >= 0
    ensures k * d >= d
  {
  }

  lemma QuotientUnique(d: int, q: int, r: int, q': int, r': int)
    requires d > 0 && 0 <= r < d && 0 <= r' < d && q * d + r == q' * d + r'
    ensures q == q' && r == r'
  {
    Distribute(q, q', d);
    Distribute(q', q, d);
    if q > q' {
      MultipleAtLeast(q - q', d);
    } else if q < q' {
      MultipleAtLeast(q' - q, d);
    }
  }

  /** Euclidean division is determined by its defining equation. */
  lemma DivideUnique(x: int, d: int, q: int, r: int)
    requires d > 0 && 0 <= r < d && x == q * d + r
    ensures x / d == q && x % d == r
  {
    QuotientUnique(d, q, r, x / d, x % d);
  }

  /** The bits of a byte string, eight per byte. */
  function BitsOf(s: seq<byte>): (bits: seq<bool>)
    ensures |bits| == 8 * |s|
  {
    if |s| == 0 then [] else ToBits(s[0], 8) + BitsOf(s[1..])
  }

  lemma {:induction false} BitsOfConcat(a: seq<byte>, b: seq<byte>)
    ensures BitsOf(a + b) == BitsOf(a) + BitsOf(b)
  {
    if |a| == 0 {
      assert a + b == b;
    } else {
      BitsOfConcat(a[1..], b);
      assert (a + b)[1..] == a[1..] + b;
    }
  }
}
