/**
  Chunked bodies as parse_body of src/http/http1_codec.cpp reads them. Positions and sizes are 64-bit:
  a chunk size near 2^64 makes the sum wrap, so the loop can move backwards and need not end.
 */
module Http1Chunks {
  import opened Bytes
  import opened Http1Search

  const SIZE_LIMIT := 0x1_0000_0000_0000_0000

  /** No string of the source is this long. */
  const INT64_LIMIT := 0x8000_0000_0000_0000

  function HexDigit(b: byte): Option<nat> {
    if 48 <= b <= 57 then Some(b - 48)
    else if 97 <= b <= 102 then Some(b - 87)
    else if 65 <= b <= 70 then Some(b - 55)
    else None
  }

  function HexRun(s: seq<byte>, acc: nat): nat
    decreases |s|
  {
    if |s| == 0 || HexDigit(s[0]).None? then acc else HexRun(s[1..], 16 * acc + HexDigit(s[0]).value)
  }

  /** std::from_chars in base 16: the leading digits; none, or too many for a size_t, is an error. */
  function ChunkSize(line: seq<byte>): (r: Option<nat>)
    ensures r.Some? ==> r.value < SIZE_LIMIT
  {
    if |line| == 0 || HexDigit(line[0]).None? || HexRun(line, 0) >= SIZE_LIMIT then None else Some(HexRun(line, 0))
  }

  /** Endless stands for a loop that never ends. */
  datatype Body = Incomplete | BadChunk | Endless | Whole(data: seq<byte>, consumed: nat)

  /** One turn of the loop: it ends with a result, or takes a piece of data and moves to a position. */
  datatype Turn = Stop(r: Body) | Onward(piece: seq<byte>, pos: nat)

  /** The two bytes behind a chunk are skipped unread; a piece never reaches beyond the data. */
  function ChunkTurn(b: seq<byte>, pos: nat): (r: Turn)
    requires pos <= |b|
    ensures r.Onward? ==> r.pos <= |b|
    ensures r.Stop? && r.r.Whole? ==> r.r.data == [] && pos < r.r.consumed <= |b|
    ensures r.Stop? ==> !r.r.Endless?
  {
    match Find(b[pos..], Crlf())
    case None => Stop(Incomplete)
    case Some(e) =>
      var size := ChunkSize(b[pos..pos + e]);
      var from := pos + e + 2;
      if size.None? then Stop(BadChunk)
      else if size.value == 0 then Stop(if from + 2 <= |b| then Whole([], from + 2) else Incomplete)
      else
        var end := (from + size.value + 2) % SIZE_LIMIT;
        if end > |b| then Stop(Incomplete) else Onward(b[from..Min(from + size.value, |b|)], end)
  }

  function UpTo(n: nat): (r: set<nat>)
    ensures forall i: nat :: i in r <==> i <= n
    ensures |r| == n + 1
  {
    if n == 0 then {0} else UpTo(n - 1) + {n}
  }

  function Positions(b: seq<byte>): set<nat> {
    UpTo(|b|)
  }

  function Prepend(piece: seq<byte>, r: Body): Body {
    if r.Whole? then Whole(piece + r.data, r.consumed) else r
  }

  /** A turn depends on the position alone, so a position met again is met for ever. */
  function Walk(b: seq<byte>, pos: nat, seen: set<nat>): (r: Body)
    requires pos <= |b|
    ensures r.Whole? ==> r.consumed <= |b|
    decreases Positions(b) - seen
  {
    if pos in seen then Endless
    else
      match ChunkTurn(b, pos)
      case Stop(r) => r
      case Onward(piece, next) =>
        assert pos in Positions(b);
        Prepend(piece, Walk(b, next, seen + {pos}))
  }

  function Chunks(b: seq<byte>): (r: Body)
    ensures r.Whole? ==> r.consumed <= |b|
  {
    Walk(b, 0, {})
  }

  /** The chunk-size line at a position makes the 64-bit sum wrap. */
  predicate Wraps(b: seq<byte>, pos: nat)
    requires pos <= |b|
  {
    var e := Find(b[pos..], Crlf());
    e.Some? && var size := ChunkSize(b[pos..pos + e.value]);
      size.Some? && size.value > 0 && pos + e.value + 2 + size.value + 2 >= SIZE_LIMIT
  }

  /** Some chunk-size line the loop reads does. */
  predicate Huge(b: seq<byte>, pos: nat, seen: set<nat>)
    requires pos <= |b|
    decreases Positions(b) - seen
  {
    pos !in seen && (Wraps(b, pos)
    || (assert pos in Positions(b); ChunkTurn(b, pos).Onward? && Huge(b, ChunkTurn(b, pos).pos, seen + {pos})))
  }

  // ---------------------------------------------------------------- the loop that never ends

  /** The position after n turns, unless the loop has ended. */
  function After(b: seq<byte>, pos: nat, n: nat): (r: Option<nat>)
    requires pos <= |b|
    ensures r.Some? ==> r.value <= |b|
    decreases n
  {
    if n == 0 then Some(pos)
    else
      match ChunkTurn(b, pos)
      case Stop(_) => None
      case Onward(_, next) => After(b, next, n - 1)
  }

  /** Every position seen leads to another one seen, or to the present one. */
  ghost predicate Closed(b: seq<byte>, pos: nat, seen: set<nat>) {
    forall q :: q in seen ==>
      q <= |b| && ChunkTurn(b, q).Onward? && (ChunkTurn(b, q).pos in seen || ChunkTurn(b, q).pos == pos)
  }

  lemma {:induction false} ClosedRuns(b: seq<byte>, pos: nat, seen: set<nat>, n: nat)
    requires pos in seen && pos <= |b| && Closed(b, pos, seen)
    ensures forall q :: q in seen ==> q <= |b| && After(b, q, n).Some?
    decreases n
  {
    hide ChunkTurn;
    if n > 0 {
      ClosedRuns(b, pos, seen, n - 1);
    }
  }

  lemma {:induction false} EndlessRuns(b: seq<byte>, pos: nat, seen: set<nat>, n: nat)
    requires pos <= |b| && Closed(b, pos, seen) && Walk(b, pos, seen).Endless?
    ensures After(b, pos, n).Some?
    decreases Positions(b) - seen
  {
    hide ChunkTurn;
    if pos in seen {
      ClosedRuns(b, pos, seen, n);
    } else if n > 0 {
      assert pos in Positions(b);
      var next := ChunkTurn(b, pos).pos;
      EndlessRuns(b, next, seen + {pos}, n - 1);
    }
  }

  /** A walk that ends does so within as many turns as there are positions left. */
  lemma {:induction false} EndsSoon(b: seq<byte>, pos: nat, seen: set<nat>) returns (n: nat)
    requires pos <= |b| && !Walk(b, pos, seen).Endless?
    ensures After(b, pos, n).None? && n <= |Positions(b) - seen|
    decreases Positions(b) - seen
  {
    hide ChunkTurn;
    assert pos in Positions(b) - seen;
    if ChunkTurn(b, pos).Stop? {
      n := 1;
      assert |Positions(b) - seen| >= 1;
    } else {
      var rest := Positions(b) - (seen + {pos});
      assert rest == Positions(b) - seen - {pos};
      var k := EndsSoon(b, ChunkTurn(b, pos).pos, seen + {pos});
      n := k + 1;
    }
  }

  /** The outcome Endless is exactly a loop still running after any number of turns. */
  lemma EndlessIff(b: seq<byte>)
    ensures Chunks(b).Endless? <==> forall n: nat :: After(b, 0, n).Some?
  {
    hide ChunkTurn, Walk, After;
    if Chunks(b).Endless? {
      forall n: nat ensures After(b, 0, n).Some? {
        EndlessRuns(b, 0, {}, n);
      }
    } else {
      var n := EndsSoon(b, 0, {});
    }
  }

  // ---------------------------------------------------------------- more data

  lemma NoWrap(x: nat)
    requires x < SIZE_LIMIT
    ensures x % SIZE_LIMIT == x
  {
  }

  /** What the line at a position says does not change when data is added behind. */
  lemma LineExtends(a: seq<byte>, b: seq<byte>, pos: nat)
    requires pos <= |a| && Find(a[pos..], Crlf()).Some?
    ensures Find((a + b)[pos..], Crlf()) == Find(a[pos..], Crlf())
    ensures var e := Find(a[pos..], Crlf()).value; pos + e + 2 <= |a| && (a + b)[pos..pos + e] == a[pos..pos + e]
  {
    hide Find;
    assert (a + b)[pos..] == a[pos..] + b;
    FindStable(a[pos..], b, Crlf());
    var e := Find(a[pos..], Crlf()).value;
    assert (a + b)[pos..pos + e] == a[pos..pos + e];
  }

  /** A turn that has what it needs stays the same, but for the piece of a wrapping line, which grows with the data. */
  lemma TurnExtends(a: seq<byte>, b: seq<byte>, pos: nat)
    requires pos <= |a| && ChunkTurn(a, pos) != Stop(Incomplete)
    ensures Wraps(a + b, pos) == Wraps(a, pos)
    ensures ChunkTurn(a, pos).Stop? ==> ChunkTurn(a + b, pos) == ChunkTurn(a, pos)
    ensures ChunkTurn(a, pos).Onward? ==>
              var t, t' := ChunkTurn(a, pos), ChunkTurn(a + b, pos);
              && t'.Onward? && t'.pos == t.pos && |t.piece| <= |t'.piece|
              && (!Wraps(a, pos) ==> t'.piece == t.piece)
              && (Wraps(a, pos) && |a + b| < INT64_LIMIT ==> |t'.piece| == |t.piece| + |b|)
  {
    hide Find, ChunkSize;
    LineExtends(a, b, pos);
    var e := Find(a[pos..], Crlf()).value;
    var size := ChunkSize(a[pos..pos + e]);
    if size.Some? && size.value > 0 {
      var from := pos + e + 2;
      if from + size.value + 2 < SIZE_LIMIT {
        NoWrap(from + size.value + 2);
        assert (a + b)[from..from + size.value] == a[from..from + size.value];
      }
    }
  }

  lemma LastIsPlain(b: seq<byte>, pos: nat)
    requires pos <= |b|
    ensures ChunkTurn(b, pos).Stop? && ChunkTurn(b, pos).r.Whole? ==> !Wraps(b, pos)
  {
  }

  /** The walk through extended data takes the same turns; its body grows exactly by way of wrapping lines. */
  lemma {:induction false} WalkExtends(a: seq<byte>, b: seq<byte>, pos: nat, seen: set<nat>)
    requires pos <= |a| && !Walk(a, pos, seen).Incomplete?
    ensures Huge(a + b, pos, seen) == Huge(a, pos, seen)
    ensures var r, r' := Walk(a, pos, seen), Walk(a + b, pos, seen);
            && (r.Whole? <==> r'.Whole?) && (!r.Whole? || !Huge(a, pos, seen) ==> r' == r)
            && (r.Whole? ==> r'.consumed == r.consumed && |r'.data| >= |r.data|)
            && (r.Whole? && Huge(a, pos, seen) && b != [] && |a + b| < INT64_LIMIT ==> |r'.data| > |r.data|)
    decreases Positions(a) - seen
  {
    hide ChunkTurn, Wraps;
    if pos !in seen {
      assert pos in Positions(a);
      TurnExtends(a, b, pos);
      LastIsPlain(a, pos);
      if ChunkTurn(a, pos).Onward? {
        WalkExtends(a, b, ChunkTurn(a, pos).pos, seen + {pos});
      }
    }
  }

  /**
    A chunked body, once read, is the same in front of any further data if and only if no line read wraps; errors and
    endless loops always stay.
   */
  lemma ChunksStable(a: seq<byte>)
    requires !Chunks(a).Incomplete? && |a| + 1 < INT64_LIMIT
    ensures (forall b: seq<byte> :: Chunks(a + b) == Chunks(a)) <==> !(Chunks(a).Whole? && Huge(a, 0, {}))
  {
    hide Walk, Huge;
    forall b: seq<byte> ensures (Chunks(a).Whole? && Huge(a, 0, {})) || Chunks(a + b) == Chunks(a) {
      WalkExtends(a, b, 0, {});
    }
    WalkExtends(a, [0], 0, {});
  }

  // ---------------------------------------------------------------- less data

  /** On a prefix a turn is the same, or lacks data. */
  lemma TurnPrefix(b: seq<byte>, k: nat, pos: nat)
    requires pos <= k <= |b|
    ensures ChunkTurn(b[..k], pos) == Stop(Incomplete)
            || (var t, t' := ChunkTurn(b, pos), ChunkTurn(b[..k], pos);
                if t.Stop? then t' == t else t'.Onward? && t'.pos == t.pos)
  {
    assert b[..k] + b[k..] == b;
    if ChunkTurn(b[..k], pos) != Stop(Incomplete) {
      TurnExtends(b[..k], b[k..], pos);
    }
  }

  lemma {:induction false} WalkPrefix(b: seq<byte>, k: nat, pos: nat, seen: set<nat>)
    requires pos <= k <= |b| && Walk(b, pos, seen).Whole? && k < Walk(b, pos, seen).consumed
    ensures Walk(b[..k], pos, seen).Incomplete?
    decreases Positions(b) - seen
  {
    hide ChunkTurn;
    assert pos in Positions(b);
    TurnPrefix(b, k, pos);
    if ChunkTurn(b[..k], pos).Onward? {
      WalkPrefix(b, k, ChunkTurn(b[..k], pos).pos, seen + {pos});
    }
  }

  /** A prefix that lacks a byte of what was consumed is incomplete, never an answer or an error. */
  lemma ChunksPrefix(b: seq<byte>, k: nat)
    requires Chunks(b).Whole? && k < Chunks(b).consumed
    ensures Chunks(b[..k]).Incomplete?
  {
    hide Walk;
    WalkPrefix(b, k, 0, {});
  }

  lemma TurnFits(b: seq<byte>, n: nat, pos: nat)
    requires pos <= n <= |b| && !Wraps(b, pos) && ChunkTurn(b, pos) != Stop(Incomplete)
             && ChunkTurn(b, pos) != Stop(BadChunk)
    requires match ChunkTurn(b, pos) case Stop(r) => r.Whole? && r.consumed <= n case Onward(_, p) => p <= n
    ensures ChunkTurn(b[..n], pos) == ChunkTurn(b, pos)
    ensures ChunkTurn(b, pos).Onward? ==> ChunkTurn(b, pos).pos > pos
  {
    hide Find, ChunkSize;
    var e := Find(b[pos..], Crlf()).value;
    var size := ChunkSize(b[pos..pos + e]).value;
    var from := pos + e + 2;
    assert b[..n][pos..] == b[pos..][..n - pos];
    FoundInPrefix(b[pos..], Crlf(), n - pos);
    assert b[..n][pos..pos + e] == b[pos..pos + e];
    if size > 0 {
      NoWrap(from + size + 2);
      assert b[..n][from..from + size] == b[from..from + size];
    }
  }

  /** Without a wrapping line positions only grow, so nothing behind the end is looked at. */
  lemma {:induction false} WalkFits(b: seq<byte>, n: nat, pos: nat, seen: set<nat>)
    requires pos <= |b| && n <= |b| && Walk(b, pos, seen).Whole? && Walk(b, pos, seen).consumed <= n
             && !Huge(b, pos, seen)
    ensures pos <= n && Walk(b[..n], pos, seen) == Walk(b, pos, seen)
    decreases Positions(b) - seen
  {
    hide ChunkTurn, Wraps;
    assert pos in Positions(b);
    if ChunkTurn(b, pos).Onward? {
      WalkFits(b, n, ChunkTurn(b, pos).pos, seen + {pos});
      TurnGrows(b, pos);
      TurnFits(b, n, pos);
    } else {
      TurnFits(b, n, pos);
    }
  }

  lemma TurnGrows(b: seq<byte>, pos: nat)
    requires pos <= |b| && !Wraps(b, pos) && ChunkTurn(b, pos).Onward?
    ensures ChunkTurn(b, pos).pos > pos
  {
    hide Find, ChunkSize;
    var e := Find(b[pos..], Crlf()).value;
    NoWrap(pos + e + 2 + ChunkSize(b[pos..pos + e]).value + 2);
  }

  /** The consumed bytes alone give the same body if and only if no line read wraps or nothing follows them. */
  lemma ChunksExact(b: seq<byte>)
    requires Chunks(b).Whole? && |b| < INT64_LIMIT
    ensures Chunks(b[..Chunks(b).consumed]) == Chunks(b) <==> !Huge(b, 0, {}) || Chunks(b).consumed == |b|
  {
    hide Walk, Huge;
    var n := Chunks(b).consumed;
    assert b[..n] + b[n..] == b;
    if !Huge(b, 0, {}) {
      WalkFits(b, n, 0, {});
    } else if n == |b| {
      assert b[..n] == b;
    } else if !Chunks(b[..n]).Incomplete? {
      WalkExtends(b[..n], b[n..], 0, {});
    }
  }

  // ---------------------------------------------------------------- the two ways to wrap

  lemma HexStep(s: seq<byte>, acc: nat, rest: seq<byte>, d: nat)
    requires |s| > 0 && s[1..] == rest && HexDigit(s[0]) == Some(d)
    ensures HexRun(s, acc) == HexRun(rest, 16 * acc + d)
  {
  }

  lemma ShiftedFs(less: nat, acc: nat)
    ensures less * (16 * acc + 15) + less - 1 == (16 * less) * acc + 16 * less - 1
  {
    assert less * (16 * acc + 15) == (16 * less) * acc + 15 * less;
  }

  lemma {:induction false} HexOfFs(k: nat, rest: seq<byte>, acc: nat)
    ensures HexRun(seq(k, _ => 70) + rest, acc) == HexRun(rest, Pow2(4 * k) * acc + Pow2(4 * k) - 1)
    decreases k
  {
    hide HexRun, Pow2;
    var s: seq<byte> := seq(k, _ => 70);
    Pow2Literals();
    if k == 0 {
      assert s + rest == rest;
    } else {
      var tail: seq<byte> := seq(k - 1, _ => 70);
      assert (s + rest)[1..] == tail + rest;
      HexStep(s + rest, acc, tail + rest, 15);
      Pow2Add(4 * (k - 1), 4);
      HexOfFs(k - 1, rest, 16 * acc + 15);
      ShiftedFs(Pow2(4 * (k - 1)), acc);
    }
  }

  lemma SixteenDigits(a: byte, b: byte, x: nat, y: nat)
    requires HexDigit(a) == Some(x) && HexDigit(b) == Some(y)
    ensures HexRun(seq(14, _ => 70) + [a, b], 0) == SIZE_LIMIT - 256 + 16 * x + y
  {
    hide Pow2;
    var rest: seq<byte> := [a, b];
    HexOfFs(14, rest, 0);
    assert Pow2(56) == 0x100_0000_0000_0000 by {
      Pow2Literals();
      Pow2Add(8, 8);
      Pow2Add(16, 8);
      Pow2Add(24, 8);
      Pow2Add(32, 8);
      Pow2Add(40, 8);
      Pow2Add(48, 8);
    }
    assert rest[1..] == [b] && [b][1..] == [];
    HexStep(rest, Pow2(56) - 1, [b], x);
    HexStep([b], 16 * (Pow2(56) - 1) + x, [], y);
  }

  /** A size line of fourteen F and two more digits, and what follows. */
  function HugeLine(a: byte, b: byte, rest: seq<byte>): seq<byte> {
    seq(14, _ => 70) + [a, b] + Crlf() + rest
  }

  lemma HugeTurn(a: byte, b: byte, x: nat, y: nat, rest: seq<byte>)
    requires HexDigit(a) == Some(x) && HexDigit(b) == Some(y) && 16 * x + y > 0
    ensures var d, end := HugeLine(a, b, rest), 16 * x + y - 236;
            |d| == 18 + |rest| && (0 <= end <= |d| && |d| < INT64_LIMIT ==>
              Wraps(d, 0) && ChunkTurn(d, 0) == Onward(rest, end))
  {
    hide HexRun, Find;
    var d := HugeLine(a, b, rest);
    var line: seq<byte> := seq(14, _ => 70) + [a, b];
    assert a != CR && b != CR;
    assert d[0..] == d && d[0..16] == line;
    assert Find(d, Crlf()) == Some(16) by {
      assert d[16..18] == Crlf();
      forall i: nat | i < 16 ensures !Occurs(d, Crlf(), i) {
        assert d[i] != CR && (i + 2 <= |d| ==> d[i..i + 2][0] == d[i]);
      }
      FindIs(d, Crlf(), 16);
    }
    SixteenDigits(a, b, x, y);
    assert line[0] == 70;
    if 0 <= 16 * x + y - 236 <= |d| && |d| < INT64_LIMIT {
      assert ChunkSize(line) == Some(SIZE_LIMIT - 256 + 16 * x + y);
      var sum := 18 + (SIZE_LIMIT - 256 + 16 * x + y) + 2;
      assert sum % SIZE_LIMIT == 16 * x + y - 236 by { WrapOnce(16 * x + y - 236); }
      assert d[18..|d|] == rest;
    }
  }

  lemma WrapOnce(x: nat)
    requires x < SIZE_LIMIT
    ensures (SIZE_LIMIT + x) % SIZE_LIMIT == x
  {
  }

  /** The last chunk and whatever follows it. */
  function LastChunk(more: seq<byte>): seq<byte> {
    [48] + Crlf() + Crlf() + more
  }

  lemma LastTurn(b: seq<byte>, pos: nat, more: seq<byte>)
    requires pos <= |b| && b[pos..] == LastChunk(more)
    ensures ChunkTurn(b, pos) == Stop(Whole([], pos + 5))
  {
    var rest := LastChunk(more);
    assert rest[1..3] == Crlf();
    assert !Occurs(rest, Crlf(), 0) by { assert rest[0..2][0] == 48; }
    FindIs(rest, Crlf(), 1);
    assert b[pos..pos + 1] == rest[..1] == [48];
    assert [48][1..] == [];
    assert HexRun([48][1..], 0) == 0;
    assert |b| == pos + |rest|;
  }

  /**
    Size FFFFFFFFFFFFFFFE: the whole rest of the data becomes the body, and each byte that arrives later changes it.
   */
  lemma GrowingBody(more: seq<byte>)
    requires |more| < INT64_LIMIT - 23
    ensures Chunks(HugeLine(70, 69, LastChunk(more))) == Whole(LastChunk(more), 23)
  {
    hide ChunkTurn, Wraps;
    var rest := LastChunk(more);
    var d := HugeLine(70, 69, rest);
    HugeTurn(70, 69, 15, 14, rest);
    assert d[18..] == rest;
    LastTurn(d, 18, more);
    assert Walk(d, 18, {} + {0}) == Whole([], 23);
    assert rest + [] == rest;
  }

  /** Size FFFFFFFFFFFFFFEC: the position comes back to the start, so nothing in the loop ever ends it. */
  lemma EndlessBody(rest: seq<byte>)
    requires |rest| < INT64_LIMIT - 18
    ensures Chunks(HugeLine(69, 67, rest)) == Endless
  {
    hide ChunkTurn, Wraps;
    HugeTurn(69, 67, 14, 12, rest);
    assert Walk(HugeLine(69, 67, rest), 0, {} + {0}) == Endless;
  }

  /** The bytes the loop has gathered in its first n turns. */
  function Gathered(b: seq<byte>, pos: nat, n: nat): seq<byte>
    requires pos <= |b|
    decreases n
  {
    if n == 0 || ChunkTurn(b, pos).Stop? then []
    else ChunkTurn(b, pos).piece + Gathered(b, ChunkTurn(b, pos).pos, n - 1)
  }

  /**
    Only with nothing behind the line does the loop go on for ever in the same state: otherwise it gathers the rest
    once more on every turn, until memory runs out.
   */
  lemma {:induction false} EndlessGathers(rest: seq<byte>, n: nat)
    requires |rest| < INT64_LIMIT - 18
    ensures |Gathered(HugeLine(69, 67, rest), 0, n)| == n * |rest|
    ensures After(HugeLine(69, 67, rest), 0, n) == Some(0)
    decreases n
  {
    hide ChunkTurn, Wraps, HugeLine;
    if n > 0 {
      HugeTurn(69, 67, 14, 12, rest);
      EndlessGathers(rest, n - 1);
      assert n * |rest| == |rest| + (n - 1) * |rest|;
    }
  }

  // ---------------------------------------------------------------- the loop

  lemma {:induction false} AfterSnoc(b: seq<byte>, pos: nat, n: nat)
    requires pos <= |b|
    ensures var before := After(b, pos, n);
            After(b, pos, n + 1)
            == if before.None? || ChunkTurn(b, before.value).Stop? then None else Some(ChunkTurn(b, before.value).pos)
    decreases n
  {
    hide ChunkTurn;
    if n > 0 && ChunkTurn(b, pos).Onward? {
      AfterSnoc(b, ChunkTurn(b, pos).pos, n - 1);
    } else if n == 0 && ChunkTurn(b, pos).Onward? {
      assert After(b, ChunkTurn(b, pos).pos, 0) == Some(ChunkTurn(b, pos).pos);
    }
  }

  lemma {:induction false} StoppedStays(b: seq<byte>, n: nat, m: nat)
    requires n <= m && After(b, 0, n).None?
    ensures After(b, 0, m).None?
    decreases m - n
  {
    hide After, ChunkTurn;
    if n < m {
      AfterSnoc(b, 0, n);
      StoppedStays(b, n + 1, m);
    }
  }

  lemma PrependTwice(a: seq<byte>, b: seq<byte>, r: Body)
    ensures Prepend(a, Prepend(b, r)) == Prepend(a + b, r)
  {
    if r.Whole? {
      assert a + (b + r.data) == a + b + r.data;
    }
  }

  /** The loop, given as many turns as the caller allows: its result, or nothing while it is still running. */
  method ParseChunks(data: seq<byte>, turns: nat) returns (r: Option<Body>)
    ensures r.Some? ==> r.value == Chunks(data)
    ensures r.None? <==> After(data, 0, turns).Some?
  {
    hide ChunkTurn, After;
    var result: seq<byte>, pos: nat := [], 0;
    ghost var seen: set<nat> := {};
    assert After(data, 0, 0) == Some(0) && Chunks(data) == Prepend([], Chunks(data)) by { AtStart(data); }
    for i := 0 to turns
      invariant pos <= |data| && After(data, 0, i) == Some(pos) && Closed(data, pos, seen)
      invariant Chunks(data) == Prepend(result, Walk(data, pos, seen))
    {
      AfterSnoc(data, 0, i);
      match ChunkTurn(data, pos) {
        case Stop(body) =>
          StoppedStays(data, i + 1, turns);
          return Some(Prepend(result, body));
        case Onward(piece, next) =>
          PrependTwice(result, piece, Walk(data, next, seen + {pos}));
          result := result + piece;
          seen := seen + {pos};
          pos := next;
      }
    }
    return None;
  }

  lemma AtStart(b: seq<byte>)
    ensures After(b, 0, 0) == Some(0) && Prepend([], Chunks(b)) == Chunks(b)
  {
    if Chunks(b).Whole? {
      assert [] + Chunks(b).data == Chunks(b).data;
    }
  }

  /** A loop still running after |data| + 1 turns never ends. */
  lemma StillRunningIsEndless(b: seq<byte>)
    requires After(b, 0, |b| + 1).Some?
    ensures Chunks(b) == Endless
  {
    hide After, Walk;
    if !Chunks(b).Endless? {
      var n := EndsSoon(b, 0, {});
      assert Positions(b) - {} == Positions(b);
      StoppedStays(b, n, |b| + 1);
    }
  }
}
