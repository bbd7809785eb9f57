/**
  The HTTP/1.1 request parser of src/http/http1_codec.cpp, which is run again on a growing buffer,
  and the read loop of src/http/server_impl.cpp that does so.
 */
module Http1 {
  import opened Bytes
  import opened DynamicTable
  import opened HttpTypes
  import opened Http1Search
  import opened Http1Chunks

  const SPACE: byte := 32
  const TAB: byte := 9
  const COLON: byte := 58

  // ---------------------------------------------------------------- header lines

  function TrimRight(s: seq<byte>): seq<byte> {
    if |s| > 0 && (s[|s| - 1] == SPACE || s[|s| - 1] == TAB) then TrimRight(s[..|s| - 1]) else s
  }

  function TrimLeft(s: seq<byte>): seq<byte> {
    if |s| > 0 && (s[0] == SPACE || s[0] == TAB) then TrimLeft(s[1..]) else s
  }

  datatype Folded = Folded(line: seq<byte>, rest: seq<byte>)

  /** Continuation lines are joined with one space. */
  function Unfold(line: seq<byte>, rest: seq<byte>): (r: Folded)
    ensures |r.rest| <= |rest|
    decreases |rest|
  {
    if |rest| > 0 && (rest[0] == SPACE
      || rest[0] == TAB) && Find(rest, Crlf()).Some? && Find(rest, Crlf()).value > 0 then
      var e := Find(rest, Crlf()).value;
      Unfold(line + [SPACE] + rest[1..e], rest[e + 2..])
    else Folded(line, rest)
  }

  /** The field of a line, if it has a colon. */
  function LineField(line: seq<byte>): Option<Field> {
    var colon := IndexOf(line, COLON);
    if colon == |line| then None
    else Some(Field(TrimRight(line[..colon]), TrimRight(TrimLeft(line[colon + 1..]))))
  }

  function HeaderLines(block: seq<byte>): seq<Field>
    decreases |block|
  {
    var e := Find(block, Crlf());
    if e.None? || e.value == 0 then []
    else
      var f := Unfold(block[..e.value], block[e.value + 2..]);
      var rest := HeaderLines(f.rest);
      match LineField(f.line)
      case None => rest
      case Some(field) => [field] + rest
  }

  // ---------------------------------------------------------------- bodies

  /** The value of Content-Length: a leading decimal number, unless negative, absent or too large. */
  function ContentLength(hdrs: seq<Field>): Option<nat> {
    var v := Get(hdrs, Ascii("Content-Length"));
    if v.None? || |v.value| == 0 || !(48 <= v.value[0] <= 57) then None
    else if DigitRun(v.value, 0) >= INT64_LIMIT then None
    else Some(DigitRun(v.value, 0))
  }

  predicate IsChunked(hdrs: seq<Field>) {
    var v := Get(hdrs, Ascii("Transfer-Encoding"));
    v.Some? && Find(Lower(v.value), Ascii("chunked")).Some?
  }

  function ParseBody(data: seq<byte>, hdrs: seq<Field>): (r: Body)
    ensures r.Whole? ==> r.consumed <= |data|
  {
    if IsChunked(hdrs) then Chunks(data)
    else
      match ContentLength(hdrs)
      case None => Whole([], 0)
      case Some(n) => if |data| < n then Incomplete else Whole(data[..n], n)
  }

  // ---------------------------------------------------------------- requests

  /** Malformed stands for the exceptions the parser throws, Hangs for a call that never returns. */
  datatype Outcome = NeedMore | Malformed | Hangs | Parsed(req: Request, consumed: nat)

  datatype Head = BadHead | Head(req: Request)

  /** The request line and the header lines: everything before the body, as one piece of text. */
  function ParseHead(text: seq<byte>): Head
    requires |text| >= 4 && Find(text, Crlf()).Some? && Find(text, Crlf()).value + 4 <= |text|
  {
    var e := Find(text, Crlf()).value;
    var line := text[..e];
    var sp1 := IndexOf(line, SPACE);
    if sp1 == |line| then BadHead
    else
      var after := line[sp1 + 1..];
      var sp2 := IndexOf(after, SPACE);
      var verb := ParseMethod(line[..sp1]);
      if sp2 == |after| || verb.None? then BadHead
      else
        var version := if after[sp2 + 1..] == Ascii("HTTP/1.0") then Http10 else Http11;
        var req := SetPath(EmptyRequest(), after[..sp2]);
        Head(req.(verb := verb.value, version := version, hdrs := HeaderLines(text[e + 2..|text| - 2])))
  }

  function Blank(): (r: seq<byte>)
    ensures r == Crlf() + Crlf()
  {
    [CR, LF, CR, LF]
  }

  /** The first line ends at or before the blank line. */
  lemma FirstLine(d: seq<byte>)
    requires Find(d, Blank()).Some?
    ensures var end := Find(d, Blank()).value + 4;
            Find(d[..end], Crlf()).Some? && Find(d[..end], Crlf()).value + 4 <= end
  {
    hide Find;
    var i := Find(d, Blank()).value;
    var text := d[..i + 4];
    FindMeans(d, Blank());
    assert text[i..i + 2] == d[i..i + 4][..2] == Crlf();
    assert Occurs(text, Crlf(), i);
    FindMeans(text, Crlf());
  }

  function ParseRequest(d: seq<byte>): (r: Outcome)
    ensures r.Parsed? ==> r.consumed <= |d|
  {
    match Find(d, Blank())
    case None => NeedMore
    case Some(i) =>
      FirstLine(d);
      match ParseHead(d[..i + 4])
      case BadHead => Malformed
      case Head(req) =>
        match ParseBody(d[i + 4..], req.hdrs)
        case Incomplete => NeedMore
        case BadChunk => Malformed
        case Endless => Hangs
        case Whole(data, n) => Parsed(req.(body := data), i + 4 + n)
  }

  /** The parser reads a chunk-size line whose 64-bit sum wraps. */
  predicate ReadsHuge(d: seq<byte>) {
    var i := Find(d, Blank());
    i.Some? &&
    (FirstLine(d);
     var h := ParseHead(d[..i.value + 4]);
     h.Head? && IsChunked(h.req.hdrs) && Huge(d[i.value + 4..], 0, {}))
  }

  // ---------------------------------------------------------------- more data

  /** A body behind which data arrives: the same answer, but for what wrapping lines take of it. */
  lemma BodyExtends(a: seq<byte>, b: seq<byte>, hdrs: seq<Field>)
    requires !ParseBody(a, hdrs).Incomplete?
    ensures IsChunked(hdrs) ==> Huge(a + b, 0, {}) == Huge(a, 0, {})
    ensures var r, r' := ParseBody(a, hdrs), ParseBody(a + b, hdrs);
            var huge := IsChunked(hdrs) && Huge(a, 0, {});
            && (r.Whole? <==> r'.Whole?) && (!r.Whole? || !huge ==> r' == r)
            && (r.Whole? ==> r'.consumed == r.consumed)
            && (r.Whole? && huge && b != [] && |a + b| < INT64_LIMIT ==> |r'.data| > |r.data|)
  {
    hide IsChunked, ContentLength, Walk, Huge, Find;
    if IsChunked(hdrs) {
      WalkExtends(a, b, 0, {});
    } else if ContentLength(hdrs).Some? && |a| >= ContentLength(hdrs).value {
      var n := ContentLength(hdrs).value;
      assert (a + b)[..n] == a[..n];
    }
  }

  lemma RequestExtends(d: seq<byte>, more: seq<byte>)
    requires !ParseRequest(d).NeedMore?
    ensures var r, r' := ParseRequest(d), ParseRequest(d + more);
            && (r.Parsed? <==> r'.Parsed?) && (!(r.Parsed? && ReadsHuge(d)) ==> r' == r)
            && (r.Parsed? && ReadsHuge(d) && more != [] && |d + more| < INT64_LIMIT ==> |r'.req.body| > |r.req.body|)
            && ReadsHuge(d + more) == ReadsHuge(d)
  {
    hide ParseHead, ParseBody, Find, Huge, IsChunked;
    FindStable(d, more, Blank());
    var i := Find(d, Blank()).value;
    FirstLine(d);
    FirstLine(d + more);
    assert (d + more)[..i + 4] == d[..i + 4];
    assert (d + more)[i + 4..] == d[i + 4..] + more;
    if ParseHead(d[..i + 4]).Head? {
      BodyExtends(d[i + 4..], more, ParseHead(d[..i + 4]).req.hdrs);
    }
  }

  /**
    An answer is the same for every extension of the data if and only if it is not a request for which a wrapping
    chunk-size line was read; errors, and calls that never return, always stay.
   */
  lemma ExtensionStable(d: seq<byte>)
    requires !ParseRequest(d).NeedMore? && |d| + 1 < INT64_LIMIT
    ensures (forall more: seq<byte> :: ParseRequest(d + more) == ParseRequest(d)) <==>
              !(ParseRequest(d).Parsed? && ReadsHuge(d))
  {
    hide ParseRequest, ReadsHuge;
    forall more: seq<byte> ensures (ParseRequest(d).Parsed? && ReadsHuge(d))
    || ParseRequest(d + more) == ParseRequest(d) {
      RequestExtends(d, more);
    }
    RequestExtends(d, [0]);
  }

  // ---------------------------------------------------------------- less data

  lemma BodyPrefix(data: seq<byte>, hdrs: seq<Field>, k: nat)
    requires ParseBody(data, hdrs).Whole? && k < ParseBody(data, hdrs).consumed
    ensures ParseBody(data[..k], hdrs).Incomplete?
  {
    hide IsChunked, ContentLength, Chunks, Find;
    if IsChunked(hdrs) {
      ChunksPrefix(data, k);
    }
  }

  /** Every prefix shorter than what was consumed asks for more data, for both body forms, wrapping lines or not. */
  lemma PrefixNeedsMore(d: seq<byte>, k: nat)
    requires ParseRequest(d).Parsed? && k < ParseRequest(d).consumed
    ensures ParseRequest(d[..k]).NeedMore?
  {
    hide ParseHead, ParseBody, Find;
    var end := Find(d, Blank()).value + 4;
    if k < end {
      FindPrefix(d, Blank(), k);
    } else {
      FoundInPrefix(d, Blank(), k);
      FirstLine(d);
      FirstLine(d[..k]);
      assert d[..k][..end] == d[..end];
      assert d[..k][end..] == d[end..][..k - end];
      BodyPrefix(d[end..], ParseHead(d[..end]).req.hdrs, k - end);
    }
  }

  lemma BodyExact(data: seq<byte>, hdrs: seq<Field>)
    requires ParseBody(data, hdrs).Whole? && |data| < INT64_LIMIT
    ensures var n := ParseBody(data, hdrs).consumed;
            ParseBody(data[..n], hdrs) == ParseBody(data, hdrs) <==>
              !(IsChunked(hdrs) && Huge(data, 0, {})) || n == |data|
  {
    hide IsChunked, ContentLength, Chunks, Find, Huge;
    var n := ParseBody(data, hdrs).consumed;
    if IsChunked(hdrs) {
      ChunksExact(data);
    } else if ContentLength(hdrs).Some? {
      assert data[..n][..n] == data[..n];
    }
  }

  /**
    The consumed bytes alone give the same request if and only if no wrapping line was read or nothing follows them.
   */
  lemma ExactlyConsumed(d: seq<byte>)
    requires ParseRequest(d).Parsed? && |d| < INT64_LIMIT
    ensures ParseRequest(d[..ParseRequest(d).consumed]) == ParseRequest(d) <==>
              !ReadsHuge(d) || ParseRequest(d).consumed == |d|
  {
    hide ParseHead, ParseBody, Find, IsChunked, Huge;
    var n := ParseRequest(d).consumed;
    var end := Find(d, Blank()).value + 4;
    FoundInPrefix(d, Blank(), n);
    FirstLine(d);
    FirstLine(d[..n]);
    assert d[..n][..end] == d[..end];
    assert d[..n][end..] == d[end..][..n - end];
    BodyExact(d[end..], ParseHead(d[..end]).req.hdrs);
  }

  // ---------------------------------------------------------------- the loops

  /** The folding loop, from a position in the block. */
  method UnfoldFrom(block: seq<byte>, start: nat, first: seq<byte>) returns (line: seq<byte>, pos: nat)
    requires start <= |block|
    ensures start <= pos <= |block| && Folded(line, block[pos..]) == Unfold(first, block[start..])
  {
    hide Find;
    line, pos := first, start;
    while pos < |block| && (block[pos] == SPACE || block[pos] == TAB)
      invariant start <= pos <= |block| && Unfold(line, block[pos..]) == Unfold(first, block[start..])
      decreases |block| - pos
    {
      var e := Find(block[pos..], Crlf());
      if e.None? || e.value == 0 {
        break;
      }
      assert block[pos..][1..e.value] == block[pos + 1..pos + e.value];
      assert block[pos..][e.value + 2..] == block[pos + e.value + 2..];
      line := line + [SPACE] + block[pos + 1..pos + e.value];
      pos := pos + e.value + 2;
    }
  }

  method ParseHeaderLines(block: seq<byte>) returns (hdrs: seq<Field>)
    ensures hdrs == HeaderLines(block)
  {
    hide Find, LineField, Unfold;
    hdrs := [];
    var pos := 0;
    assert block[0..] == block;
    while pos < |block|
      invariant 0 <= pos <= |block| && hdrs + HeaderLines(block[pos..]) == HeaderLines(block)
      decreases |block| - pos
    {
      var e := Find(block[pos..], Crlf());
      if e.None? || e.value == 0 {
        return;
      }
      var line := block[pos..pos + e.value];
      assert block[pos..][..e.value] == line;
      assert block[pos..][e.value + 2..] == block[pos + e.value + 2..];
      line, pos := UnfoldFrom(block, pos + e.value + 2, line);
      var field := LineField(line);
      if field.Some? {
        hdrs := hdrs + [field.value];
      }
    }
    assert HeaderLines(block[pos..]) == [] by { NothingFound(block[pos..]); }
  }

  lemma NothingFound(s: seq<byte>)
    requires |s| == 0
    ensures Find(s, Crlf()).None?
  {
  }

  function Concat(chunks: seq<seq<byte>>): seq<byte> {
    if |chunks| == 0 then [] else Concat(chunks[..|chunks| - 1]) + chunks[|chunks| - 1]
  }

  lemma {:induction false} ConcatPrefix(chunks: seq<seq<byte>>, k: nat, m: nat)
    requires k <= m <= |chunks|
    ensures Concat(chunks[..k]) <= Concat(chunks[..m])
    decreases m
  {
    if k < m {
      ConcatPrefix(chunks, k, m - 1);
      assert chunks[..m][..m - 1] == chunks[..m - 1];
    }
  }

  const ATTEMPTS := 1000

  /** How many chunks have been read when parsing the buffer first gives an answer, or m if it never does. */
  function AnswerAt(chunks: seq<seq<byte>>, from: nat, m: nat): (j: nat)
    requires from <= m <= |chunks|
    ensures from <= j <= m
    ensures j < m ==> !ParseRequest(Concat(chunks[..j])).NeedMore?
    ensures forall i :: from <= i < j ==> ParseRequest(Concat(chunks[..i])).NeedMore?
    decreases m - from
  {
    if from == m || !ParseRequest(Concat(chunks[..from])).NeedMore? then from else AnswerAt(chunks, from + 1, m)
  }

  /** How many reads the server makes for one request. */
  function Taken(chunks: seq<seq<byte>>): (j: nat)
    ensures j <= |chunks|
  {
    AnswerAt(chunks, 0, Min(|chunks|, ATTEMPTS - 1))
  }

  /**
    The read loop of the server: parse, read, append, parse again, until there is an answer, no more data or no
    attempt left.
   */
  method ReadRequest(chunks: seq<seq<byte>>) returns (r: Outcome, used: nat)
    ensures r == ParseRequest(Concat(chunks[..Taken(chunks)]))
    ensures used <= |chunks| && (!r.NeedMore? ==> used == Taken(chunks))
  {
    hide ParseRequest, Concat;
    ghost var m := Min(|chunks|, ATTEMPTS - 1);
    ghost var j := Taken(chunks);
    var buffer: seq<byte> := [];
    assert Concat(chunks[..0]) == [] by { NoChunks(chunks[..0]); }
    r, used := NeedMore, 0;
    while used < ATTEMPTS
      invariant 0 <= used <= ATTEMPTS && used <= |chunks| && r == NeedMore
      invariant buffer == Concat(chunks[..used])
      invariant used <= j || (j == m && ParseRequest(Concat(chunks[..m])) == NeedMore && used == m + 1 == ATTEMPTS)
      decreases ATTEMPTS - used
    {
      r := ParseRequest(buffer);
      if !r.NeedMore? || used == |chunks| {
        return;
      }
      AppendChunk(chunks, used);
      buffer := buffer + chunks[used];
      used := used + 1;
    }
  }

  /**
    Reading in pieces answers what one parse of everything read answers, unless a wrapping line was read before the
    last byte.
   */
  lemma PiecesOrWhole(chunks: seq<seq<byte>>, m: nat)
    requires m <= |chunks| && |Concat(chunks[..m])| < INT64_LIMIT
    ensures var got, all := Concat(chunks[..AnswerAt(chunks, 0, m)]), Concat(chunks[..m]);
            && got <= all
            && (ParseRequest(got) == ParseRequest(all) <==>
              !(ParseRequest(got).Parsed? && ReadsHuge(got)) || got == all)
  {
    hide ParseRequest, Concat, ReadsHuge;
    var j := AnswerAt(chunks, 0, m);
    var got, all := Concat(chunks[..j]), Concat(chunks[..m]);
    ConcatPrefix(chunks, j, m);
    var more := all[|got|..];
    assert all == got + more;
    if j < m {
      RequestExtends(got, more);
      if more == [] {
        assert got == all;
      }
    }
  }

  lemma NoChunks(chunks: seq<seq<byte>>)
    requires |chunks| == 0
    ensures Concat(chunks) == []
  {
  }

  lemma AppendChunk(chunks: seq<seq<byte>>, k: nat)
    requires k < |chunks|
    ensures Concat(chunks[..k + 1]) == Concat(chunks[..k]) + chunks[k]
  {
    assert chunks[..k + 1][..k] == chunks[..k];
  }
}
