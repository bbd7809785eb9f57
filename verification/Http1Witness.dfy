/**
  Two chunked requests with sizes near 2^64: one whose body grows with the buffer, one on which the parser never
  returns.
 */
module Http1Witness {
  import opened Bytes
  import opened DynamicTable
  import opened HttpTypes
  import opened Http1Search
  import opened Http1Chunks
  import opened Http1

  function RequestLine(): seq<byte> {
    Ascii("GET / HTTP/1.1")
  }

  function ChunkedLine(): seq<byte> {
    Ascii("Transfer-Encoding: chunked")
  }

  /** A request head that announces a chunked body. */
  function ChunkedHead(): seq<byte> {
    RequestLine() + Crlf() + ChunkedLine() + Crlf() + Crlf()
  }

  lemma NoReturns()
    ensures |RequestLine()| == 14 && forall i :: 0 <= i < 14 ==> RequestLine()[i] != CR
    ensures |ChunkedLine()| == 26 && forall i :: 0 <= i < 26 ==> ChunkedLine()[i] != CR
  {
  }

  lemma BlankFound(rest: seq<byte>)
    ensures Find(ChunkedHead() + rest, Blank()) == Some(42) && |ChunkedHead()| == 46
  {
    hide Find, RequestLine, ChunkedLine;
    NoReturns();
    var d := ChunkedHead() + rest;
    assert d[42..46] == Blank();
    forall i: nat | i < 42 ensures !Occurs(d, Blank(), i) {
      if i == 14 {
        assert d[i..i + 4][2] == ChunkedLine()[0];
      } else {
        assert d[i..i + 4][0] == d[i];
        if i < 14 {
          assert d[i] == RequestLine()[i];
        } else if i == 15 {
          assert d[i] == LF;
        } else {
          assert d[i] == ChunkedLine()[i - 16];
        }
      }
    }
    FindIs(d, Blank(), 42);
  }

  lemma LineRead()
    ensures var line := RequestLine();
            && IndexOf(line, SPACE) == 3 && IndexOf(line[4..], SPACE) == 1
            && ParseMethod(line[..3]) == Some(GET)
  {
    var line := RequestLine();
    assert line[3] == 32 && line[0] != 32 && line[1] != 32 && line[2] != 32;
    assert line[..3] == Ascii("GET");
    assert line[4] != 32 && line[5] == 32;
    IndexIs(line, SPACE, 3);
    IndexIs(line[4..], SPACE, 1);
  }

  lemma NameRead()
    ensures IndexOf(ChunkedLine(), COLON) == 17 && ChunkedLine()[..17] == Ascii("Transfer-Encoding")
    ensures ChunkedLine()[18..] == [SPACE] + Ascii("chunked")
  {
    hide IndexOf;
    var line := ChunkedLine();
    assert line[17] == COLON && forall i :: 0 <= i < 17 ==> line[i] != COLON;
    IndexIs(line, COLON, 17);
    assert line[..17] == Ascii("Transfer-Encoding");
    assert line[18..] == [SPACE] + Ascii("chunked");
  }

  lemma TrimmedName()
    ensures TrimRight(Ascii("Transfer-Encoding")) == Ascii("Transfer-Encoding")
  {
    var n := Ascii("Transfer-Encoding");
    assert |n| == 17 && n[16] == 103;
  }

  lemma TrimmedValue()
    ensures TrimRight(TrimLeft([SPACE] + Ascii("chunked"))) == Ascii("chunked")
  {
    var v := Ascii("chunked");
    assert |v| == 7 && v[0] == 99 && v[6] == 100;
    assert ([SPACE] + v)[1..] == v;
    assert TrimLeft(v) == v && TrimRight(v) == v;
  }

  lemma FieldRead()
    ensures LineField(ChunkedLine()) == Some(Field(Ascii("Transfer-Encoding"), Ascii("chunked")))
  {
    hide IndexOf, TrimLeft, TrimRight, Ascii, ChunkedLine;
    NoReturns();
    NameRead();
    TrimmedName();
    TrimmedValue();
  }

  lemma HeadersRead()
    ensures HeaderLines(ChunkedLine() + Crlf()) == [Field(Ascii("Transfer-Encoding"), Ascii("chunked"))]
  {
    hide Find, LineField, ChunkedLine;
    NoReturns();
    var line := ChunkedLine();
    FirstBreak(line, []);
    var block := line + Crlf();
    assert line + Crlf() + [] == block;
    assert block[..26] == line && block[28..] == [];
    assert Unfold(line, []) == Folded(line, []);
    assert HeaderLines([]) == [] by { NothingFound([]); }
    FieldRead();
  }

  lemma IsChunkedList()
    ensures IsChunked([Field(Ascii("Transfer-Encoding"), Ascii("chunked"))])
  {
    hide Find;
    var c := Ascii("chunked");
    assert Lower(c) == c;
    assert c[0..7] == c;
    assert Occurs(c, c, 0);
    FindIs(c, c, 0);
  }

  /** The head parses, and the request it begins is chunked. */
  lemma HeadRead()
    ensures Find(ChunkedHead(), Crlf()) == Some(14)
    ensures ParseHead(ChunkedHead()).Head? && IsChunked(ParseHead(ChunkedHead()).req.hdrs)
  {
    hide Find, IsChunked, HeaderLines, RequestLine, ChunkedLine, IndexOf, SetPath, ParseMethod, Ascii;
    NoReturns();
    var tail := ChunkedLine() + Crlf() + Crlf();
    assert ChunkedHead() == RequestLine() + Crlf() + tail;
    FirstBreak(RequestLine(), tail);
    assert ChunkedHead()[..14] == RequestLine();
    assert ChunkedHead()[16..44] == ChunkedLine() + Crlf();
    LineRead();
    HeadersRead();
    IsChunkedList();
  }

  /** What the parser makes of this head and a body. */
  lemma Parses(b: seq<byte>)
    ensures var req := (HeadRead(); ParseHead(ChunkedHead()).req);
            ParseRequest(ChunkedHead() + b) == match Chunks(b)
              case Incomplete => NeedMore
              case BadChunk => Malformed
              case Endless => Hangs
              case Whole(data, n) => Parsed(req.(body := data), 46 + n)
  {
    hide ParseHead, Chunks, Find, IsChunked, ChunkedHead;
    HeadRead();
    BlankFound(b);
    FirstLine(ChunkedHead() + b);
    assert (ChunkedHead() + b)[..46] == ChunkedHead();
    assert (ChunkedHead() + b)[46..] == b;
  }

  /**
    Size FFFFFFFFFFFFFFFE and the last chunk: a request is answered, and one more byte in the buffer changes its body.
   */
  lemma GrowingRequest(x: byte)
    ensures var d := ChunkedHead() + HugeLine(70, 69, LastChunk([]));
            && ParseRequest(d).Parsed? && ParseRequest(d).req.body == LastChunk([])
            && ParseRequest(d + [x]).Parsed? && ParseRequest(d + [x]).req.body == LastChunk([x])
            && ParseRequest(d + [x]) != ParseRequest(d)
  {
    hide ParseRequest, Chunks, ChunkedHead;
    var b := HugeLine(70, 69, LastChunk([]));
    Parses(b);
    Parses(b + [x]);
    GrowingBody([]);
    GrowingBody([x]);
    assert b + [x] == HugeLine(70, 69, LastChunk([x]));
    assert ChunkedHead() + b + [x] == ChunkedHead() + (b + [x]);
  }

  /**
    Size FFFFFFFFFFFFFFEC: whatever follows, no turn of the loop is the last. With nothing behind it the call never
    returns; with more, the gathered body grows by it on every turn, until it cannot be allocated.
   */
  lemma HangingRequest(rest: seq<byte>)
    requires |rest| < INT64_LIMIT - 18
    ensures ParseRequest(ChunkedHead() + HugeLine(69, 67, rest)) == Hangs
    ensures forall n: nat :: |Gathered(HugeLine(69, 67, rest), 0, n)| == n * |rest|
  {
    hide ParseRequest, Chunks, ChunkedHead;
    Parses(HugeLine(69, 67, rest));
    EndlessBody(rest);
    forall n: nat ensures |Gathered(HugeLine(69, 67, rest), 0, n)| == n * |rest| {
      EndlessGathers(rest, n);
    }
  }
}
