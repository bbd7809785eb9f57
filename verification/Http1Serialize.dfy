/** Writing a request as src/http/http1_codec.cpp does for the client, and what the server's parser makes of it. */
module Http1Serialize {
  import opened Bytes
  import opened DynamicTable
  import opened HttpTypes
  import opened HttpLists
  import opened Http1Search
  import opened Http1Chunks
  import opened Http1
  import opened Http1Render

  // ---------------------------------------------------------------- writing

  function HeaderLine(f: Field): seq<byte> {
    f.name + [58, 32] + f.value + Crlf()
  }

  function HeadersText(hdrs: seq<Field>): seq<byte> {
    if |hdrs| == 0 then [] else HeaderLine(hdrs[0]) + HeadersText(hdrs[1..])
  }

  function VersionText(v: Version): seq<byte> {
    match v
    case Http10 => Ascii("HTTP/1.0")
    case Http11 => Ascii("HTTP/1.1")
    case Http2 => Ascii("HTTP/2")
  }

  /** The path is written as it is; the query is not written at all. */
  function Serialize(req: Request): seq<byte> {
    MethodName(req.verb) + [32] + req.path + [32] + VersionText(req.version) + Crlf() + HeadersText(req.hdrs) + Crlf()
    + req.body
  }

  /** The loop over the entries. */
  method SerializeHeaders(hdrs: seq<Field>) returns (text: seq<byte>)
    ensures text == HeadersText(hdrs)
  {
    hide HeaderLine;
    text := [];
    for i := 0 to |hdrs|
      invariant text + HeadersText(hdrs[i..]) == HeadersText(hdrs)
    {
      assert hdrs[i..][1..] == hdrs[i + 1..];
      text := text + HeaderLine(hdrs[i]);
    }
    assert hdrs[|hdrs|..] == [];
  }

  // ---------------------------------------------------------------- a special way to write

  function PlainLine(f: Field): Line {
    Named(f.name, [], [32] + f.value, [])
  }

  function PlainLines(hdrs: seq<Field>): seq<Line> {
    seq(|hdrs|, i requires 0 <= i < |hdrs| => PlainLine(hdrs[i]))
  }

  /** A token for a name, and a value with no line break in it and no blanks around it. */
  ghost predicate IsHeader(f: Field) {
    IsName(f.name) && CR !in f.value && Trimmed(f.value)
  }

  lemma PlainMeans(f: Field)
    requires IsHeader(f)
    ensures IsLine(PlainLine(f)) && Padded(PlainLine(f).text + Joined([]), f.value)
  {
    var l: seq<byte>, r: seq<byte> := [32], [];
    assert AllBlank(l) && AllBlank(r);
    assert PlainLine(f).text + Joined([]) == l + f.value + r;
    forall b | b in PlainLine(f).text ensures b != CR {
      assert b == 32 || b in f.value;
    }
  }

  lemma {:induction false} PlainLinesMean(hdrs: seq<Field>)
    requires forall f :: f in hdrs ==> IsHeader(f)
    ensures (forall l :: l in PlainLines(hdrs) ==> IsLine(l)) && Means(PlainLines(hdrs), hdrs)
    decreases |hdrs|
  {
    hide IsLine, IsHeader, Padded, Joined;
    if |hdrs| > 0 {
      assert hdrs[0] in hdrs;
      PlainMeans(hdrs[0]);
      PlainLinesMean(hdrs[1..]);
      assert PlainLines(hdrs) == [PlainLine(hdrs[0])] + PlainLines(hdrs[1..]);
    }
  }

  lemma OnePlainLine(f: Field)
    ensures FirstText(PlainLine(f)) + Crlf() == HeaderLine(f)
    ensures FoldLines(PlainLine(f).folds) == []
  {
  }

  lemma {:induction false} PlainTexts(hdrs: seq<Field>)
    ensures LinesText(HeaderTexts(PlainLines(hdrs))) == HeadersText(hdrs)
    decreases |hdrs|
  {
    hide LinesText, FoldLines, FirstText, HeaderLine;
    var lines := PlainLines(hdrs);
    NoLines();
    if |hdrs| > 0 {
      PlainTexts(hdrs[1..]);
      assert lines[1..] == PlainLines(hdrs[1..]);
      OnePlainLine(hdrs[0]);
      SplitFirst(lines);
    }
  }

  /** How a request is written, its path being this target and its body framed so. */
  function AsWritten(req: Request, target: Target, framing: Framing): Written {
    Written(req.verb, target, VersionText(req.version), PlainLines(req.hdrs), framing)
  }

  lemma SerializeWrites(req: Request, target: Target, framing: Framing)
    requires TargetText(target) == req.path && BodyText(framing) == req.body
    ensures RequestText(AsWritten(req, target, framing)) == Serialize(req)
  {
    hide LinesText, HeaderTexts, HeadersText, MethodName, VersionText, PlainLines;
    var w := AsWritten(req, target, framing);
    LinesConcat([RequestLine(w)], HeaderTexts(w.lines));
    OneLine(RequestLine(w));
    PlainTexts(req.hdrs);
  }

  // ---------------------------------------------------------------- the round trip

  /** The path and the query a server finds in a path as written. */
  ghost predicate Splits(path: seq<byte>, target: Target) {
    TargetText(target) == path && 63 !in target.path
  }

  lemma SplitOnce(path: seq<byte>) returns (target: Target)
    ensures Splits(path, target) && (target.PathOnly? <==> 63 !in path)
  {
    hide IndexOf;
    var q := IndexOf(path, 63);
    if q == |path| {
      target := PathOnly(path);
      assert path[..q] == path;
    } else {
      target := WithQuery(path[..q], path[q + 1..]);
      assert path[q] in path;
    }
  }

  /** The headers announce the body, or there is none and they announce none. */
  ghost predicate Sendable(req: Request) {
    && (forall f :: f in req.hdrs ==> IsHeader(f)) && 32 !in req.path && CR !in req.path
    && (if req.body == [] then Announced(req.hdrs, Bare) || exists d :: Announced(req.hdrs, Sized(d, []))
        else exists d :: Announced(req.hdrs, Sized(d, req.body)))
  }

  lemma FramingOf(req: Request) returns (framing: Framing)
    requires Sendable(req)
    ensures Announced(req.hdrs, framing) && BodyText(framing) == req.body && BodyOf(framing) == req.body
  {
    hide Announced, IsHeader;
    if req.body == [] && Announced(req.hdrs, Bare) {
      framing := Bare;
    } else {
      var d :| Announced(req.hdrs, Sized(d, req.body));
      framing := Sized(d, req.body);
    }
  }

  lemma VersionReads(v: Version)
    ensures CR !in VersionText(v) && (VersionText(v) == Ascii("HTTP/1.0") <==> v.Http10?)
  {
    var a, b, c := Ascii("HTTP/1.0"), Ascii("HTTP/1.1"), Ascii("HTTP/2");
    assert |a| == 8 && |b| == 8 && |c| == 6;
    assert a[7] == 48 && b[7] == 49;
    assert CR !in a && CR !in b && CR !in c;
  }

  /**
    The server reads the client's request with its method, headers and body, and consumes exactly its bytes; it finds
    the query in the path as the client wrote it.
   */
  lemma SerializeParses(req: Request, target: Target, rest: seq<byte>)
    requires Sendable(req) && Splits(req.path, target) && |Serialize(req) + rest| < INT64_LIMIT
    ensures var r := ParseRequest(Serialize(req) + rest);
            && r.Parsed? && r.consumed == |Serialize(req)|
            && r.req == Request(req.verb, if target.path == [] then [47] else target.path,
                                if target.WithQuery? then target.query else [],
                                if req.version.Http10? then Http10 else Http11, req.hdrs, req.body)
  {
    hide ParseRequest, Serialize, RequestText, Announced, IsHeader, Means, IsLine, BodyOf, BodyText, PlainLines, Ascii;
    hide VersionText;
    var framing := FramingOf(req);
    var w := AsWritten(req, target, framing);
    SerializeWrites(req, target, framing);
    PlainLinesMean(req.hdrs);
    VersionReads(req.version);
    TargetIs(req.path, target);
    RequestReads(w, req.hdrs, rest);
  }

  lemma TargetIs(path: seq<byte>, target: Target)
    requires Splits(path, target) && 32 !in path && CR !in path
    ensures IsTarget(target)
  {
  }

  /**
    A request arrives as it was if and only if its path is not empty and holds no question mark, its query is empty and
    its version is one of HTTP/1.
   */
  lemma ArrivesIff(req: Request, rest: seq<byte>)
    requires Sendable(req) && |Serialize(req) + rest| < INT64_LIMIT
    ensures ParseRequest(Serialize(req) + rest) == Parsed(req, |Serialize(req)|) <==>
              req.path != [] && 63 !in req.path && req.query == [] && !req.version.Http2?
  {
    hide ParseRequest, Serialize, Sendable;
    var target := SplitOnce(req.path);
    SerializeParses(req, target, rest);
  }

  /** A query given apart from the path never leaves the client. */
  lemma QueryIsLost(req: Request, query: seq<byte>)
    ensures Serialize(req.(query := query)) == Serialize(req)
  {
  }
}
