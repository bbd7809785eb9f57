/** How an HTTP/1.1 request is written, and that src/http/http1_codec.cpp reads it as what was meant. */
module Http1Render {
  import opened Bytes
  import opened DynamicTable
  import opened HttpTypes
  import opened HttpLists
  import opened Http1Search
  import opened Http1Chunks
  import opened Http1

  // ---------------------------------------------------------------- what is written

  /** A folded header goes on in lines that begin with a blank. */
  datatype Fold = Fold(blank: byte, text: seq<byte>)

  /** A header as it is written, or a line that is none for want of a colon. */
  datatype Line =
    | Named(name: seq<byte>, gap: seq<byte>, text: seq<byte>, folds: seq<Fold>)
    | Noise(text: seq<byte>, folds: seq<Fold>)

  /** The digits of the size, anything behind them, and the data. */
  datatype Chunk = Chunk(size: seq<byte>, note: seq<byte>, data: seq<byte>)

  datatype Framing =
    | Bare
    | Sized(digits: seq<byte>, data: seq<byte>)
    | Cut(chunks: seq<Chunk>, last: seq<byte>, note: seq<byte>)

  /** A target is a path, or a path and a query. */
  datatype Target = PathOnly(path: seq<byte>) | WithQuery(path: seq<byte>, query: seq<byte>)

  datatype Written = Written(verb: Method, target: Target, version: seq<byte>, lines: seq<Line>, framing: Framing)

  function TargetText(t: Target): seq<byte> {
    match t
    case PathOnly(path) => path
    case WithQuery(path, query) => path + [63] + query
  }

  function RequestLine(w: Written): seq<byte> {
    MethodName(w.verb) + [32] + TargetText(w.target) + [32] + w.version
  }

  function FirstText(l: Line): seq<byte> {
    match l
    case Named(name, gap, text, _) => name + gap + [58] + text
    case Noise(text, _) => text
  }

  function FoldLines(folds: seq<Fold>): seq<seq<byte>> {
    seq(|folds|, i requires 0 <= i < |folds| => [folds[i].blank] + folds[i].text)
  }

  function HeaderTexts(lines: seq<Line>): seq<seq<byte>> {
    if |lines| == 0 then [] else [FirstText(lines[0])] + FoldLines(lines[0].folds) + HeaderTexts(lines[1..])
  }

  /** Each line and its line break. */
  function LinesText(texts: seq<seq<byte>>): seq<byte> {
    if |texts| == 0 then [] else texts[0] + Crlf() + LinesText(texts[1..])
  }

  function HeadText(w: Written): seq<byte> {
    LinesText([RequestLine(w)] + HeaderTexts(w.lines)) + Crlf()
  }

  function ChunksText(chunks: seq<Chunk>): seq<byte> {
    if |chunks| == 0 then []
    else chunks[0].size + chunks[0].note + Crlf() + chunks[0].data + Crlf() + ChunksText(chunks[1..])
  }

  function BodyText(framing: Framing): seq<byte> {
    match framing
    case Bare => []
    case Sized(_, data) => data
    case Cut(chunks, last, note) => ChunksText(chunks) + last + note + Crlf() + Crlf()
  }

  function RequestText(w: Written): seq<byte> {
    HeadText(w) + BodyText(w.framing)
  }

  // ---------------------------------------------------------------- what it stands for

  predicate IsBlank(b: byte) {
    b == 32 || b == 9
  }

  ghost predicate AllBlank(s: seq<byte>) {
    forall b :: b in s ==> IsBlank(b)
  }

  ghost predicate Trimmed(s: seq<byte>) {
    |s| > 0 ==> !IsBlank(s[0]) && !IsBlank(s[|s| - 1])
  }

  /** A value with blanks around it. */
  ghost predicate Padded(s: seq<byte>, value: seq<byte>) {
    Trimmed(value) && exists l, r :: AllBlank(l) && AllBlank(r) && s == l + value + r
  }

  /** The text of a folded header is that of its lines, with one space in place of each break. */
  function Joined(folds: seq<Fold>): seq<byte> {
    if |folds| == 0 then [] else [32] + folds[0].text + Joined(folds[1..])
  }

  ghost predicate IsName(s: seq<byte>) {
    |s| > 0 && forall b :: b in s ==> !IsBlank(b) && b != 58 && b != CR
  }

  ghost predicate IsFold(f: Fold) {
    IsBlank(f.blank) && CR !in f.text
  }

  ghost predicate IsLine(l: Line) {
    && (forall f :: f in l.folds ==> IsFold(f))
    && CR !in l.text
    && match l
       case Named(name, gap, _, _) => IsName(name) && AllBlank(gap)
       case Noise(text, folds) => |text| > 0 && !IsBlank(text[0]) && 58 !in text + Joined(folds)
  }

  /** These lines are those headers, in order. */
  ghost predicate Means(lines: seq<Line>, fields: seq<Field>) {
    if |lines| == 0 then fields == []
    else
      match lines[0]
      case Noise(_, _) => Means(lines[1..], fields)
      case Named(name, _, text, folds) =>
        && |fields| > 0 && fields[0].name == name && Padded(text + Joined(folds), fields[0].value)
        && Means(lines[1..], fields[1..])
  }

  ghost predicate IsTarget(t: Target) {
    && (forall b :: b in TargetText(t) ==> b != 32 && b != CR)
    && 63 !in t.path
  }

  /** What hexadecimal digits of either case stand for: each place is worth sixteen times the next. */
  ghost function HexOf(s: seq<byte>): int {
    if |s| == 0 then 0 else 16 * HexOf(s[..|s| - 1]) + HexValue(s[|s| - 1])
  }

  predicate IsHex(b: byte) {
    48 <= b <= 57 || 65 <= b <= 70 || 97 <= b <= 102
  }

  function HexValue(b: byte): int {
    if b <= 57 then b as int - 48 else if b <= 70 then b as int - 65 + 10 else b as int - 97 + 10
  }

  ghost predicate SpellsHex(s: seq<byte>, n: nat) {
    |s| > 0 && (forall b :: b in s ==> IsHex(b)) && HexOf(s) == n
  }

  ghost predicate IsNote(s: seq<byte>) {
    CR !in s && (|s| > 0 ==> !IsHex(s[0]))
  }

  ghost predicate IsChunk(c: Chunk) {
    SpellsHex(c.size, |c.data|) && IsNote(c.note) && |c.data| > 0
  }

  function DataOf(chunks: seq<Chunk>): seq<byte> {
    if |chunks| == 0 then [] else chunks[0].data + DataOf(chunks[1..])
  }

  function BodyOf(framing: Framing): seq<byte> {
    match framing
    case Bare => []
    case Sized(_, data) => data
    case Cut(chunks, _, _) => DataOf(chunks)
  }

  /** The first Transfer-Encoding header, if there is one, mentions chunks. */
  ghost predicate SaysChunked(fields: seq<Field>) {
    exists v, i: nat :: FirstUnder(fields, Ascii("transfer-encoding"), Some(v)) && Occurs(Lower(v), Ascii("chunked"), i)
  }

  /** The headers say how the body is written. */
  ghost predicate Announced(fields: seq<Field>, framing: Framing) {
    match framing
    case Bare => !SaysChunked(fields) && FirstUnder(fields, Ascii("content-length"), None)
    case Sized(digits, data) =>
      && !SaysChunked(fields) && FirstUnder(fields, Ascii("content-length"), Some(digits))
      && Denotes(digits, |data|)
    case Cut(chunks, last, note) =>
      && SaysChunked(fields)
      && (forall c :: c in chunks ==> IsChunk(c)) && SpellsHex(last, 0) && IsNote(note)
  }

  ghost predicate WellWritten(w: Written, fields: seq<Field>) {
    && IsTarget(w.target) && CR !in w.version
    && (forall l :: l in w.lines ==> IsLine(l)) && Means(w.lines, fields)
    && Announced(fields, w.framing)
  }

  /** What the head says of a request. */
  ghost predicate IsHead(w: Written, fields: seq<Field>, req: Request) {
    && req.verb == w.verb
    && req.path == (if w.target.path == [] then [47] else w.target.path)
    && req.query == (if w.target.WithQuery? then w.target.query else [])
    && (req.version.Http10? <==> w.version == Ascii("HTTP/1.0")) && (req.version.Http10? || req.version.Http11?)
    && req.hdrs == fields
  }

  /** The request that is meant. */
  ghost predicate IsRequest(w: Written, fields: seq<Field>, req: Request) {
    IsHead(w, fields, req) && req.body == BodyOf(w.framing)
  }

  // ---------------------------------------------------------------- the end of the head

  ghost predicate Unbroken(texts: seq<seq<byte>>) {
    forall t :: t in texts ==> |t| > 0 && CR !in t
  }

  lemma NotBlank(d: seq<byte>, i: nat)
    requires i + 4 <= |d| ==> d[i] != CR || d[i + 2] != CR
    ensures !Occurs(d, Blank(), i)
  {
    if i + 4 <= |d| {
      var w := d[i..i + 4];
      assert w[0] == d[i] && w[2] == d[i + 2];
    }
  }

  lemma OccursBehind(a: seq<byte>, b: seq<byte>, p: seq<byte>, i: nat)
    requires i >= |a|
    ensures Occurs(a + b, p, i) <==> Occurs(b, p, i - |a|)
  {
    if i + |p| <= |a + b| {
      assert (a + b)[i..i + |p|] == b[i - |a|..i - |a| + |p|];
    }
  }

  lemma NoneBefore(line: seq<byte>, tail: seq<byte>, i: nat)
    requires CR !in line && |tail| > 0 && tail[0] != CR && i < |line| + 2
    ensures !Occurs(line + Crlf() + tail, Blank(), i)
  {
    hide Occurs;
    var d := line + Crlf() + tail;
    if i < |line| {
      assert d[i] == line[i];
    } else if i == |line| {
      assert d[i + 2] == tail[0];
    } else {
      assert d[i] == LF;
    }
    NotBlank(d, i);
  }

  lemma FoundBehind(a: seq<byte>, b: seq<byte>, p: seq<byte>, n: nat, k: nat)
    requires n == |a| && Find(b, p) == Some(k) && forall i: nat :: i < |a| ==> !Occurs(a + b, p, i)
    ensures Find(a + b, p) == Some(n + k)
  {
    hide Find, Occurs;
    FindMeans(b, p);
    OccursBehind(a, b, p, n + k);
    forall i: nat | i < n + k ensures !Occurs(a + b, p, i) {
      if i >= n {
        OccursBehind(a, b, p, i);
      }
    }
    FindIs(a + b, p, n + k);
  }

  lemma NoneInLine(line: seq<byte>, a: seq<byte>, tail: seq<byte>)
    requires CR !in line && |tail| > 0 && tail[0] != CR && a == line + Crlf()
    ensures forall i: nat :: i < |a| ==> !Occurs(a + tail, Blank(), i)
  {
    hide Occurs, Blank;
    forall i: nat | i < |a| ensures !Occurs(a + tail, Blank(), i) {
      NoneBefore(line, tail, i);
    }
  }

  lemma BlankSkips(line: seq<byte>, a: seq<byte>, tail: seq<byte>)
    requires CR !in line && |tail| > 0 && tail[0] != CR && a == line + Crlf() && Find(tail, Blank()).Some?
    ensures Find(a + tail, Blank()) == Some(|line| + 2 + Find(tail, Blank()).value)
  {
    hide Find, Blank, Occurs;
    NoneInLine(line, a, tail);
    FoundBehind(a, tail, Blank(), |line| + 2, Find(tail, Blank()).value);
  }

  lemma BlankHere(line: seq<byte>, rest: seq<byte>)
    requires CR !in line
    ensures Find(line + Crlf() + Crlf() + rest, Blank()) == Some(|line|)
  {
    hide Find;
    var d := line + Crlf() + Crlf() + rest;
    assert d[|line|..|line| + 4] == Blank();
    forall i: nat | i < |line| ensures !Occurs(d, Blank(), i) {
      assert d[i] == line[i];
      NotBlank(d, i);
    }
    FindIs(d, Blank(), |line|);
  }

  /** The head ends behind its last line. */
  lemma {:induction false} HeadEnds(texts: seq<seq<byte>>, rest: seq<byte>)
    requires |texts| > 0 && Unbroken(texts)
    ensures |LinesText(texts)| >= 2
    ensures Find(LinesText(texts) + Crlf() + rest, Blank()) == Some(|LinesText(texts)| - 2)
    decreases |texts|
  {
    hide Find, Blank, LinesText, Crlf;
    var t, tail := texts[0], texts[1..];
    assert t in texts;
    OneBreak();
    if tail == [] {
      BlankHere(t, rest);
      assert texts == [t];
      OneLine(t);
    } else {
      assert forall x :: x in tail ==> x in texts;
      HeadEnds(tail, rest);
      FirstLineOf(texts);
      FirstLineOf(tail);
      OneMore(t, LinesText(tail), rest);
    }
  }

  lemma FirstLineOf(texts: seq<seq<byte>>)
    requires |texts| > 0 && Unbroken(texts)
    ensures LinesText(texts) == texts[0] + Crlf() + LinesText(texts[1..]) && LinesText(texts)[0] != CR
  {
    assert texts[0] in texts;
  }

  lemma OneMore(t: seq<byte>, tail: seq<byte>, rest: seq<byte>)
    requires CR !in t && |tail| >= 2 && tail[0] != CR && Find(tail + Crlf() + rest, Blank()) == Some(|tail| - 2)
    ensures Find(t + Crlf() + tail + Crlf() + rest, Blank()) == Some(|t| + 2 + |tail| - 2)
  {
    hide Find;
    var behind := tail + Crlf() + rest;
    BlankSkips(t, t + Crlf(), behind);
    assert t + Crlf() + tail + Crlf() + rest == t + Crlf() + behind;
  }

  lemma OneBreak()
    ensures |Crlf()| == 2
  {
  }

  // ---------------------------------------------------------------- blanks

  lemma {:induction false} RightTrimmed(s: seq<byte>, blanks: seq<byte>)
    requires AllBlank(blanks) && (|s| > 0 ==> !IsBlank(s[|s| - 1]))
    ensures TrimRight(s + blanks) == s
    decreases |blanks|
  {
    if |blanks| == 0 {
      assert s + blanks == s;
    } else {
      assert blanks[|blanks| - 1] in blanks;
      RightTrimmed(s, blanks[..|blanks| - 1]);
      assert (s + blanks)[..|s + blanks| - 1] == s + blanks[..|blanks| - 1];
    }
  }

  lemma {:induction false} LeftTrimmed(blanks: seq<byte>, s: seq<byte>)
    requires AllBlank(blanks) && (|s| > 0 ==> !IsBlank(s[0]))
    ensures TrimLeft(blanks + s) == s
    decreases |blanks|
  {
    if |blanks| == 0 {
      assert blanks + s == s;
    } else {
      assert blanks[0] in blanks;
      LeftTrimmed(blanks[1..], s);
      assert (blanks + s)[1..] == blanks[1..] + s;
    }
  }

  lemma PaddedIsTrimmed(s: seq<byte>, value: seq<byte>)
    requires Padded(s, value)
    ensures TrimRight(TrimLeft(s)) == value
  {
    hide TrimLeft, TrimRight;
    var l, r :| AllBlank(l) && AllBlank(r) && s == l + value + r;
    if value == [] {
      forall b | b in l + r ensures IsBlank(b) {
        assert b in l || b in r;
      }
      LeftTrimmed(l + r, value);
      RightTrimmed(value, value);
      assert s == l + r + value && value + value == value;
    } else {
      LeftTrimmed(l, value + r);
      RightTrimmed(value, r);
      assert s == l + (value + r);
    }
  }

  // ---------------------------------------------------------------- headers

  lemma NamedReads(l: Line, value: seq<byte>)
    requires l.Named? && IsLine(l) && Padded(l.text + Joined(l.folds), value)
    ensures LineField(FirstText(l) + Joined(l.folds)) == Some(Field(l.name, value))
  {
    hide IndexOf, TrimLeft, TrimRight, Padded, Joined;
    var before := l.name + l.gap;
    var line := FirstText(l) + Joined(l.folds);
    assert line == before + [58] + (l.text + Joined(l.folds));
    forall i | 0 <= i < |before| ensures line[i] != 58 {
      assert line[i] == before[i] && (before[i] in l.name || before[i] in l.gap);
    }
    IndexIs(line, 58, |before|);
    assert line[..|before|] == before;
    assert line[|before| + 1..] == l.text + Joined(l.folds);
    assert l.name[|l.name| - 1] in l.name;
    RightTrimmed(l.name, l.gap);
    PaddedIsTrimmed(l.text + Joined(l.folds), value);
  }

  lemma NoiseIsNone(l: Line)
    requires l.Noise? && IsLine(l)
    ensures LineField(FirstText(l) + Joined(l.folds)) == None
  {
    hide Joined;
    var line := FirstText(l) + Joined(l.folds);
    assert 58 !in line;
  }

  lemma FoldOnce(line: seq<byte>, f: Fold, tail: seq<byte>)
    requires IsFold(f)
    ensures Unfold(line, [f.blank] + f.text + Crlf() + tail) == Unfold(line + [SPACE] + f.text, tail)
  {
    hide Find;
    var text := [f.blank] + f.text;
    var rest := text + Crlf() + tail;
    assert forall i :: 0 <= i < |text| ==> text[i] != CR;
    FirstBreak(text, tail);
    assert rest[0] == f.blank && rest[1..|text|] == f.text && rest[|text| + 2..] == tail;
  }

  lemma FirstFold(folds: seq<Fold>)
    requires |folds| > 0
    ensures LinesText(FoldLines(folds))
            == [folds[0].blank] + folds[0].text + Crlf() + LinesText(FoldLines(folds[1..]))
  {
    assert FoldLines(folds)[1..] == FoldLines(folds[1..]);
  }

  lemma NotFolded(line: seq<byte>, folds: seq<Fold>, after: seq<byte>)
    requires |folds| == 0 && (|after| > 0 ==> !IsBlank(after[0]))
    ensures Unfold(line, LinesText(FoldLines(folds)) + after) == Folded(line + Joined(folds), after)
  {
    hide Find;
    assert LinesText(FoldLines(folds)) == [];
    assert [] + after == after;
    assert line + Joined(folds) == line;
  }

  /** Folded lines are put together up to the next line that is not folded. */
  lemma {:induction false} FoldsJoin(line: seq<byte>, folds: seq<Fold>, after: seq<byte>)
    requires (forall f :: f in folds ==> IsFold(f)) && (|after| > 0 ==> !IsBlank(after[0]))
    ensures Unfold(line, LinesText(FoldLines(folds)) + after) == Folded(line + Joined(folds), after)
    decreases |folds|
  {
    hide Unfold, LinesText, FoldLines, IsFold;
    if |folds| == 0 {
      NotFolded(line, folds, after);
    } else {
      var f, tail := folds[0], LinesText(FoldLines(folds[1..])) + after;
      assert f in folds;
      FirstFold(folds);
      assert LinesText(FoldLines(folds)) + after == [f.blank] + f.text + Crlf() + tail;
      FoldOnce(line, f, tail);
      FoldsJoin(line + [SPACE] + f.text, folds[1..], after);
      assert line + Joined(folds) == line + [SPACE] + f.text + Joined(folds[1..]);
    }
  }

  lemma {:induction false} LinesConcat(a: seq<seq<byte>>, b: seq<seq<byte>>)
    ensures LinesText(a + b) == LinesText(a) + LinesText(b)
    decreases |a|
  {
    if |a| == 0 {
      assert a + b == b;
    } else {
      assert (a + b)[1..] == a[1..] + b;
      LinesConcat(a[1..], b);
    }
  }

  lemma FirstIsPlain(l: Line)
    requires IsLine(l)
    ensures var t := FirstText(l); |t| > 0 && CR !in t && !IsBlank(t[0])
  {
    var t := FirstText(l);
    if l.Named? {
      assert t[0] == l.name[0] && l.name[0] in l.name;
      forall b | b in t ensures b != CR {
        assert b in l.name || b in l.gap || b == 58 || b in l.text;
      }
    }
  }

  /** What the texts of some lines begin with. */
  lemma LinesBegin(lines: seq<Line>)
    requires forall l :: l in lines ==> IsLine(l)
    ensures var t := LinesText(HeaderTexts(lines)); |t| > 0 ==> !IsBlank(t[0])
  {
    hide IsLine;
    if |lines| > 0 {
      assert lines[0] in lines;
      FirstIsPlain(lines[0]);
      assert HeaderTexts(lines)[0] == FirstText(lines[0]);
      assert LinesText(HeaderTexts(lines))[0] == FirstText(lines[0])[0];
    }
  }

  lemma TextsOfFirst(lines: seq<Line>)
    requires |lines| > 0
    ensures HeaderTexts(lines) == [FirstText(lines[0])] + (FoldLines(lines[0].folds) + HeaderTexts(lines[1..]))
  {
    hide FirstText, FoldLines;
  }

  lemma SplitFirst(lines: seq<Line>)
    requires |lines| > 0
    ensures LinesText(HeaderTexts(lines))
            == FirstText(lines[0]) + Crlf() + (LinesText(FoldLines(lines[0].folds))
              + LinesText(HeaderTexts(lines[1..])))
  {
    hide FirstText, FoldLines, LinesText, HeaderTexts;
    var first: seq<seq<byte>> := [FirstText(lines[0])];
    var folds, rest := FoldLines(lines[0].folds), HeaderTexts(lines[1..]);
    TextsOfFirst(lines);
    LinesConcat(first, folds + rest);
    LinesConcat(folds, rest);
    OneLine(FirstText(lines[0]));
  }

  lemma OneLine(t: seq<byte>)
    ensures LinesText([t]) == t + Crlf()
  {
    assert [t][1..] == [];
    assert LinesText([]) == [];
  }

  /** The header block is read as the headers meant. */
  lemma {:induction false} HeadersRead(lines: seq<Line>, fields: seq<Field>)
    requires (forall l :: l in lines ==> IsLine(l)) && Means(lines, fields)
    ensures HeaderLines(LinesText(HeaderTexts(lines))) == fields
    decreases |lines|
  {
    hide Find, IsLine, Padded, LinesText, FirstText, FoldLines, Unfold, LineField;
    var block := LinesText(HeaderTexts(lines));
    if |lines| == 0 {
      assert block == [] by { NoLines(); }
      NothingFound([]);
    } else {
      var l, rest := lines[0], LinesText(HeaderTexts(lines[1..]));
      assert l in lines;
      var folded := LinesText(FoldLines(l.folds));
      SplitFirst(lines);
      FirstIsPlain(l);
      LinesBegin(lines[1..]);
      FirstBreak(FirstText(l), folded + rest);
      assert block[..|FirstText(l)|] == FirstText(l) && block[|FirstText(l)| + 2..] == folded + rest;
      FoldsAre(l);
      FoldsJoin(FirstText(l), l.folds, rest);
      match l {
        case Noise(_, _) =>
          NoiseIsNone(l);
          HeadersRead(lines[1..], fields);
        case Named(_, _, _, _) =>
          NamedReads(l, fields[0].value);
          HeadersRead(lines[1..], fields[1..]);
          assert fields == [fields[0]] + fields[1..];
      }
    }
  }

  lemma NoLines()
    ensures LinesText([]) == []
  {
  }

  lemma FoldsAre(l: Line)
    requires IsLine(l)
    ensures forall f :: f in l.folds ==> IsFold(f)
  {
  }

  // ---------------------------------------------------------------- the request line

  lemma VerbIsPlain(m: Method)
    ensures forall i :: 0 <= i < |MethodName(m)| ==> 65 <= MethodName(m)[i] <= 90
  {
    match m
    case GET => LettersOnly("GET");
    case HEAD => LettersOnly("HEAD");
    case POST => LettersOnly("POST");
    case PUT => LettersOnly("PUT");
    case DELETE => LettersOnly("DELETE");
    case PATCH => LettersOnly("PATCH");
    case OPTIONS => LettersOnly("OPTIONS");
    case TRACE => LettersOnly("TRACE");
    case CONNECT => LettersOnly("CONNECT");
  }

  lemma LettersOnly(s: string)
    requires forall c :: c in s ==> 'A' <= c <= 'Z'
    ensures forall i :: 0 <= i < |Ascii(s)| ==> 65 <= Ascii(s)[i] <= 90
  {
    forall i | 0 <= i < |Ascii(s)| ensures 65 <= Ascii(s)[i] <= 90 {
      assert s[i] in s;
    }
  }

  lemma LineIsPlain(w: Written)
    requires IsTarget(w.target) && CR !in w.version
    ensures CR !in RequestLine(w) && |RequestLine(w)| > 0
  {
    hide MethodName, TargetText;
    VerbIsPlain(w.verb);
    forall b | b in RequestLine(w) ensures b != CR {
      assert b in MethodName(w.verb) || b == 32 || b in TargetText(w.target) || b in w.version;
    }
  }

  lemma LineSplits(m: Method, target: seq<byte>, version: seq<byte>)
    requires 32 !in target
    ensures var line, verb := MethodName(m) + [32] + target + [32] + version, MethodName(m);
            && IndexOf(line, SPACE) == |verb| < |line| && line[..|verb|] == verb
            && var after := line[|verb| + 1..];
               IndexOf(after, SPACE) == |target| < |after| && after[..|target|] == target
               && after[|target| + 1..] == version
  {
    hide MethodName, IndexOf;
    VerbIsPlain(m);
    var line, verb := MethodName(m) + [32] + target + [32] + version, MethodName(m);
    assert forall i :: 0 <= i < |verb| ==> line[i] == verb[i];
    IndexIs(line, SPACE, |verb|);
    var after := line[|verb| + 1..];
    assert after == target + [32] + version;
    assert forall i :: 0 <= i < |target| ==> after[i] == target[i] && target[i] in target;
    IndexIs(after, SPACE, |target|);
  }

  lemma WrittenLineSplits(w: Written)
    requires IsTarget(w.target)
    ensures var line, verb, target := RequestLine(w), MethodName(w.verb), TargetText(w.target);
            && IndexOf(line, SPACE) == |verb| < |line| && line[..|verb|] == verb
            && var after := line[|verb| + 1..];
               IndexOf(after, SPACE) == |target| < |after| && after[..|target|] == target
               && after[|target| + 1..] == w.version
  {
    LineSplits(w.verb, TargetText(w.target), w.version);
  }

  lemma Root()
    ensures Ascii("/") == [47]
  {
  }

  lemma TargetReads(req: Request, t: Target)
    requires IsTarget(t)
    ensures var r := SetPath(req, TargetText(t));
            && r.path == (if t.path == [] then [47] else t.path)
            && r.query == (if t.WithQuery? then t.query else req.query)
            && r == req.(path := r.path, query := r.query)
  {
    hide IndexOf, Ascii;
    Root();
    var text := TargetText(t);
    if t.WithQuery? {
      assert forall i :: 0 <= i < |t.path| ==> text[i] == t.path[i] && t.path[i] in t.path;
      IndexIs(text, 63, |t.path|);
      assert text[..|t.path|] == t.path && text[|t.path| + 1..] == t.query;
    } else {
      assert 63 !in text && text[..|text|] == text;
    }
  }

  // ---------------------------------------------------------------- the head

  lemma {:induction false} TextsAreUnbroken(lines: seq<Line>)
    requires forall l :: l in lines ==> IsLine(l)
    ensures Unbroken(HeaderTexts(lines))
  {
    hide IsLine, FirstText, FoldLines, IsFold;
    if |lines| > 0 {
      assert lines[0] in lines;
      TextsAreUnbroken(lines[1..]);
      FirstIsPlain(lines[0]);
      FoldsAre(lines[0]);
      FoldsAreUnbroken(lines[0].folds);
    }
  }

  lemma FoldsAreUnbroken(folds: seq<Fold>)
    requires forall f :: f in folds ==> IsFold(f)
    ensures Unbroken(FoldLines(folds))
  {
    forall t | t in FoldLines(folds) ensures |t| > 0 && CR !in t {
      var i :| 0 <= i < |folds| && t == [folds[i].blank] + folds[i].text;
      assert folds[i] in folds;
    }
  }

  lemma HeadFound(w: Written, rest: seq<byte>)
    requires IsTarget(w.target) && CR !in w.version && forall l :: l in w.lines ==> IsLine(l)
    ensures Find(HeadText(w) + rest, Blank()) == Some(|HeadText(w)| - 4)
  {
    hide Find, LinesText, HeaderTexts, RequestLine;
    LineIsPlain(w);
    TextsAreUnbroken(w.lines);
    HeadEnds([RequestLine(w)] + HeaderTexts(w.lines), rest);
  }

  lemma HeadSplits(w: Written)
    requires IsTarget(w.target) && CR !in w.version
    ensures var text, line, block := HeadText(w), RequestLine(w), LinesText(HeaderTexts(w.lines));
            && text == line + Crlf() + (block + Crlf())
            && Find(text, Crlf()) == Some(|line|) && text[..|line|] == line
            && text[|line| + 2..|text| - 2] == block
  {
    hide Find, LinesText, HeaderTexts, RequestLine;
    var text, line, block := HeadText(w), RequestLine(w), LinesText(HeaderTexts(w.lines));
    LineIsPlain(w);
    LinesConcat([line], HeaderTexts(w.lines));
    OneLine(line);
    assert text == line + Crlf() + (block + Crlf());
    FirstBreak(line, block + Crlf());
    assert text[|line| + 2..|text| - 2] == block;
  }

  lemma HeadReads(w: Written, fields: seq<Field>)
    requires IsTarget(w.target) && CR !in w.version && (forall l :: l in w.lines ==> IsLine(l))
             && Means(w.lines, fields)
    ensures var text := HeadText(w);
            && |text| >= 4 && Find(text, Crlf()).Some? && Find(text, Crlf()).value + 4 <= |text|
            && ParseHead(text).Head? && IsHead(w, fields, ParseHead(text).req)
  {
    hide Find, LinesText, HeaderTexts, HeadText, IndexOf, MethodName, TargetText, SetPath, Means, IsLine;
    hide ParseMethod, Ascii, RequestLine, IsTarget;
    HeadSplits(w);
    WrittenLineSplits(w);
    MethodRoundTrip(w.verb);
    TargetReads(EmptyRequest(), w.target);
    HeadersRead(w.lines, fields);
    NotTheSame();
  }

  lemma NotTheSame()
    ensures EmptyRequest().query == []
  {
  }

  // ---------------------------------------------------------------- sizes

  lemma HexReads(b: byte)
    ensures if IsHex(b) then HexDigit(b) == Some(HexValue(b)) else HexDigit(b).None?
  {
  }

  lemma {:induction false} HexSnoc(s: seq<byte>, d: byte, note: seq<byte>, acc: nat)
    requires (forall b :: b in s ==> IsHex(b)) && IsHex(d) && IsNote(note)
    ensures HexRun(s + [d] + note, acc) == 16 * HexRun(s, acc) + HexValue(d)
    decreases |s|
  {
    HexReads(d);
    if |s| == 0 {
      assert (s + [d] + note)[1..] == note;
      if |note| > 0 {
        HexReads(note[0]);
      }
    } else {
      assert s[0] in s && forall b :: b in s[1..] ==> b in s;
      HexReads(s[0]);
      assert (s + [d] + note)[1..] == s[1..] + [d] + note;
      HexSnoc(s[1..], d, note, 16 * acc + HexValue(s[0]));
    }
  }

  /** The digits of a size line mean their number, whatever is behind them. */
  lemma {:induction false} SizeReads(s: seq<byte>, note: seq<byte>)
    requires |s| > 0 && (forall b :: b in s ==> IsHex(b)) && IsNote(note)
    ensures HexRun(s + note, 0) == HexOf(s)
    decreases |s|
  {
    hide HexRun;
    var front, d := s[..|s| - 1], s[|s| - 1];
    assert d in s && forall b :: b in front ==> b in s;
    assert s + note == front + [d] + note;
    HexSnoc(front, d, note, 0);
    if |front| > 0 {
      NoNote();
      SizeReads(front, []);
      assert front + [] == front;
    } else {
      NoHex(front);
    }
  }

  lemma NoNote()
    ensures IsNote([])
  {
  }

  lemma NoHex(s: seq<byte>)
    requires |s| == 0
    ensures HexRun(s, 0) == 0 && HexOf(s) == 0
  {
  }

  // ---------------------------------------------------------------- chunks

  lemma SizeLine(size: seq<byte>, note: seq<byte>, n: nat, tail: seq<byte>)
    requires SpellsHex(size, n) && IsNote(note) && n < SIZE_LIMIT
    ensures var d := size + note + Crlf() + tail;
            Find(d, Crlf()) == Some(|size| + |note|) && ChunkSize(d[..|size| + |note|]) == Some(n)
  {
    hide Find, HexRun, HexOf;
    var line := size + note;
    forall i | 0 <= i < |line| ensures line[i] != CR {
      assert line[i] in size || line[i] in note;
    }
    FirstBreak(line, tail);
    assert (line + Crlf() + tail)[..|line|] == line;
    SizeReads(size, note);
    assert line[0] == size[0] && size[0] in size;
    HexReads(size[0]);
  }

  lemma PiecesOf(a: seq<byte>, data: seq<byte>, more: seq<byte>)
    ensures var d := a + data + Crlf() + more;
            |d| == |a| + |data| + 2 + |more| && d[|a|..|a| + |data|] == data && d[|a| + |data| + 2..] == more
  {
  }

  lemma PlainTurn(b: seq<byte>, pos: nat, e: nat, n: nat)
    requires pos + e + 2 + n + 2 <= |b| < INT64_LIMIT && n > 0
             && Find(b[pos..], Crlf()) == Some(e) && ChunkSize(b[pos..pos + e]) == Some(n)
    ensures ChunkTurn(b, pos) == Onward(b[pos + e + 2..pos + e + 2 + n], pos + e + 2 + n + 2)
  {
    hide Find, ChunkSize;
    NoWrap(pos + e + 2 + n + 2);
  }

  lemma Within(b: seq<byte>, pos: nat, i: nat, j: nat)
    requires i <= j && pos + j <= |b|
    ensures b[pos + i..pos + j] == b[pos..][i..j]
  {
  }

  lemma Behind(b: seq<byte>, pos: nat, j: nat)
    requires pos + j <= |b|
    ensures b[pos + j..] == b[pos..][j..]
  {
  }

  lemma TurnReads(b: seq<byte>, pos: nat, c: Chunk, more: seq<byte>)
    requires pos <= |b| < INT64_LIMIT && IsChunk(c)
             && b[pos..] == c.size + c.note + Crlf() + c.data + Crlf() + more
    ensures |more| < |b| - pos && ChunkTurn(b, pos) == Onward(c.data, |b| - |more|) && b[|b| - |more|..] == more
  {
    hide Find, ChunkSize, ChunkTurn, SpellsHex, IsNote;
    var tail := c.data + Crlf() + more;
    var d, e, n := b[pos..], |c.size| + |c.note|, |c.data|;
    assert d == c.size + c.note + Crlf() + tail;
    SizeLine(c.size, c.note, n, tail);
    PiecesOf(c.size + c.note + Crlf(), c.data, more);
    Within(b, pos, 0, e);
    Within(b, pos, e + 2, e + 2 + n);
    Behind(b, pos, e + 2 + n + 2);
    assert |b| - |more| == pos + e + 2 + n + 2;
    assert b[pos + e + 2..pos + e + 2 + n] == c.data;
    PlainTurn(b, pos, e, n);
  }

  lemma LastReads(b: seq<byte>, pos: nat, last: seq<byte>, note: seq<byte>, rest: seq<byte>)
    requires pos <= |b| < INT64_LIMIT && SpellsHex(last, 0) && IsNote(note)
             && b[pos..] == last + note + Crlf() + Crlf() + rest
    ensures ChunkTurn(b, pos) == Stop(Whole([], |b| - |rest|))
  {
    hide Find, ChunkSize, SpellsHex, IsNote;
    var d, e := b[pos..], |last| + |note|;
    assert d == last + note + Crlf() + (Crlf() + rest);
    SizeLine(last, note, 0, Crlf() + rest);
    assert b[pos..pos + e] == d[..e];
  }

  /** The loop gathers the data of the chunks and ends behind the last one. */
  lemma {:induction false} ChunksRead(b: seq<byte>, pos: nat, seen: set<nat>, chunks: seq<Chunk>, last: seq<byte>,
      note: seq<byte>, rest: seq<byte>)
    requires pos <= |b| < INT64_LIMIT && (forall q :: q in seen ==> q < pos)
    requires b[pos..] == ChunksText(chunks) + last + note + Crlf() + Crlf() + rest
    requires (forall c :: c in chunks ==> IsChunk(c)) && SpellsHex(last, 0) && IsNote(note)
    ensures Walk(b, pos, seen) == Whole(DataOf(chunks), |b| - |rest|)
    decreases |chunks|
  {
    hide ChunkTurn, SpellsHex, IsNote, IsChunk;
    if |chunks| == 0 {
      assert b[pos..] == last + note + Crlf() + Crlf() + rest;
      LastReads(b, pos, last, note, rest);
    } else {
      assert chunks[0] in chunks;
      var c := chunks[0];
      var more := ChunksText(chunks[1..]) + last + note + Crlf() + Crlf() + rest;
      assert b[pos..] == c.size + c.note + Crlf() + c.data + Crlf() + more;
      TurnReads(b, pos, c, more);
      ChunksRead(b, |b| - |more|, seen + {pos}, chunks[1..], last, note, rest);
    }
  }

  // ---------------------------------------------------------------- bodies

  lemma HeaderNames()
    ensures Lower(Ascii("Content-Length")) == Ascii("content-length")
    ensures Lower(Ascii("Transfer-Encoding")) == Ascii("transfer-encoding")
  {
    var a, b := Ascii("Content-Length"), Ascii("content-length");
    assert |a| == 14 && |b| == 14;
    var c, d := Ascii("Transfer-Encoding"), Ascii("transfer-encoding");
    assert |c| == 17 && |d| == 17;
  }

  lemma FirstIsOne(fields: seq<Field>, name: seq<byte>, v: Option<seq<byte>>, v': Option<seq<byte>>)
    requires FirstUnder(fields, name, v) && FirstUnder(fields, name, v')
    ensures v == v'
  {
    hide Lower;
  }

  lemma ChunkedIff(fields: seq<Field>)
    ensures IsChunked(fields) <==> SaysChunked(fields)
  {
    hide Find, FirstUnder, Ascii, Lower, Occurs, Get;
    HeaderNames();
    var name, v := Ascii("transfer-encoding"), Get(fields, Ascii("Transfer-Encoding"));
    GetIsFirst(fields, Ascii("Transfer-Encoding"));
    if v.Some? {
      FindMeans(Lower(v.value), Ascii("chunked"));
    }
    if SaysChunked(fields) {
      var u, i: nat :| FirstUnder(fields, name, Some(u)) && Occurs(Lower(u), Ascii("chunked"), i);
      FirstIsOne(fields, name, v, Some(u));
    }
  }

  lemma LengthRead(fields: seq<Field>, v: Option<seq<byte>>)
    requires FirstUnder(fields, Ascii("content-length"), v)
    ensures v.None? ==> ContentLength(fields).None?
    ensures forall n: nat :: v.Some? && Denotes(v.value, n) && n < INT64_LIMIT ==> ContentLength(fields) == Some(n)
  {
    hide FirstUnder, Ascii, Lower, Get, DigitRun, DecimalOf;
    HeaderNames();
    GetIsFirst(fields, Ascii("Content-Length"));
    FirstIsOne(fields, Ascii("content-length"), v, Get(fields, Ascii("Content-Length")));
    forall n: nat | v.Some? && Denotes(v.value, n) && n < INT64_LIMIT ensures ContentLength(fields) == Some(n) {
      DigitsMean(v.value);
      assert v.value[0] in v.value;
    }
  }

  lemma BodyReads(fields: seq<Field>, framing: Framing, rest: seq<byte>)
    requires Announced(fields, framing) && |BodyText(framing) + rest| < INT64_LIMIT
    ensures ParseBody(BodyText(framing) + rest, fields) == Whole(BodyOf(framing), |BodyText(framing)|)
  {
    hide IsChunked, SaysChunked, ContentLength, Walk, FirstUnder, Denotes, Ascii, IsChunk, SpellsHex, IsNote;
    ChunkedIff(fields);
    var b := BodyText(framing) + rest;
    match framing
    case Bare => LengthRead(fields, None);
    case Sized(digits, data) =>
      LengthRead(fields, Some(digits));
      assert b[..|data|] == data;
    case Cut(chunks, last, note) =>
      assert b[0..] == ChunksText(chunks) + last + note + Crlf() + Crlf() + rest;
      ChunksRead(b, 0, {}, chunks, last, note, rest);
  }

  // ---------------------------------------------------------------- requests

  /**
    A request as written is read as the request that is meant, and exactly its text is consumed, whatever follows: any
    method, target, version and headers, folded or with blanks around their values, and a body of the announced length
    or in chunks cut anywhere.
   */
  lemma RequestReads(w: Written, fields: seq<Field>, rest: seq<byte>)
    requires WellWritten(w, fields) && |RequestText(w) + rest| < INT64_LIMIT
    ensures var r := ParseRequest(RequestText(w) + rest);
            r.Parsed? && IsRequest(w, fields, r.req) && r.consumed == |RequestText(w)|
  {
    hide Find, ParseHead, ParseBody, HeadText, BodyText, BodyOf, Announced, IsTarget, IsLine, Means, Blank;
    var head, body := HeadText(w), BodyText(w.framing) + rest;
    assert RequestText(w) + rest == head + body;
    HeadFound(w, body);
    FirstLine(head + body);
    HeadReads(w, fields);
    assert (head + body)[..|head|] == head && (head + body)[|head|..] == body;
    BodyReads(fields, w.framing, rest);
  }

  function HexDigitOf(n: nat, upper: bool): byte
    requires n < 16
  {
    if n < 10 then 48 + n else if upper then 65 + n - 10 else 97 + n - 10
  }

  /** Every size can be spelled, in either case. */
  lemma {:induction false} CanSpell(n: nat, upper: bool) returns (s: seq<byte>)
    ensures SpellsHex(s, n) && forall b :: b in s ==> b <= 57 || (b <= 70 <==> upper)
    decreases n
  {
    var d := HexDigitOf(n % 16, upper);
    if n < 16 {
      s := [d];
      assert s[..0] == [];
    } else {
      var front := CanSpell(n / 16, upper);
      s := front + [d];
      assert s[..|s| - 1] == front;
    }
  }

  /** Any body can be cut anywhere. */
  lemma {:induction false} CanCut(pieces: seq<seq<byte>>, upper: bool) returns (chunks: seq<Chunk>)
    requires forall p :: p in pieces ==> |p| > 0
    ensures (forall c :: c in chunks ==> IsChunk(c)) && |chunks| == |pieces|
    ensures forall i :: 0 <= i < |chunks| ==> chunks[i].data == pieces[i]
    decreases |pieces|
  {
    hide SpellsHex;
    chunks := [];
    if |pieces| > 0 {
      assert pieces[0] in pieces;
      var size := CanSpell(|pieces[0]|, upper);
      var rest := CanCut(pieces[1..], upper);
      chunks := [Chunk(size, [], pieces[0])] + rest;
    }
  }

  // ---------------------------------------------------------------- what is refused

  /** A method, a target without a space and anything else. */
  ghost predicate IsRequestLine(line: seq<byte>) {
    exists m, target, version :: line == MethodName(m) + [32] + target + [32] + version && 32 !in target
  }

  lemma VerbNamed(s: seq<byte>)
    requires ParseMethod(s).Some?
    ensures s == MethodName(ParseMethod(s).value)
  {
    hide Ascii;
  }

  lemma RequestLineSplits(line: seq<byte>)
    requires IsRequestLine(line)
    ensures var sp1 := IndexOf(line, SPACE);
            && sp1 < |line| && ParseMethod(line[..sp1]).Some?
            && IndexOf(line[sp1 + 1..], SPACE) < |line[sp1 + 1..]|
  {
    hide MethodName, ParseMethod, IndexOf;
    var m, target, version :| line == MethodName(m) + [32] + target + [32] + version && 32 !in target;
    LineSplits(m, target, version);
    MethodRoundTrip(m);
  }

  lemma SplitIsRequestLine(line: seq<byte>)
    requires var sp1 := IndexOf(line, SPACE);
             && sp1 < |line| && ParseMethod(line[..sp1]).Some?
             && IndexOf(line[sp1 + 1..], SPACE) < |line[sp1 + 1..]|
    ensures IsRequestLine(line)
  {
    hide MethodName, ParseMethod, IndexOf;
    var sp1 := IndexOf(line, SPACE);
    var after := line[sp1 + 1..];
    var sp2 := IndexOf(after, SPACE);
    var m, target, version := ParseMethod(line[..sp1]).value, after[..sp2], after[sp2 + 1..];
    VerbNamed(line[..sp1]);
    assert line == MethodName(m) + [32] + target + [32] + version;
  }

  /** A head is refused if and only if its first line is no request line. */
  lemma HeadRefusedIff(text: seq<byte>)
    requires |text| >= 4 && Find(text, Crlf()).Some? && Find(text, Crlf()).value + 4 <= |text|
    ensures ParseHead(text).BadHead? <==> !IsRequestLine(text[..Find(text, Crlf()).value])
  {
    hide Find, ParseMethod, IndexOf, SetPath, HeaderLines, IsRequestLine;
    var line := text[..Find(text, Crlf()).value];
    if IsRequestLine(line) {
      RequestLineSplits(line);
    } else if ParseHead(text).Head? {
      SplitIsRequestLine(line);
    }
  }

  /** Hexadecimal digits of a number below 2^64, and anything else. */
  ghost predicate IsSizeLine(line: seq<byte>) {
    exists size, note, n: nat :: line == size + note && SpellsHex(size, n) && n < SIZE_LIMIT && IsNote(note)
  }

  lemma {:induction false} DigitsInFront(line: seq<byte>) returns (size: seq<byte>, note: seq<byte>)
    requires CR !in line
    ensures line == size + note && (forall b :: b in size ==> IsHex(b)) && IsNote(note)
    decreases |line|
  {
    if |line| == 0 || !IsHex(line[0]) {
      size, note := [], line;
    } else {
      size, note := DigitsInFront(line[1..]);
      size := [line[0]] + size;
      assert line == [line[0]] + line[1..];
    }
  }

  lemma SizeRefusedIff(line: seq<byte>)
    requires CR !in line
    ensures ChunkSize(line).None? <==> !IsSizeLine(line)
  {
    hide HexRun, HexOf;
    if IsSizeLine(line) {
      var size, note, n: nat :| line == size + note && SpellsHex(size, n) && n < SIZE_LIMIT && IsNote(note);
      SizeReads(size, note);
      assert line[0] == size[0] && size[0] in size;
      HexReads(size[0]);
    } else {
      var size, note := DigitsInFront(line);
      if |size| > 0 {
        SizeReads(size, note);
        assert line[0] == size[0];
        assert SpellsHex(size, HexRun(line, 0));
      } else if |line| > 0 {
        HexReads(line[0]);
      }
    }
  }

  lemma BadLine(b: seq<byte>, pos: nat, line: seq<byte>, rest: seq<byte>)
    requires pos <= |b| && CR !in line && b[pos..] == line + Crlf() + rest && !IsSizeLine(line)
    ensures ChunkTurn(b, pos) == Stop(BadChunk)
  {
    hide Find, ChunkSize, IsSizeLine;
    FirstBreak(line, rest);
    assert b[pos..pos + |line|] == b[pos..][..|line|] == line;
    SizeRefusedIff(line);
  }

  /** Behind any chunks, a line that is no size ends the loop with an error. */
  lemma {:induction false} BadChunkFound(b: seq<byte>, pos: nat, seen: set<nat>, chunks: seq<Chunk>, line: seq<byte>,
      rest: seq<byte>)
    requires pos <= |b| < INT64_LIMIT && (forall q :: q in seen ==> q < pos)
    requires b[pos..] == ChunksText(chunks) + line + Crlf() + rest
    requires (forall c :: c in chunks ==> IsChunk(c)) && CR !in line && !IsSizeLine(line)
    ensures Walk(b, pos, seen) == BadChunk
    decreases |chunks|
  {
    hide ChunkTurn, IsChunk, IsSizeLine;
    if |chunks| == 0 {
      assert b[pos..] == line + Crlf() + rest;
      BadLine(b, pos, line, rest);
    } else {
      assert chunks[0] in chunks;
      var c := chunks[0];
      var more := ChunksText(chunks[1..]) + line + Crlf() + rest;
      assert b[pos..] == c.size + c.note + Crlf() + c.data + Crlf() + more;
      TurnReads(b, pos, c, more);
      BadChunkFound(b, |b| - |more|, seen + {pos}, chunks[1..], line, rest);
    }
  }

  /** A line that is no size, where one is due, is an error at once. */
  lemma BadSizeRefused(w: Written, fields: seq<Field>, line: seq<byte>, rest: seq<byte>)
    requires WellWritten(w, fields) && w.framing.Cut? && CR !in line && !IsSizeLine(line)
    requires |HeadText(w) + (ChunksText(w.framing.chunks) + line + Crlf() + rest)| < INT64_LIMIT
    ensures ParseRequest(HeadText(w) + (ChunksText(w.framing.chunks) + line + Crlf() + rest)).Malformed?
  {
    hide Find, ParseHead, HeadText, IsTarget, IsLine, Means, Blank, IsChunk, IsSizeLine, IsChunked, SaysChunked, Walk;
    var head, body := HeadText(w), ChunksText(w.framing.chunks) + line + Crlf() + rest;
    HeadFound(w, body);
    FirstLine(head + body);
    HeadReads(w, fields);
    assert (head + body)[..|head|] == head && (head + body)[|head|..] == body;
    ChunkedIff(fields);
    assert body[0..] == body;
    BadChunkFound(body, 0, {}, w.framing.chunks, line, rest);
  }
}
