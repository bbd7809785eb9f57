/**
  Several requests on one HTTP/1.1 connection (src/http/server_impl.cpp). Before each request the loop clears its
  buffer, so whatever was read beyond the end of a request is lost: exactly when does every request get served?
 */
module Http1Connection {
  import opened Bytes
  import opened DynamicTable
  import opened HttpTypes
  import opened Http1
  import HttpLists
  import Http1Chunks
  import Http1Render

  predicate KeepsOpen(req: Request) {
    var v := Get(req.hdrs, Ascii("Connection"));
    req.version == Http11 && (v.None? || Lower(v.value) == Ascii("keep-alive"))
  }

  /** A request handed to the router, and the bytes it was parsed from. */
  datatype Service = Service(wire: seq<byte>, req: Request)

  lemma NothingYet()
    ensures ParseRequest([]).NeedMore?
  {
  }

  lemma TakenSome(chunks: seq<seq<byte>>)
    requires ParseRequest(Concat(chunks[..Taken(chunks)])).Parsed?
    ensures Taken(chunks) > 0
  {
    hide ParseRequest, Concat;
    NothingYet();
    NoChunks(chunks[..0]);
  }

  /** The loop over the reads of a connection: a buffer of its own for each request, until one closes or none comes. */
  function Served(chunks: seq<seq<byte>>): seq<Service>
    decreases |chunks|
  {
    var got := Concat(chunks[..Taken(chunks)]);
    var r := ParseRequest(got);
    if !r.Parsed? then []
    else
      TakenSome(chunks);
      [Service(got[..r.consumed], r.req)] + if KeepsOpen(r.req) then Served(chunks[Taken(chunks)..]) else []
  }

  // ---------------------------------------------------------------- keeping open

  /** HTTP/1.1, and no first Connection header that says anything but keep-alive, in any case. */
  ghost predicate AsksToStay(hdrs: seq<Field>) {
    || HttpLists.FirstUnder(hdrs, Ascii("connection"), None)
    || exists v :: HttpLists.FirstUnder(hdrs, Ascii("connection"), Some(v)) && Lower(v) == Ascii("keep-alive")
  }

  lemma LowerConnection()
    ensures Lower(Ascii("Connection")) == Ascii("connection")
  {
    var a, b := Ascii("Connection"), Ascii("connection");
    assert |a| == 10 && |b| == 10;
  }

  lemma KeepsOpenIff(req: Request)
    ensures KeepsOpen(req) <==> Stays(req)
  {
    hide Ascii, Lower, HttpLists.FirstUnder, Get;
    LowerConnection();
    var name, v := Ascii("connection"), Get(req.hdrs, Ascii("Connection"));
    HttpLists.GetIsFirst(req.hdrs, Ascii("Connection"));
    if AsksToStay(req.hdrs) {
      if HttpLists.FirstUnder(req.hdrs, name, None) {
        Http1Render.FirstIsOne(req.hdrs, name, v, None);
      } else {
        var u :| HttpLists.FirstUnder(req.hdrs, name, Some(u)) && Lower(u) == Ascii("keep-alive");
        Http1Render.FirstIsOne(req.hdrs, name, v, Some(u));
      }
    }
  }

  ghost predicate Stays(req: Request) {
    req.version.Http11? && AsksToStay(req.hdrs)
  }

  ghost predicate AllButLastStay(ss: seq<Service>) {
    forall i :: 0 <= i < |ss| - 1 ==> Stays(ss[i].req)
  }

  lemma OneMoreStays(s: Service, rest: seq<Service>)
    requires AllButLastStay(rest) && (rest != [] ==> Stays(s.req))
    ensures AllButLastStay([s] + rest)
  {
    hide Stays;
    var ss := [s] + rest;
    forall i | 0 <= i < |ss| - 1 ensures Stays(ss[i].req) {
      assert i > 0 ==> ss[i] == rest[i - 1];
    }
  }

  /** Nothing is served behind a request that does not ask to stay. */
  lemma {:induction false} OnlyLastCloses(chunks: seq<seq<byte>>)
    ensures AllButLastStay(Served(chunks))
    decreases |chunks|
  {
    hide ParseRequest, Concat, KeepsOpen, Taken, AsksToStay, AllButLastStay;
    var j := Taken(chunks);
    var got := Concat(chunks[..j]);
    var r := ParseRequest(got);
    NoneToStay();
    if r.Parsed? {
      TakenSome(chunks);
      KeepsOpenIff(r.req);
      OnlyLastCloses(chunks[j..]);
      OneMoreStays(Service(got[..r.consumed], r.req), if KeepsOpen(r.req) then Served(chunks[j..]) else []);
    }
  }

  lemma NoneToStay()
    ensures AllButLastStay([])
  {
  }

  // ---------------------------------------------------------------- bytes

  lemma {:induction false} ConcatSplit(chunks: seq<seq<byte>>, k: nat)
    requires k <= |chunks|
    ensures Concat(chunks) == Concat(chunks[..k]) + Concat(chunks[k..])
    decreases |chunks| - k
  {
    var n := |chunks|;
    if k == n {
      assert chunks[..k] == chunks && chunks[k..] == [];
      assert Concat(chunks[k..]) == [];
    } else {
      ConcatSplit(chunks[..n - 1], k);
      assert chunks[..n - 1][..k] == chunks[..k];
      assert chunks[k..][..n - 1 - k] == chunks[..n - 1][k..];
    }
  }

  function Length(ss: seq<Service>): nat {
    if |ss| == 0 then 0 else |ss[0].wire| + Length(ss[1..])
  }

  /** No byte is served twice. */
  lemma {:induction false} ServedLength(chunks: seq<seq<byte>>)
    ensures Length(Served(chunks)) <= |Concat(chunks)|
    decreases |chunks|
  {
    hide ParseRequest, Concat, KeepsOpen, Taken;
    var j := Taken(chunks);
    var r := ParseRequest(Concat(chunks[..j]));
    if r.Parsed? {
      TakenSome(chunks);
      ConcatSplit(chunks, j);
      ServedLength(chunks[j..]);
    }
  }

  // ---------------------------------------------------------------- well-formed streams

  /** The bytes of exactly one request. */
  ghost predicate Good(w: seq<byte>) {
    var r := ParseRequest(w);
    r.Parsed? && r.consumed == |w| && !ReadsHuge(w)
  }

  ghost function RequestOf(w: seq<byte>): Request
    requires Good(w)
  {
    ParseRequest(w).req
  }

  /** Requests one after the other, none but the last closing the connection. */
  ghost predicate Stream(ws: seq<seq<byte>>) {
    && (forall w :: w in ws ==> Good(w))
    && forall i :: 0 <= i < |ws| - 1 ==> Good(ws[i]) && KeepsOpen(RequestOf(ws[i]))
  }

  /** Every written request is one. */
  lemma WrittenIsGood(w: Http1Render.Written, fields: seq<Field>)
    requires Http1Render.WellWritten(w, fields) && |Http1Render.RequestText(w)| + 1 < Http1Chunks.INT64_LIMIT
    ensures Good(Http1Render.RequestText(w))
    ensures KeepsOpen(RequestOf(Http1Render.RequestText(w))) <==> w.version != Ascii("HTTP/1.0") && AsksToStay(fields)
  {
    hide ParseRequest, ReadsHuge, KeepsOpen, AsksToStay, Http1Render.WellWritten, Http1Render.RequestText;
    var text := Http1Render.RequestText(w);
    Http1Render.RequestReads(w, fields, []);
    Http1Render.RequestReads(w, fields, [0]);
    assert text + [] == text;
    RequestExtends(text, [0]);
    KeepsOpenIff(ParseRequest(text).req);
  }

  function Flat(ws: seq<seq<byte>>): seq<byte> {
    if |ws| == 0 then [] else ws[0] + Flat(ws[1..])
  }

  ghost function Ideal(ws: seq<seq<byte>>): seq<Service>
    requires forall w :: w in ws ==> Good(w)
  {
    if |ws| == 0 then []
    else
      assert ws[0] in ws;
      [Service(ws[0], RequestOf(ws[0]))] + Ideal(ws[1..])
  }

  /** Each request ends where a read ends, and comes in fewer than 1000 reads. */
  ghost predicate Aligned(ws: seq<seq<byte>>, chunks: seq<seq<byte>>)
    decreases |ws|
  {
    || |ws| == 0
    || exists j: nat ::
         j <= |chunks| && j < ATTEMPTS && Concat(chunks[..j]) == ws[0] && Aligned(ws[1..], chunks[j..])
  }

  /** What is made of the beginning of a stream whose first request is w. */
  lemma PartOfStream(w: seq<byte>, d: seq<byte>, rest: seq<byte>)
    requires Good(w) && d <= w + rest
    ensures if |d| < |w| then ParseRequest(d).NeedMore? else ParseRequest(d) == ParseRequest(w)
  {
    hide ParseRequest, ReadsHuge;
    if |d| < |w| {
      assert d == w[..|d|];
      PrefixNeedsMore(w, |d|);
    } else {
      var more := d[|w|..];
      assert d == w + more;
      RequestExtends(w, more);
    }
  }

  /** The reads made for w: up to the first with which all of w is there. */
  lemma FirstRound(w: seq<byte>, rest: seq<byte>, chunks: seq<seq<byte>>)
    requires Good(w) && Concat(chunks) == w + rest
    ensures var j := Taken(chunks);
            var got := Concat(chunks[..j]);
            && got <= w + rest
            && (if |got| < |w| then ParseRequest(got).NeedMore? && j == Min(|chunks|, ATTEMPTS - 1)
              else ParseRequest(got) == ParseRequest(w))
            && forall i: nat :: i < j ==> |Concat(chunks[..i])| < |w|
  {
    hide ParseRequest, ReadsHuge, Concat;
    var j := Taken(chunks);
    assert chunks[..|chunks|] == chunks;
    forall i: nat | i <= |chunks| ensures Concat(chunks[..i]) <= w + rest {
      ConcatPrefix(chunks, i, |chunks|);
    }
    PartOfStream(w, Concat(chunks[..j]), rest);
    forall i: nat | i < j ensures |Concat(chunks[..i])| < |w| {
      PartOfStream(w, Concat(chunks[..i]), rest);
    }
  }

  lemma {:induction false} Monotone(chunks: seq<seq<byte>>, i: nat, j: nat)
    requires i < j <= |chunks| && forall c :: c in chunks ==> c != []
    ensures |Concat(chunks[..i])| < |Concat(chunks[..j])|
  {
    hide Concat;
    ConcatPrefix(chunks, i, j - 1);
    AppendChunk(chunks, j - 1);
    assert chunks[j - 1] in chunks;
  }

  /** If the reads up to j are exactly the first request, the loop takes those. */
  lemma TakesExactly(w: seq<byte>, rest: seq<byte>, chunks: seq<seq<byte>>, j: nat)
    requires Good(w) && Concat(chunks) == w + rest && forall c :: c in chunks ==> c != []
    requires j <= |chunks| && j < ATTEMPTS && Concat(chunks[..j]) == w
    ensures Taken(chunks) == j
  {
    hide ParseRequest, ReadsHuge, Concat, Taken;
    var t := Taken(chunks);
    FirstRound(w, rest, chunks);
    if t < j {
      Monotone(chunks, t, j);
    }
  }

  lemma {:induction false} IdealLength(ws: seq<seq<byte>>)
    requires forall w :: w in ws ==> Good(w)
    ensures Length(Ideal(ws)) == |Flat(ws)|
    decreases |ws|
  {
    hide ParseRequest, ReadsHuge, Good;
    if |ws| > 0 {
      IdealLength(ws[1..]);
      assert Ideal(ws)[1..] == Ideal(ws[1..]);
    }
  }

  lemma FirstServed(w: seq<byte>, rest: seq<byte>, chunks: seq<seq<byte>>)
    requires Good(w) && Concat(chunks) == w + rest && |Concat(chunks[..Taken(chunks)])| >= |w|
    ensures var r := RequestOf(w);
            Served(chunks) == [Service(w, r)] + if KeepsOpen(r) then Served(chunks[Taken(chunks)..]) else []
  {
    hide ParseRequest, ReadsHuge, Concat, Taken, KeepsOpen;
    FirstRound(w, rest, chunks);
    var got := Concat(chunks[..Taken(chunks)]);
    assert got[..|w|] == w;
    TakenSome(chunks);
  }

  lemma NothingServed(chunks: seq<seq<byte>>)
    requires Concat(chunks) == []
    ensures Served(chunks) == []
  {
    hide ParseRequest, Concat, Taken, KeepsOpen;
    ConcatPrefix(chunks, Taken(chunks), |chunks|);
    assert chunks[..|chunks|] == chunks;
    NothingYet();
  }

  lemma StreamTail(ws: seq<seq<byte>>)
    requires Stream(ws) && |ws| > 0
    ensures Good(ws[0]) && Stream(ws[1..]) && (|ws| > 1 ==> KeepsOpen(RequestOf(ws[0])))
  {
    hide Good, ParseRequest, KeepsOpen;
    assert ws[0] in ws;
  }

  lemma {:induction false} AlignedIsServed(ws: seq<seq<byte>>, chunks: seq<seq<byte>>)
    requires Stream(ws) && Concat(chunks) == Flat(ws) && (forall c :: c in chunks ==> c != []) && Aligned(ws, chunks)
    ensures Served(chunks) == Ideal(ws)
    decreases |ws|
  {
    hide ParseRequest, ReadsHuge, Concat, Taken, KeepsOpen, Served, Good, Stream;
    GoodAll(ws);
    if |ws| == 0 {
      NothingServed(chunks);
    } else {
      StreamTail(ws);
      var w, rest := ws[0], Flat(ws[1..]);
      var j: nat :| j <= |chunks| && j < ATTEMPTS && Concat(chunks[..j]) == w && Aligned(ws[1..], chunks[j..]);
      TakesExactly(w, rest, chunks, j);
      FirstServed(w, rest, chunks);
      ConcatSplit(chunks, j);
      Cancel(w, Concat(chunks[j..]), rest);
      assert forall c :: c in chunks[j..] ==> c in chunks;
      AlignedIsServed(ws[1..], chunks[j..]);
    }
  }

  lemma Cancel(a: seq<byte>, b: seq<byte>, c: seq<byte>)
    requires a + b == a + c
    ensures b == c
  {
    assert (a + b)[|a|..] == b && (a + c)[|a|..] == c;
  }

  lemma GoodAll(ws: seq<seq<byte>>)
    requires Stream(ws)
    ensures forall w :: w in ws ==> Good(w)
  {
  }

  lemma {:induction false} ServedIsAligned(ws: seq<seq<byte>>, chunks: seq<seq<byte>>)
    requires Stream(ws) && Concat(chunks) == Flat(ws) && (forall w :: w in ws ==> Good(w))
             && Served(chunks) == Ideal(ws)
    ensures Aligned(ws, chunks)
    decreases |ws|
  {
    hide ParseRequest, ReadsHuge, Concat, Taken, KeepsOpen, Good, Stream, Served, Length;
    if |ws| > 0 {
      StreamTail(ws);
      var w, rest, j := ws[0], Flat(ws[1..]), Taken(chunks);
      FirstRound(w, rest, chunks);
      var got := Concat(chunks[..j]);
      assert |got| >= |w| by { NoneWhileWaiting(chunks); }
      FirstServed(w, rest, chunks);
      var later := if KeepsOpen(RequestOf(w)) then Served(chunks[j..]) else [];
      assert later == Served(chunks)[1..] == Ideal(ws[1..]);
      IdealLength(ws[1..]);
      ConcatSplit(chunks, j);
      ServedLength(chunks[j..]);
      LengthOfNone();
      assert Length(later) <= |Concat(chunks[j..])|;
      assert got == w;
      Cancel(w, Concat(chunks[j..]), rest);
      if |ws| == 1 {
        assert ws[1..] == [];
        NothingServed(chunks[j..]);
      }
      ServedIsAligned(ws[1..], chunks[j..]);
      assert j < ATTEMPTS by { TakenFew(chunks); }
    }
  }

  lemma NoneWhileWaiting(chunks: seq<seq<byte>>)
    ensures ParseRequest(Concat(chunks[..Taken(chunks)])).NeedMore? ==> Served(chunks) == []
  {
    hide ParseRequest, Concat, Taken;
  }

  lemma LengthOfNone()
    ensures Length([]) == 0
  {
  }

  lemma TakenFew(chunks: seq<seq<byte>>)
    ensures Taken(chunks) < ATTEMPTS
  {
  }

  /**
    Of a stream of requests on one connection every one is served, from its own bytes and in order, if and only if
    each of them ends where a read ends and comes in fewer than 1000 reads.
   */
  lemma ServedExactly(ws: seq<seq<byte>>, chunks: seq<seq<byte>>)
    requires Stream(ws) && Concat(chunks) == Flat(ws) && forall c :: c in chunks ==> c != []
    requires forall w :: w in ws ==> Good(w)
    ensures Served(chunks) == Ideal(ws) <==> Aligned(ws, chunks)
  {
    hide Served, Aligned, Stream, Good, Flat, Concat, Ideal;
    if Aligned(ws, chunks) {
      AlignedIsServed(ws, chunks);
    }
    if Served(chunks) == Ideal(ws) {
      ServedIsAligned(ws, chunks);
    }
  }

  /** Two requests that arrive in one read: the second is lost. */
  lemma PipelinedIsLost(a: seq<byte>, b: seq<byte>)
    requires Stream([a, b]) && Good(a)
    ensures Served([a + b]) == [Service(a, RequestOf(a))]
  {
    hide ParseRequest, ReadsHuge, Taken, KeepsOpen, Served, Good;
    var chunks := [a + b];
    assert chunks[..0] == [] && chunks[..1] == chunks && chunks[1..] == [];
    assert Concat(chunks) == a + b;
    assert !ParseRequest(a + b).NeedMore? by { SecondBehind(a, b); }
    OnlyOne(chunks);
    FirstServed(a, b, chunks);
    NothingServed([]);
  }

  lemma SecondBehind(a: seq<byte>, b: seq<byte>)
    requires Good(a)
    ensures ParseRequest(a + b).Parsed?
  {
    hide ParseRequest, ReadsHuge;
    PartOfStream(a, a + b, b);
  }

  lemma OnlyOne(chunks: seq<seq<byte>>)
    requires |chunks| == 1 && !ParseRequest(Concat(chunks)).NeedMore?
    ensures Taken(chunks) == 1
  {
    hide ParseRequest, Concat;
    NothingYet();
    NoChunks(chunks[..0]);
  }

  // ---------------------------------------------------------------- the loop

  lemma ServedStep(chunks: seq<seq<byte>>)
    ensures var got := Concat(chunks[..Taken(chunks)]);
            var r := ParseRequest(got);
            Served(chunks) == if !r.Parsed? then []
                              else [Service(got[..r.consumed], r.req)] + if KeepsOpen(r.req)
                                then Served(chunks[Taken(chunks)..]) else []
  {
    hide ParseRequest, Concat, Taken, KeepsOpen;
  }

  method ServeConnection(chunks: seq<seq<byte>>) returns (served: seq<Request>)
    ensures |served| == |Served(chunks)| && forall i :: 0 <= i < |served| ==> served[i] == Served(chunks)[i].req
  {
    hide ParseRequest, Concat, Taken, KeepsOpen, Served;
    served := [];
    var rest := chunks;
    ghost var done: seq<Service> := [];
    while true
      invariant done + Served(rest) == Served(chunks)
      invariant |served| == |done| && forall i :: 0 <= i < |served| ==> served[i] == done[i].req
      decreases |rest|
    {
      var r, used := ReadRequest(rest);
      ServedStep(rest);
      if !r.Parsed? {
        return;
      }
      TakenSome(rest);
      served := served + [r.req];
      done := done + [Service(Concat(rest[..used])[..r.consumed], r.req)];
      if !KeepsOpen(r.req) {
        return;
      }
      rest := rest[used..];
    }
  }
}
