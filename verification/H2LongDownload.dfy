/**
  A client run that outlives its server: because send windows are only ever credited, the credit for
  two gibibytes of received data is too much for the server, although the data it sent used it up.
 */
module H2LongDownload {
  import opened Bytes
  import opened H2Frame
  import opened HttpTypes
  import opened Hpack
  import opened H2Session
  import opened H2Books
  import opened H2EndToEnd

  const BIG := LENGTH_LIMIT - 1

  /** The largest DATA frame, on the stream of the first request. */
  function BigData(): Frame {
    Frame(DATA, 0, 1, seq(BIG, _ => 0))
  }

  /** One request, then k large DATA frames of its response. */
  function Download(k: nat): seq<ClientOp> {
    if k == 0 then [Submit(EmptyRequest())] else Download(k - 1) + [Receive(BigData())]
  }

  /** The client between two such frames: both receive windows full, k frames' worth of credit announced. */
  ghost predicate Downloading(c: Session, k: nat) {
    && c.mode.Client? && c.alive && c.contSid == 0 && c.connRecv == DEFAULT_WINDOW
    && 1 in c.streams && c.streams[1].recvWindow == DEFAULT_WINDOW
    && Announced(c.output, 0) == k * BIG
  }

  lemma BigContent()
    ensures Unpadded(BigData()) == Content(BigData().payload) && |BigData().payload| == BIG
            && !HasFlag(BigData(), END_STREAM)
    ensures BigData().kind == DATA && BigData().sid == 1 && Fits(BigData())
  {
  }

  lemma Credited(k: nat)
    ensures k * BIG + BIG == (k + 1) * BIG
  {
  }

  lemma BigStep(c: Session, k: nat)
    requires Downloading(c, k)
    ensures Downloading(ProcessFrame(c, BigData()), k + 1)
  {
    hide BigData, Announced, Unpadded, HasFlag, EndOfStream, RefillFrames, Ascii;
    var f := BigData();
    BigContent();
    var data, st := f.payload, c.streams[1];
    var s0 := WithStream(c, 1, st.(body := st.body + data));
    var c' := CountData(s0, 1, BIG);
    assert ProcessFrame(c, f) == c';
    assert Refill(DEFAULT_WINDOW - BIG) == BIG;
    var fs := RefillFrames(0, BIG) + RefillFrames(1, BIG);
    assert c'.output == c.output + fs;
    AnnouncedConcat(c.output, fs, 0);
    RefillAnnounced(1, BIG, BIG, 0);
    Credited(k);
  }

  lemma {:induction false} DownloadRuns(tb: Tables, handler: Request -> Response, k: nat)
    requires Addressable(tb)
    ensures var c := NewSession(Client, tb, handler);
            OrdinaryRun(c, Download(k)) && Downloading(ClientRun(c, Download(k)), k)
  {
    hide ProcessFrame, SubmitRequest, BigData, InitialSettings, Announced, EmptyRequest, Downloading;
    var c := NewSession(Client, tb, handler);
    if k == 0 {
      Asked(tb, handler);
      assert Download(0)[..0] == [];
      assert ClientRun(c, []) == c;
    } else {
      DownloadRuns(tb, handler, k - 1);
      assert Download(k)[..|Download(k)| - 1] == Download(k - 1);
      BigStep(ClientRun(c, Download(k - 1)), k - 1);
      BigContent();
      AliveWhileDownloading(ProcessFrame(ClientRun(c, Download(k - 1)), BigData()), k);
    }
  }

  lemma AliveWhileDownloading(c: Session, k: nat)
    requires Downloading(c, k)
    ensures c.alive
  {
  }

  lemma Asked(tb: Tables, handler: Request -> Response)
    requires Addressable(tb)
    ensures var c := NewSession(Client, tb, handler);
            Ordinary(c, Submit(EmptyRequest())) && Downloading(SubmitRequest(c, EmptyRequest(), false), 0)
  {
    hide RequestFields, EncodeBlock, HeaderFrames, InitialSettings;
    var c := NewSession(Client, tb, handler);
    var req := EmptyRequest();
    SmallRequest();
    OrdinaryStart(tb, handler);
    SubmissionsWithinCredit(tb, handler, [Submit(req)]);
    assert [Submit(req)][..0] == [];
    assert ClientRun(c, []) == c;
    assert ClientRun(c, [Submit(req)]) == SubmitRequest(c, req, false);
  }

  lemma OrdinaryStart(tb: Tables, handler: Request -> Response)
    requires AllSized(RequestFields(EmptyRequest()))
    ensures OrdinaryRun(NewSession(Client, tb, handler), [Submit(EmptyRequest())])
  {
    hide RequestFields, SubmitRequest, EmptyRequest;
    var c := NewSession(Client, tb, handler);
    assert [Submit(EmptyRequest())][..0] == [];
    assert OrdinaryRun(c, []) && ClientRun(c, []) == c;
  }

  lemma SmallRequest()
    ensures AllSized(RequestFields(EmptyRequest()))
  {
  }

  lemma TooMuch(tb: Tables, handler: Request -> Response, k: nat)
    requires Addressable(tb)
    ensures var c := NewSession(Client, tb, handler);
            && OrdinaryRun(c, Download(k)) && ClientRun(c, Download(k)).alive
            && (WithinCredit(ClientRun(c, Download(k))) <==> k < 128)
  {
    hide OrdinaryRun, ClientRun, NewSession, Announced, Download;
    DownloadRuns(tb, handler, k);
  }

  /**
    After 128 large frames, and not before, the announced credit no longer fits: the client is alive, and a server
    that is fed what the client wrote, in whatever pieces, is not.
   */
  lemma LongDownloadKills(tb: Tables, onClient: Request -> Response, onServer: Request -> Response, k: nat,
        chunks: seq<seq<byte>>)
    requires Addressable(tb)
             && Concat(chunks) == Serialize(ClientRun(NewSession(Client, tb, onClient), Download(k)).output)
    ensures ClientRun(NewSession(Client, tb, onClient), Download(k)).alive
    ensures FeedAll(Inbox(NewSession(Server, tb, onServer), []), chunks).session.alive <==> k < 128
  {
    hide OrdinaryRun, ClientRun, NewSession, FeedAll, Concat, Serialize, Announced, Download, Expected;
    TooMuch(tb, onClient, k);
    EndToEnd(tb, onClient, onServer, Download(k), chunks);
  }
}
