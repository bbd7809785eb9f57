/** The writer and reader objects of src/grpc/grpc_stream.cpp, over the session object. */
module GrpcStream {
  import opened Bytes
  import opened H2Frame
  import opened HttpTypes
  import opened H2Session
  import opened H2Splitting
  import opened Http2SessionObject
  import GrpcReader

  class StreamWriter {
    const session: Http2Session
    const sid: nat
    var finished: bool

    ghost function View(): Writer
      reads this, session
    {
      Writer(session.View(), sid, finished)
    }

    constructor (session: Http2Session, sid: nat)
      ensures this.session == session && View() == Writer(session.View(), sid, false)
    {
      this.session, this.sid, finished := session, sid, false;
    }

    /** Refused once finished; otherwise one message's DATA frames, leaving the stream open. */
    method SendMessage(message: seq<byte>) returns (ok: bool)
      requires session.Valid()
      modifies session
      ensures session.Valid() && ok == !old(finished) && View() == WriterStep(old(View()), Write(message))
    {
      hide Serialize, DataFrames, GrpcMessage;
      if finished {
        return false;
      }
      session.SubmitTheData(sid, GrpcMessage(message), false);
      return true;
    }

    method Close(status: int, text: seq<byte>)
      requires session.Valid()
      modifies this, session
      ensures session.Valid() && View() == WriterStep(old(View()), Finish(status, text))
    {
      hide Serialize, SubmitTrailers, GrpcTrailers;
      if finished {
        return;
      }
      finished := true;
      session.SubmitTheTrailers(sid, GrpcTrailers(status, text));
    }
  }

  /** A streaming answer begins with its headers, and a writer for what follows. */
  method OpenStream(session: Http2Session, sid: nat, resp: Response) returns (w: StreamWriter)
    requires session.Valid()
    modifies session
    ensures session.Valid() && w.View() == Writer(SubmitResponseHeaders(old(session.View()), sid, resp), sid, false)
    ensures w.session == session && fresh(w)
  {
    hide Serialize, SubmitResponseHeaders;
    session.SubmitTheHeaders(sid, resp);
    w := new StreamWriter(session, sid);
  }

  class MessageReader {
    var messages: seq<GrpcReader.Message>
    var done: bool
    var waiting: bool
    ghost var returned: seq<Option<GrpcReader.Message>>
    ghost var pushed: seq<GrpcReader.Message>
    ghost var begun: nat
    ghost var forgotten: nat

    ghost function View(): GrpcReader.State
      reads this
    {
      GrpcReader.State(messages, done, waiting, returned, pushed, begun, forgotten)
    }

    constructor ()
      ensures View() == GrpcReader.Init()
    {
      messages, done, waiting, returned, pushed, begun, forgotten := [], false, false, [], [], 0, 0;
    }

    /** A read that need not wait, or one that is resumed, takes the front message or reports the end. */
    method Take() returns (r: Option<GrpcReader.Message>)
      modifies this
      ensures View() == GrpcReader.Return(old(View())) && returned == old(returned) + [r]
    {
      waiting := false;
      if messages == [] {
        r := None;
      } else {
        r := Some(messages[0]);
        messages := messages[1..];
      }
      returned := returned + [r];
    }

    /** Returns at once, or suspends the caller in the one place there is. */
    method Read() returns (suspended: bool, r: Option<GrpcReader.Message>)
      modifies this
      ensures View() == GrpcReader.Next(old(View()), GrpcReader.Read)
              && suspended == (old(messages) == [] && !old(done))
      ensures !suspended ==> returned == old(returned) + [r]
    {
      begun := begun + 1;
      if messages == [] && !done {
        if waiting {
          forgotten := forgotten + 1;
        }
        waiting := true;
        return true, None;
      }
      r := Take();
      suspended := false;
    }

    method PushMessage(m: GrpcReader.Message)
      modifies this
      ensures View() == GrpcReader.Next(old(View()), GrpcReader.Push(m))
    {
      messages := messages + [m];
      pushed := pushed + [m];
      if waiting {
        var _ := Take();
      }
    }

    method End()
      modifies this
      ensures View() == GrpcReader.Next(old(View()), GrpcReader.Finish)
    {
      done := true;
      if waiting {
        var _ := Take();
      }
    }
  }
}
