/**
  The message reader of src/grpc/grpc_stream.cpp: coroutines read, a connection pushes messages and finally the end.
 */
module GrpcReader {
  import opened Bytes

  type Message = seq<byte>

  /**
    What the reads have returned so far, None standing for the end of the stream; how many were begun, and how many
    forgotten.
   */
  datatype State = State(messages: seq<Message>, done: bool, waiting: bool, returned: seq<Option<Message>>,
    pushed: seq<Message>,
                         begun: nat, forgotten: nat)

  datatype Event = Read | Push(m: Message) | Finish

  function Init(): State {
    State([], false, false, [], [], 0, 0)
  }

  /**
    The front message, or the end of the stream: what a read that need not wait returns, and what a resumed one does.
   */
  function Return(s: State): State {
    if s.messages != [] then s.(messages := s.messages[1..], returned := s.returned + [Some(s.messages[0])],
      waiting := false)
    else s.(returned := s.returned + [None], waiting := false)
  }

  /**
    There is room for one waiting coroutine: a second read that has to wait takes the place of the first, which is
    never resumed.
   */
  function Next(s: State, e: Event): State {
    match e
    case Read =>
      var s1 := s.(begun := s.begun + 1);
      if s.messages != [] || s.done then Return(s1)
      else if s.waiting then s1.(forgotten := s.forgotten + 1)
      else s1.(waiting := true)
    case Push(m) =>
      var s1 := s.(messages := s.messages + [m], pushed := s.pushed + [m]);
      if s.waiting then Return(s1) else s1
    case Finish =>
      var s1 := s.(done := true);
      if s.waiting then Return(s1) else s1
  }

  function Run(es: seq<Event>): State {
    if |es| == 0 then Init() else Next(Run(es[..|es| - 1]), es[|es| - 1])
  }

  function Received(rs: seq<Option<Message>>): seq<Message> {
    if |rs| == 0 then []
    else Received(rs[..|rs| - 1]) + match rs[|rs| - 1] case Some(m) => [m] case None => []
  }

  lemma ReceivedSnoc(rs: seq<Option<Message>>, r: Option<Message>)
    ensures Received(rs + [r]) == Received(rs) + match r case Some(m) => [m] case None => []
  {
    assert (rs + [r])[..|rs|] == rs;
  }

  ghost predicate Inv(s: State) {
    && Received(s.returned) + s.messages == s.pushed
    && (s.waiting ==> s.messages == [] && !s.done)
    && (None in s.returned ==> s.done)
    && s.begun == |s.returned| + s.forgotten + if s.waiting then 1 else 0
  }

  lemma ReturnKeeps(s: State)
    requires s.begun == |s.returned| + s.forgotten + 1
    requires Received(s.returned) + s.messages == s.pushed && (None in s.returned ==> s.done)
             && (s.messages == [] ==> s.done)
    ensures Inv(Return(s))
  {
    hide Received;
    if s.messages != [] {
      ReceivedSnoc(s.returned, Some(s.messages[0]));
      assert s.messages == [s.messages[0]] + s.messages[1..];
    } else {
      ReceivedSnoc(s.returned, None);
    }
  }

  lemma StepKeeps(s: State, e: Event)
    requires Inv(s)
    ensures Inv(Next(s, e))
  {
    hide Received, Return;
    match e
    case Read =>
      if s.messages != [] || s.done {
        ReturnKeeps(s.(begun := s.begun + 1));
      }
    case Push(m) =>
      var s1 := s.(messages := s.messages + [m], pushed := s.pushed + [m]);
      assert Received(s.returned) + (s.messages + [m]) == s.pushed + [m];
      if s.waiting {
        ReturnKeeps(s1);
      }
    case Finish =>
      if s.waiting {
        ReturnKeeps(s.(done := true));
      }
  }

  /**
    Over every run the reads return the pushed messages in order, each once; no read waits while a message or the end
    is there; the end is reported only after the stream was finished; and each read has returned, waits or was
    forgotten.
   */
  lemma {:induction false} InOrderOnce(es: seq<Event>)
    ensures var s := Run(es);
            && Received(s.returned) + s.messages == s.pushed
            && (s.waiting ==> s.messages == [] && !s.done)
            && (None in s.returned ==> s.done)
            && s.begun == |s.returned| + s.forgotten + if s.waiting then 1 else 0
  {
    hide Next, Received;
    if |es| == 0 {
      assert Received([]) == [] by { ReceivedNothing(); }
    } else {
      InOrderOnce(es[..|es| - 1]);
      StepKeeps(Run(es[..|es| - 1]), es[|es| - 1]);
    }
  }

  function Pushes(es: seq<Event>): seq<Message> {
    if |es| == 0 then []
    else Pushes(es[..|es| - 1]) + match es[|es| - 1] case Push(m) => [m] case _ => []
  }

  function Reads(es: seq<Event>): nat {
    if |es| == 0 then 0 else Reads(es[..|es| - 1]) + if es[|es| - 1].Read? then 1 else 0
  }

  lemma HistoryStep(s: State, e: Event)
    ensures var s' := Next(s, e);
            && s'.pushed == s.pushed + (match e case Push(m) => [m] case _ => [])
            && s'.begun == s.begun + (if e.Read? then 1 else 0)
            && s'.done == (s.done || e.Finish?)
  {
    assert s.pushed + [] == s.pushed;
  }

  /** What a run says was pushed and begun is what its events say, and its end is known once it is finished. */
  lemma {:induction false} HistoryIs(es: seq<Event>)
    ensures var s := Run(es); s.pushed == Pushes(es) && s.begun == Reads(es) && (s.done <==> Finish in es)
  {
    hide Next;
    if |es| > 0 {
      var front, e := es[..|es| - 1], es[|es| - 1];
      assert es == front + [e];
      HistoryIs(front);
      HistoryStep(Run(front), e);
    }
  }

  /** A read is forgotten exactly when another one begins while it waits. */
  lemma {:induction false} ForgottenIff(es: seq<Event>)
    ensures Run(es).forgotten == 0 <==> forall i :: 0 <= i < |es| && es[i].Read? ==> !Run(es[..i]).waiting
  {
    hide Received, Run, Next;
    if |es| == 0 {
      assert Run(es) == Init() by { RunNothing(); }
    } else {
      var front, e := es[..|es| - 1], es[|es| - 1];
      assert es == front + [e];
      ForgottenIff(front);
      InOrderOnce(front);
      RunSnoc(front, e);
      ForgottenStep(Run(front), e);
      assert forall i :: 0 <= i < |front| ==> front[..i] == es[..i];
      assert es[|front|] == e;
    }
  }

  lemma ForgottenStep(s: State, e: Event)
    requires s.waiting ==> s.messages == [] && !s.done
    ensures Next(s, e).forgotten == s.forgotten + if e.Read? && s.waiting then 1 else 0
  {
  }

  lemma RunNothing()
    ensures Run([]) == Init()
  {
  }

  lemma ReceivedNothing()
    ensures Received([]) == []
  {
  }

  /** The end is reported only when every message pushed so far has been returned. */
  lemma EndAfterAll(es: seq<Event>, e: Event)
    ensures var s, s' := Run(es), Run(es + [e]);
            |s'.returned| > |s.returned| && s'.returned[|s.returned|].None? ==>
              s'.messages == [] && s'.done && Received(s'.returned) == s'.pushed
  {
    hide Received, Run;
    assert Run(es + [e]) == Next(Run(es), e) by { RunSnoc(es, e); }
    InOrderOnce(es + [e]);
    InOrderOnce(es);
  }

  lemma RunSnoc(es: seq<Event>, e: Event)
    ensures Run(es + [e]) == Next(Run(es), e)
  {
    hide Next;
    assert (es + [e])[..|es|] == es;
  }
}
