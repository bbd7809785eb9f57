/**
  The re-entrant flush of src/http/http2_session.cpp: any number of flush coroutines over one
  output buffer, interleaved with enqueues at their suspension points and with arbitrary
  partial writes. Between two suspension points a coroutine runs alone.
 */
module Flush {
  import opened Bytes

  /** A flush call, suspended in a send or finished. */
  datatype Flight = Sending(data: seq<byte>, sent: nat) | Returned(ok: bool)

  /** What happened to bytes taken from the buffer, in order. */
  datatype Piece = Written(bytes: seq<byte>) | Dropped(bytes: seq<byte>)

  datatype State = State(buffer: seq<byte>, flushing: bool, flights: map<nat, Flight>, ledger: seq<Piece>,
    enqueued: seq<byte>)

  datatype Event =
    | Enqueue(data: seq<byte>)
    | Call(id: nat)
    | Complete(id: nat, n: int)   // the pending send of a flush returns n

  function Init(): State {
    State([], false, map[], [], [])
  }

  /** A fresh coroutine for each call; a send accepts at most what it was given. */
  predicate Enabled(s: State, e: Event) {
    match e
    case Enqueue(_) => true
    case Call(id) => id !in s.flights
    case Complete(id, n) =>
      id in s.flights && s.flights[id].Sending? && s.flights[id].sent <= |s.flights[id].data|
      && n <= |s.flights[id].data| - s.flights[id].sent
  }

  /** The head of the outer loop: take the whole buffer, or finish when it is empty. */
  function Refill(s: State, id: nat): State {
    if s.buffer == [] then s.(flushing := false, flights := s.flights[id := Returned(true)])
    else s.(buffer := [], flights := s.flights[id := Sending(s.buffer, 0)])
  }

  function Next(s: State, e: Event): State
    requires Enabled(s, e)
  {
    match e
    case Enqueue(data) => s.(buffer := s.buffer + data, enqueued := s.enqueued + data)
    case Call(id) =>
      if s.flushing then s.(flights := s.flights[id := Returned(true)]) else Refill(s.(flushing := true), id)
    case Complete(id, n) =>
      var f := s.flights[id];
      if n <= 0 then
        s.(flushing := false, flights := s.flights[id := Returned(false)],
          ledger := s.ledger + [Dropped(f.data[f.sent..])])
      else
        var s1 := s.(ledger := s.ledger + [Written(f.data[f.sent..f.sent + n])],
            flights := s.flights[id := f.(sent := f.sent + n)]);
        if f.sent + n < |f.data| then s1 else Refill(s1, id)
  }

  // ---------------------------------------------------------------- the invariant

  function AllBytes(ps: seq<Piece>): seq<byte> {
    if |ps| == 0 then [] else AllBytes(ps[..|ps| - 1]) + ps[|ps| - 1].bytes
  }

  /** The bytes that reached the transport. */
  function Wire(ps: seq<Piece>): seq<byte> {
    if |ps| == 0 then []
    else Wire(ps[..|ps| - 1]) + if ps[|ps| - 1].Written? then ps[|ps| - 1].bytes else []
  }

  ghost predicate IsSender(s: State, id: nat) {
    id in s.flights && s.flights[id].Sending?
  }

  ghost predicate Conserved(s: State, unsent: seq<byte>) {
    AllBytes(s.ledger) + unsent + s.buffer == s.enqueued
  }

  ghost predicate SoleSender(s: State, id: nat) {
    && IsSender(s, id) && s.flights[id].sent < |s.flights[id].data|
    && (forall k :: IsSender(s, k) ==> k == id)
    && Conserved(s, s.flights[id].data[s.flights[id].sent..])
  }

  /** A flush is under way exactly when one call is sending; no byte is lost or reordered. */
  ghost predicate Inv(s: State) {
    && (s.flushing ==> exists id :: SoleSender(s, id))
    && (!s.flushing ==> Conserved(s, []) && forall k :: !IsSender(s, k))
  }

  lemma AllBytesSnoc(ps: seq<Piece>, p: Piece)
    ensures AllBytes(ps + [p]) == AllBytes(ps) + p.bytes
    ensures Wire(ps + [p]) == Wire(ps) + if p.Written? then p.bytes else []
  {
    assert (ps + [p])[..|ps|] == ps;
  }

  /** Taking the buffer moves its bytes from the buffer to the one sender. */
  lemma RefillKeeps(s: State, id: nat)
    requires s.flushing && Conserved(s, []) && forall k :: IsSender(s, k) ==> k == id
    ensures Inv(Refill(s, id))
  {
    hide AllBytes;
    var s' := Refill(s, id);
    assert AllBytes(s.ledger) + [] + s.buffer == AllBytes(s.ledger) + s.buffer;
    assert forall k :: IsSender(s', k) && k != id ==> IsSender(s, k);
    if s.buffer != [] {
      assert s'.flights[id].data[0..] == s.buffer;
      assert AllBytes(s.ledger) + s.buffer + [] == AllBytes(s.ledger) + s.buffer;
      assert SoleSender(s', id);
    }
  }

  lemma CallKeeps(s: State, id: nat)
    requires Inv(s) && Enabled(s, Call(id))
    ensures Inv(Next(s, Call(id)))
  {
    hide AllBytes, Refill;
    if s.flushing {
      var k :| SoleSender(s, k);
      assert forall j :: IsSender(Next(s, Call(id)), j) ==> IsSender(s, j);
      assert SoleSender(Next(s, Call(id)), k);
    } else {
      assert forall j :: IsSender(s.(flushing := true), j) ==> IsSender(s, j);
      RefillKeeps(s.(flushing := true), id);
    }
  }

  lemma EnqueueKeeps(s: State, data: seq<byte>)
    requires Inv(s)
    ensures Inv(Next(s, Enqueue(data)))
  {
    hide AllBytes;
    var s' := Next(s, Enqueue(data));
    assert forall u: seq<byte> ::
        AllBytes(s.ledger) + u + (s.buffer + data) == AllBytes(s.ledger) + u + s.buffer + data;
    assert forall k :: IsSender(s', k) ==> IsSender(s, k);
    if s.flushing {
      var k :| SoleSender(s, k);
      assert SoleSender(s', k);
    }
  }

  lemma CompleteKeeps(s: State, id: nat, n: int)
    requires Inv(s) && Enabled(s, Complete(id, n))
    ensures Inv(Next(s, Complete(id, n)))
  {
    hide AllBytes, Refill;
    assert IsSender(s, id);
    var f := s.flights[id];
    var rest := f.data[f.sent..];
    assert SoleSender(s, id);
    var s' := Next(s, Complete(id, n));
    if n <= 0 {
      AllBytesSnoc(s.ledger, Dropped(rest));
      assert forall k :: IsSender(s', k) ==> IsSender(s, k);
    } else {
      var chunk := f.data[f.sent..f.sent + n];
      AllBytesSnoc(s.ledger, Written(chunk));
      assert rest == chunk + f.data[f.sent + n..];
      assert AllBytes(s.ledger) + rest == AllBytes(s.ledger) + chunk + f.data[f.sent + n..];
      var s1 := s.(ledger := s.ledger + [Written(chunk)], flights := s.flights[id := f.(sent := f.sent + n)]);
      assert forall k :: IsSender(s1, k) ==> IsSender(s, k);
      if f.sent + n < |f.data| {
        assert SoleSender(s1, id);
      } else {
        RefillKeeps(s1, id);
      }
    }
  }

  // ---------------------------------------------------------------- whole runs

  /** Events in order; one that cannot happen in the current state is skipped. */
  function Run(es: seq<Event>): State {
    if |es| == 0 then Init()
    else
      var s := Run(es[..|es| - 1]);
      if Enabled(s, es[|es| - 1]) then Next(s, es[|es| - 1]) else s
  }

  function EnqueuedBy(es: seq<Event>): seq<byte> {
    if |es| == 0 then []
    else EnqueuedBy(es[..|es| - 1]) + if es[|es| - 1].Enqueue? then es[|es| - 1].data else []
  }

  ghost predicate NoFailure(es: seq<Event>) {
    forall e :: e in es && e.Complete? ==> e.n > 0
  }

  lemma StepKeeps(s: State, e: Event)
    requires Inv(s) && Enabled(s, e)
    ensures Inv(Next(s, e))
    ensures Next(s, e).enqueued == s.enqueued + if e.Enqueue? then e.data else []
    ensures (e.Complete? ==> e.n > 0) && AllBytes(s.ledger) == Wire(s.ledger) ==>
              AllBytes(Next(s, e).ledger) == Wire(Next(s, e).ledger)
  {
    hide AllBytes, Wire, Inv;
    match e
    case Enqueue(data) => EnqueueKeeps(s, data);
    case Call(id) => CallKeeps(s, id);
    case Complete(id, n) =>
      CompleteKeeps(s, id, n);
      if n > 0 {
        var f := s.flights[id];
        AllBytesSnoc(s.ledger, Written(f.data[f.sent..f.sent + n]));
      }
  }

  /**
    Bytes written, bytes unsent and the buffer are all enqueued bytes in order, unless a send failed; at most one call
    sends.
   */
  lemma {:induction false} FlushConserves(es: seq<Event>)
    ensures var s := Run(es);
            && Inv(s) && s.enqueued == EnqueuedBy(es)
            && (NoFailure(es) ==> AllBytes(s.ledger) == Wire(s.ledger))
  {
    hide Next, Inv;
    if |es| == 0 {
      InitKeeps();
    } else {
      var front, e := es[..|es| - 1], es[|es| - 1];
      FlushConserves(front);
      if Enabled(Run(front), e) {
        StepKeeps(Run(front), e);
      }
    }
  }

  lemma InitKeeps()
    ensures Inv(Init())
  {
  }

  /** When the sending call returns true, everything enqueued so far has been written, provided no send ever failed. */
  lemma TrueMeansFlushed(es: seq<Event>, id: nat, n: int)
    requires NoFailure(es) && n > 0 && Enabled(Run(es), Complete(id, n))
    ensures var s' := Run(es + [Complete(id, n)]);
            s'.flights[id] == Returned(true) ==> s'.buffer == [] && !s'.flushing && Wire(s'.ledger) == EnqueuedBy(es)
  {
    hide Run, EnqueuedBy, AllBytes, Wire;
    var all := es + [Complete(id, n)];
    assert all[..|all| - 1] == es;
    assert Run(all) == Next(Run(es), Complete(id, n)) && EnqueuedBy(all) == EnqueuedBy(es) + []
        by { RunSnoc(es, Complete(id, n)); }
    FlushConserves(all);
    var s' := Run(all);
    if s'.flights[id] == Returned(true) {
      assert AllBytes(s'.ledger) + [] + [] == AllBytes(s'.ledger);
    }
  }

  lemma RunSnoc(es: seq<Event>, e: Event)
    ensures Enabled(Run(es), e) ==> Run(es + [e]) == Next(Run(es), e)
    ensures EnqueuedBy(es + [e]) == EnqueuedBy(es) + if e.Enqueue? then e.data else []
  {
    hide Next;
    assert (es + [e])[..|es|] == es;
  }

  /** Bytes still to be written by the flush under way. */
  ghost function Outstanding(s: State, id: nat): nat
    requires IsSender(s, id)
  {
    |s.flights[id].data| - Min(s.flights[id].sent, |s.flights[id].data|) + |s.buffer|
  }

  /** Each successful send brings the flush exactly n bytes closer to returning true. */
  lemma FlushProgresses(es: seq<Event>, id: nat, n: int)
    requires n > 0 && Enabled(Run(es), Complete(id, n))
    ensures var s, s' := Run(es), Next(Run(es), Complete(id, n));
            if IsSender(s', id) then Outstanding(s', id) == Outstanding(s, id) - n > 0
            else s'.flights[id] == Returned(true) && Outstanding(s, id) == n
  {
    hide Run, AllBytes;
    FlushConserves(es);
    assert IsSender(Run(es), id);
    assert SoleSender(Run(es), id);
  }

  /** A send of this call has failed. */
  predicate FailedBy(es: seq<Event>, id: nat) {
    |es| > 0 &&
    var front, e := es[..|es| - 1], es[|es| - 1];
    FailedBy(front, id) || (Enabled(Run(front), e) && e.Complete? && e.id == id && e.n <= 0)
  }

  /** A call returns false if and only if one of its own sends failed, and true in every other case. */
  lemma {:induction false} FalseIffFailed(es: seq<Event>, id: nat)
    ensures id in Run(es).flights ==>
              if Run(es).flights[id].Returned? then Run(es).flights[id].ok == !FailedBy(es, id) else !FailedBy(es, id)
    ensures id !in Run(es).flights ==> !FailedBy(es, id)
  {
    if |es| > 0 {
      FalseIffFailed(es[..|es| - 1], id);
    }
  }

  /** A flush under way can always go on: its send may accept everything that is left, or any part of it. */
  lemma CanGoOn(es: seq<Event>, id: nat, n: int)
    requires IsSender(Run(es), id)
    ensures var s := Run(es);
            && Outstanding(s, id) - |s.buffer| > 0
            && (Enabled(s, Complete(id, n)) <==> n <= Outstanding(s, id) - |s.buffer|)
  {
    hide Run, AllBytes;
    FlushConserves(es);
  }

  // ---------------------------------------------------------------- the coroutine itself

  /** One await: what other code enqueues meanwhile, and what the send returns. */
  datatype Turn = Turn(enqueued: seq<byte>, n: int)

  datatype Outcome = Finished(ok: bool) | Suspended(unsent: seq<byte>)

  /** The loops of flush, run against any environment until it returns or the given turns are used up. */
  class Output {
    var outputBuf: seq<byte>
    var flushing: bool
    ghost var ledger: seq<Piece>
    ghost var enqueued: seq<byte>

    ghost predicate Conserves(unsent: seq<byte>)
      reads this
    {
      AllBytes(ledger) + unsent + outputBuf == enqueued
    }

    constructor ()
      ensures outputBuf == [] && !flushing && Conserves([])
    {
      outputBuf, flushing, ledger, enqueued := [], false, [], [];
    }

    method Enqueue(data: seq<byte>)
      modifies this`outputBuf, this`enqueued
      ensures outputBuf == old(outputBuf) + data && enqueued == old(enqueued) + data
      ensures forall u: seq<byte> :: old(Conserves(u)) ==> Conserves(u)
    {
      outputBuf := outputBuf + data;
      enqueued := enqueued + data;
      assert forall u: seq<byte> ::
          AllBytes(ledger) + u + (old(outputBuf) + data) == AllBytes(ledger) + u + old(outputBuf) + data;
    }

    /** Did the sends since some earlier point end in a failure? */
    ghost predicate FailedSince(was: seq<Piece>)
      reads this
    {
      |ledger| > |was| && ledger[|ledger| - 1].Dropped?
    }

    /** One awaited send of what is left: other code may enqueue meanwhile; a result of at most 0 gives up the rest. */
    method Send(t: Turn, rest: seq<byte>) returns (n: int)
      requires rest != [] && Conserves(rest)
      modifies this`outputBuf, this`enqueued, this`ledger
      ensures n <= |rest| && ledger == old(ledger) + [if n <= 0 then Dropped(rest) else Written(rest[..n])]
      ensures Conserves(if n <= 0 then [] else rest[n..])
    {
      hide AllBytes;
      Enqueue(t.enqueued);
      n := if t.n > |rest| then |rest| else t.n;
      ghost var before := ledger;
      ghost var piece := if n <= 0 then Dropped(rest) else Written(rest[..n]);
      ledger := ledger + [piece];
      AllBytesSnoc(before, piece);
      if n <= 0 {
        assert AllBytes(before) + rest + [] == AllBytes(before) + rest;
      } else {
        assert rest == rest[..n] + rest[n..];
        assert AllBytes(before) + rest == AllBytes(before) + rest[..n] + rest[n..];
      }
    }

    /** The inner loop: send data piece by piece. A failing send drops the rest, nothing else does. */
    method SendAll(data: seq<byte>, turns: seq<Turn>, from: nat) returns (k: nat, unsent: seq<byte>, ok: bool)
      requires data != [] && from <= |turns| && Conserves(data)
      modifies this`outputBuf, this`enqueued, this`ledger
      ensures from <= k <= |turns| && Conserves(unsent) && old(ledger) <= ledger
      ensures !ok <==> FailedSince(old(ledger))
      ensures unsent != [] ==> ok && k == |turns|
      ensures unsent == [] ==> k > from
    {
      hide Conserves;
      k := from;
      var sent := 0;
      assert data[0..] == data;
      while sent < |data|
        invariant 0 <= sent <= |data| && from <= k <= |turns| && (sent > 0 ==> k > from) && old(ledger) <= ledger
        invariant Conserves(data[sent..]) && !FailedSince(old(ledger))
        decreases |data| - sent
      {
        if k == |turns| {
          return k, data[sent..], true;
        }
        var n := Send(turns[k], data[sent..]);
        k := k + 1;
        if n <= 0 {
          return k, [], false;
        }
        assert data[sent..][n..] == data[sent + n..];
        sent := sent + n;
      }
      assert data[|data|..] == [];
      return k, [], true;
    }

    /**
      A call during another flush changes nothing and returns true. Otherwise no byte is lost but by a failing send.
     */
    method Flush(turns: seq<Turn>) returns (r: Outcome)
      requires !flushing ==> Conserves([])
      modifies this
      ensures old(flushing) ==> r == Finished(true) && unchanged(this)
      ensures !old(flushing) ==>
                && flushing == r.Suspended?
                && Conserves(if r.Suspended? then r.unsent else [])
                && (r == Finished(true) ==> outputBuf == [])
                && old(ledger) <= ledger
                && (r == Finished(false) <==> FailedSince(old(ledger)))
    {
      hide AllBytes;
      if flushing {
        return Finished(true);
      }
      flushing := true;
      var allOk, k := true, 0;
      while allOk
        invariant flushing && Conserves([]) && 0 <= k <= |turns| && old(ledger) <= ledger
        invariant !allOk <==> FailedSince(old(ledger))
        decreases |turns| - k, allOk
      {
        var data := outputBuf;
        if data == [] {
          break;
        }
        outputBuf := [];
        assert AllBytes(ledger) + [] + data == AllBytes(ledger) + data + [];
        var unsent: seq<byte>;
        k, unsent, allOk := SendAll(data, turns, k);
        if unsent != [] {
          return Suspended(unsent);
        }
      }
      flushing := false;
      return Finished(allOk);
    }
  }
}
