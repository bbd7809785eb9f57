/**
  The strand of include/async_net/executor/strand.hpp: any number of posting threads and worker
  threads over one queue. A lock section is one step; handlers do not throw, may post themselves,
  and the inner executor starts every accepted post.
 */
module Strand {
  import opened Bytes

  type Handler = nat

  /** A worker thread inside run(): about to lock, or executing a handler. */
  datatype Runner = AtLock | Executing(handler: Handler)

  datatype State = State(
    queue: seq<Handler>, running: bool,
    owed: nat,                    // posters that must still post run() to the inner executor
    accepted: nat,                // inner posts not started yet
    runners: map<nat, Runner>,    // worker threads inside run()
    pushed: seq<Handler>, started: seq<Handler>, finished: seq<Handler>)

  datatype Event =
    | Post(handler: Handler)        // the lock section of post_impl
    | Dispatch                // its inner post
    | Start(worker: nat)      // the inner executor runs an accepted post
    | Take(worker: nat)       // the lock section of run()
    | Done(worker: nat)       // the handler returns

  function Init(): State {
    State([], false, 0, 0, map[], [], [], [])
  }

  predicate Enabled(s: State, e: Event) {
    match e
    case Post(_) => true
    case Dispatch => s.owed > 0
    case Start(w) => s.accepted > 0 && w !in s.runners
    case Take(w) => w in s.runners && s.runners[w].AtLock?
    case Done(w) => w in s.runners && s.runners[w].Executing?
  }

  function Next(s: State, e: Event): State
    requires Enabled(s, e)
  {
    match e
    case Post(t) =>
      s.(queue := s.queue + [t], pushed := s.pushed + [t], running := true, owed := if s.running then s.owed
        else s.owed + 1)
    case Dispatch => s.(owed := s.owed - 1, accepted := s.accepted + 1)
    case Start(w) => s.(accepted := s.accepted - 1, runners := s.runners[w := AtLock])
    case Take(w) =>
      if s.queue == [] then s.(running := false, runners := s.runners - {w})
      else s.(queue := s.queue[1..], started := s.started + [s.queue[0]],
        runners := s.runners[w := Executing(s.queue[0])])
    case Done(w) =>
      s.(finished := s.finished + [s.runners[w].handler], runners := s.runners[w := AtLock])
  }

  // ---------------------------------------------------------------- the invariant

  /** Where the one permission to drain the queue is. */
  datatype Turn = Nowhere | Owed | Accepted | Held(worker: nat)

  ghost predicate At(s: State, t: Turn) {
    match t
    case Nowhere => !s.running && s.owed == 0 && s.accepted == 0 && s.runners == map[]
    case Owed => s.running && s.owed == 1 && s.accepted == 0 && s.runners == map[]
    case Accepted => s.running && s.owed == 0 && s.accepted == 1 && s.runners == map[]
    case Held(w) => s.running && s.owed == 0 && s.accepted == 0 && w in s.runners && s.runners == map[w := s.runners[w]]
  }

  /** Handlers start in push order; all started ones have finished, except the one being executed. */
  ghost predicate InOrder(s: State, t: Turn) {
    && s.pushed == s.started + s.queue
    && (t.Nowhere? ==> s.queue == [])
    && s.started == if t.Held? && t.worker in s.runners && s.runners[t.worker].Executing?
                    then s.finished + [s.runners[t.worker].handler] else s.finished
  }

  ghost predicate Inv(s: State, t: Turn) {
    At(s, t) && InOrder(s, t)
  }

  /** How a step moves the permission. */
  function Moved(t: Turn, s: State, e: Event): Turn {
    match e
    case Post(_) => if t.Nowhere? then Owed else t
    case Dispatch => Accepted
    case Start(w) => Held(w)
    case Take(_) => if s.queue == [] then Nowhere else t
    case Done(_) => t
  }

  lemma PostKeeps(s: State, t: Turn, handler: Handler)
    requires Inv(s, t)
    ensures Inv(Next(s, Post(handler)), Moved(t, s, Post(handler)))
  {
    assert s.pushed + [handler] == s.started + (s.queue + [handler]);
  }

  lemma TakeKeeps(s: State, t: Turn, w: nat)
    requires Inv(s, t) && Enabled(s, Take(w))
    ensures Inv(Next(s, Take(w)), Moved(t, s, Take(w)))
  {
    assert t == Held(w);
    if s.queue != [] {
      assert s.started + s.queue == s.started + [s.queue[0]] + s.queue[1..];
      assert s.runners[w := Executing(s.queue[0])] == map[w := Executing(s.queue[0])];
    } else {
      assert s.runners - {w} == map[];
    }
  }

  lemma StepKeeps(s: State, t: Turn, e: Event)
    requires Inv(s, t) && Enabled(s, e)
    ensures Inv(Next(s, e), Moved(t, s, e))
  {
    match e
    case Post(handler) => PostKeeps(s, t, handler);
    case Take(w) => TakeKeeps(s, t, w);
    case Dispatch => assert t == Owed;
    case Start(w) =>
      assert t == Accepted;
      assert s.runners[w := AtLock] == map[w := AtLock];
    case Done(w) =>
      assert t == Held(w);
      assert s.runners[w := AtLock] == map[w := AtLock];
  }

  // ---------------------------------------------------------------- whole runs

  /** Events in order; one that cannot happen in the current state is skipped. */
  function Run(es: seq<Event>): State {
    if |es| == 0 then Init()
    else
      var s := Run(es[..|es| - 1]);
      if Enabled(s, es[|es| - 1]) then Next(s, es[|es| - 1]) else s
  }

  ghost function TurnOf(es: seq<Event>): Turn {
    if |es| == 0 then Nowhere
    else
      var s := Run(es[..|es| - 1]);
      if Enabled(s, es[|es| - 1]) then Moved(TurnOf(es[..|es| - 1]), s, es[|es| - 1]) else TurnOf(es[..|es| - 1])
  }

  lemma {:induction false} RunKeeps(es: seq<Event>)
    ensures Inv(Run(es), TurnOf(es))
  {
    hide Next, Enabled, Moved, Inv;
    if |es| == 0 {
      InitKeeps();
    } else {
      RunKeeps(es[..|es| - 1]);
      if Enabled(Run(es[..|es| - 1]), es[|es| - 1]) {
        StepKeeps(Run(es[..|es| - 1]), TurnOf(es[..|es| - 1]), es[|es| - 1]);
      }
    }
  }

  lemma InitKeeps()
    ensures Inv(Init(), Nowhere)
  {
  }

  function PostedBy(es: seq<Event>): seq<Handler> {
    if |es| == 0 then []
    else PostedBy(es[..|es| - 1]) + if es[|es| - 1].Post? then [es[|es| - 1].handler] else []
  }

  lemma {:induction false} PushedIsPosted(es: seq<Event>)
    ensures Run(es).pushed == PostedBy(es)
  {
    if |es| > 0 {
      PushedIsPosted(es[..|es| - 1]);
    }
  }

  /** No two threads ever execute handlers, or are even inside run(), at the same time. */
  lemma MutualExclusion(es: seq<Event>, v: nat, w: nat)
    requires v in Run(es).runners && w in Run(es).runners
    ensures v == w
  {
    hide Run, TurnOf;
    RunKeeps(es);
  }

  /** Handlers start in the order of their posts, each once, and finish in that order. */
  lemma FirstInFirstOut(es: seq<Event>)
    ensures var s := Run(es); s.finished <= s.started <= PostedBy(es) && |s.started| <= |s.finished| + 1
  {
    hide Run, TurnOf, PostedBy;
    RunKeeps(es);
    PushedIsPosted(es);
  }

  /** A waiting handler always has exactly one dispatch owed, accepted or running. */
  lemma NeverStranded(es: seq<Event>)
    ensures var s := Run(es);
            && s.owed + s.accepted + |s.runners| == (if s.running then 1 else 0)
            && (s.queue != [] ==> s.running)
  {
    hide Run, TurnOf;
    RunKeeps(es);
    var s, t := Run(es), TurnOf(es);
    if t.Held? {
      assert |map[t.worker := s.runners[t.worker]]| == 1;
    }
  }

  function Left(s: State, t: Turn): nat {
    3 * |s.queue| + match t
      case Nowhere => 0
      case Owed => 4
      case Accepted => 3
      case Held(w) => if w in s.runners && s.runners[w].Executing? then 2 else 1
  }

  /**
    Without further posts every step brings the end closer, and where none is possible all posted handlers have
    finished.
   */
  lemma EverythingRuns(es: seq<Event>, e: Event)
    ensures var s, t := Run(es), TurnOf(es);
            && (Enabled(s, e) && !e.Post? ==> Left(Next(s, e), Moved(t, s, e)) < Left(s, t))
            && ((forall x :: Enabled(s, x) ==> x.Post?) ==> s.finished == PostedBy(es))
  {
    hide Run, TurnOf, PostedBy;
    RunKeeps(es);
    PushedIsPosted(es);
    var s, t := Run(es), TurnOf(es);
    assert t.Owed? ==> Enabled(s, Dispatch);
    assert t.Accepted? ==> Enabled(s, Start(0));
    assert t.Held? ==> Enabled(s, Take(t.worker)) || Enabled(s, Done(t.worker));
  }

  // ---------------------------------------------------------------- the object

  /** All handlers of the first n batches. */
  function Batches(during: seq<seq<Handler>>, n: nat): seq<Handler> {
    if n == 0 then []
    else Batches(during, n - 1) + if n <= |during| then during[n - 1] else []
  }

  /** The strand's own fields; each lock section is a step of the machine above. */
  class BasicStrand {
    var queue: seq<Handler>
    var running: bool

    constructor ()
      ensures queue == [] && !running
    {
      queue, running := [], false;
    }

    /** The lock section of post_impl; the caller posts run() to the inner executor when told to. */
    method Push(handler: Handler) returns (shouldDispatch: bool)
      modifies this
      ensures queue == old(queue) + [handler] && running && shouldDispatch == !old(running)
    {
      queue := queue + [handler];
      shouldDispatch := !running;
      running := true;
    }

    /** The lock section of run(). */
    method TakeFront() returns (fn: Option<Handler>)
      requires running
      modifies this
      ensures old(queue) == [] ==> fn == None && queue == [] && !running
      ensures old(queue) != [] ==> fn == Some(old(queue)[0]) && queue == old(queue)[1..] && running
    {
      if queue == [] {
        running := false;
        return None;
      }
      fn := Some(queue[0]);
      queue := queue[1..];
    }

    /** Posts made while a handler runs: none of them asks for a dispatch. */
    method PushAll(posts: seq<Handler>)
      requires running
      modifies this
      ensures queue == old(queue) + posts && running
    {
      for i := 0 to |posts|
        invariant running && queue == old(queue) + posts[..i]
      {
        var again := Push(posts[i]);
        assert !again;
        assert posts[..i + 1] == posts[..i] + [posts[i]];
      }
      assert posts[..|posts|] == posts;
    }

    /**
      run(), when the k-th handler it executes lets during[k] be posted meanwhile: it executes what was queued
      and what is posted along the way, in order, asks for no second dispatch, and stops with nothing left.
     */
    method RunLoop(during: seq<seq<Handler>>) returns (ran: seq<Handler>)
      requires running
      modifies this
      ensures !running && queue == [] && ran == old(queue) + Batches(during, |ran|)
    {
      hide Batches;
      ran := [];
      NoBatches(during, queue);
      while true
        invariant running && ran + queue == old(queue) + Batches(during, |ran|)
        decreases if |ran| < |during| then |during| - |ran| else 0, |queue|
      {
        ghost var before := queue;
        var fn := TakeFront();
        if fn.None? {
          assert ran + [] == ran;
          return;
        }
        var posts := if |ran| < |during| then during[|ran|] else [];
        OneMore(during, old(queue), ran, before);
        ran := ran + [fn.value];
        PushAll(posts);
      }
    }
  }

  lemma NoBatches(during: seq<seq<Handler>>, queue: seq<Handler>)
    ensures [] + queue == queue + Batches(during, 0)
  {
  }

  lemma Shift(first: seq<Handler>, b: seq<Handler>, ran: seq<Handler>, queue: seq<Handler>, posts: seq<Handler>)
    requires queue != [] && ran + queue == first + b
    ensures ran + [queue[0]] + (queue[1..] + posts) == first + (b + posts)
  {
    assert [queue[0]] + queue[1..] == queue;
    calc {
      ran + [queue[0]] + (queue[1..] + posts);
      ran + ([queue[0]] + queue[1..]) + posts;
      first + b + posts;
      first + (b + posts);
    }
  }

  /** Executing the front of the queue and appending its posts. */
  lemma OneMore(during: seq<seq<Handler>>, first: seq<Handler>, ran: seq<Handler>, queue: seq<Handler>)
    requires queue != [] && ran + queue == first + Batches(during, |ran|)
    ensures var posts := if |ran| < |during| then during[|ran|] else [];
            ran + [queue[0]] + (queue[1..] + posts) == first + Batches(during, |ran| + 1)
  {
    hide Batches;
    var posts := if |ran| < |during| then during[|ran|] else [];
    assert Batches(during, |ran| + 1) == Batches(during, |ran|) + posts by { NextBatch(during, |ran|); }
    Shift(first, Batches(during, |ran|), ran, queue, posts);
  }

  lemma NextBatch(during: seq<seq<Handler>>, n: nat)
    ensures Batches(during, n + 1) == Batches(during, n) + if n < |during| then during[n] else []
  {
  }
}
