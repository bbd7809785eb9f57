/**
  Cancellable sleeps (include/async_net/executor/schedule.hpp) over the timer queue of
  src/io/io_context.cpp, in a single-threaded event loop: coroutines sleep, cancel each other
  and are resumed by batches of expired timers.
 */
module Sleep {

  // ---------------------------------------------------------------- collecting expired timers

  datatype Timer = Timer(deadline: int, id: nat)

  ghost predicate Sorted(ts: seq<Timer>) {
    forall i, j :: 0 <= i < j < |ts| ==> ts[i].deadline <= ts[j].deadline
  }

  /** The top of the min-first queue. */
  method Earliest(timers: seq<Timer>) returns (k: nat)
    requires timers != []
    ensures k < |timers| && forall i :: 0 <= i < |timers| ==> timers[k].deadline <= timers[i].deadline
  {
    k := 0;
    for i := 1 to |timers|
      invariant k < |timers| && forall j :: 0 <= j < i ==> timers[k].deadline <= timers[j].deadline
    {
      if timers[i].deadline < timers[k].deadline {
        k := i;
      }
    }
  }

  lemma Removed(ts: seq<Timer>, k: nat)
    requires k < |ts|
    ensures multiset(ts) == multiset{ts[k]} + multiset(ts[..k] + ts[k + 1..])
    ensures forall t :: t in ts[..k] + ts[k + 1..] ==> t in ts
  {
    assert ts == ts[..k] + [ts[k]] + ts[k + 1..];
  }

  /** The locked part of process_timers: every expired entry, earliest first, and no other. */
  method CollectExpired(timers: seq<Timer>, now: int) returns (expired: seq<Timer>, rest: seq<Timer>)
    ensures multiset(expired) + multiset(rest) == multiset(timers) && Sorted(expired)
    ensures (forall t :: t in expired ==> t.deadline <= now) && (forall t :: t in rest ==> t.deadline > now)
  {
    expired, rest := [], timers;
    while rest != []
      invariant multiset(expired) + multiset(rest) == multiset(timers) && Sorted(expired)
      invariant forall t :: t in expired ==> t.deadline <= now
      invariant forall t, u :: t in expired && u in rest ==> t.deadline <= u.deadline
      decreases |rest|
    {
      var k := Earliest(rest);
      var top := rest[k];
      assert forall t :: t in rest ==> top.deadline <= t.deadline;
      if top.deadline > now {
        break;
      }
      Removed(rest, k);
      assert top in rest;
      expired := expired + [top];
      rest := rest[..k] + rest[k + 1..];
    }
  }

  // ---------------------------------------------------------------- the event loop

  /** A coroutine frame: not asleep, suspended in a sleep, or destroyed by cancel(). */
  datatype FrameState = Awake | Asleep(sid: nat) | Destroyed

  /** A sleep that went into the timer queue, with its shared alive flag. */
  datatype Nap = Nap(deadline: int, owner: nat, alive: bool)

  /** A timer callback that has run. */
  datatype Firing = Firing(sid: nat, at: int, resumed: bool)

  datatype State = State(
    now: int, timers: set<nat>, batch: seq<nat>, frames: map<nat, FrameState>, naps: map<nat, Nap>,
    fired: seq<Firing>, cancelled: set<nat>)

  datatype Event =
    | Advance(to: int)
    | Create(frame: nat)
    | GoToSleep(frame: nat, sid: nat, deadline: int)
    | Cancel(frame: nat)
    | Collect(order: seq<nat>)    // process_timers empties the queue of expired entries
    | Fire                        // and runs the next collected callback

  function Init(): State {
    State(0, {}, [], map[], map[], [], {})
  }

  ghost predicate Distinct(s: seq<nat>) {
    forall i, j :: 0 <= i < j < |s| ==> s[i] != s[j]
  }

  /** A frame sleeps only while awake; callbacks of one batch finish before the next batch; ties fire in any order. */
  ghost predicate Enabled(s: State, e: Event) {
    match e
    case Advance(to) => s.now <= to
    case Create(f) => f !in s.frames
    case GoToSleep(f, sid, _) => f in s.frames && s.frames[f].Awake? && sid !in s.naps
    case Cancel(f) => f in s.frames && !s.frames[f].Destroyed?
    case Collect(order) =>
      && s.batch == [] && Distinct(order) && s.timers <= s.naps.Keys
      && (forall sid :: sid in order <==> sid in s.timers && s.naps[sid].deadline <= s.now)
      && (forall i, j :: 0 <= i < j < |order| ==> s.naps[order[i]].deadline <= s.naps[order[j]].deadline)
    case Fire => s.batch != [] && s.batch[0] in s.naps
  }

  ghost function Next(s: State, e: Event): State
    requires Enabled(s, e)
  {
    match e
    case Advance(to) => s.(now := to)
    case Create(f) => s.(frames := s.frames[f := Awake])
    case GoToSleep(f, sid, deadline) =>
      if s.now >= deadline then s
      else s.(naps := s.naps[sid := Nap(deadline, f, true)], timers := s.timers + {sid},
        frames := s.frames[f := Asleep(sid)])
    case Cancel(f) => CancelFrame(s, f)
    case Collect(order) => s.(timers := s.timers - (set sid | sid in order), batch := order)
    case Fire =>
      var sid := s.batch[0];
      var nap := s.naps[sid];
      if nap.alive then
        s.(batch := s.batch[1..], naps := s.naps[sid := nap.(alive := false)], frames := s.frames[nap.owner := Awake],
           fired := s.fired + [Firing(sid, s.now, true)])
      else s.(batch := s.batch[1..], fired := s.fired + [Firing(sid, s.now, false)])
  }

  /** Destroying a sleeping frame destroys its awaiter, which clears the alive flag. */
  function CancelFrame(s: State, f: nat): State
    requires f in s.frames
  {
    var gone := s.(frames := s.frames[f := Destroyed]);
    match s.frames[f]
    case Asleep(sid) =>
      if sid in s.naps then gone.(naps := s.naps[sid := s.naps[sid].(alive := false)], cancelled := s.cancelled + {sid})
        else gone
    case _ => gone
  }

  // ---------------------------------------------------------------- the invariant

  ghost predicate HasFired(s: State, sid: nat) {
    exists i :: 0 <= i < |s.fired| && s.fired[i].sid == sid
  }

  /** Every nap is in exactly one place: the queue, the batch or the past. */
  ghost predicate Placed(s: State) {
    && (forall sid :: sid in s.naps <==> sid in s.timers || sid in s.batch || HasFired(s, sid))
    && (forall sid :: !(sid in s.timers && sid in s.batch))
    && (forall sid :: HasFired(s, sid) ==> sid !in s.timers && sid !in s.batch)
    && Distinct(s.batch)
    && (forall i, j :: 0 <= i < j < |s.fired| ==> s.fired[i].sid != s.fired[j].sid)
  }

  /** A nap is alive exactly while its owner is asleep in it. */
  ghost predicate Attached(s: State) {
    && (forall sid :: sid in s.naps && s.naps[sid].alive ==>
          s.naps[sid].owner in s.frames && s.frames[s.naps[sid].owner] == Asleep(sid) && !HasFired(s, sid))
    && (forall f :: f in s.frames && s.frames[f].Asleep? ==>
          s.frames[f].sid in s.naps && s.naps[s.frames[f].sid].alive && s.naps[s.frames[f].sid].owner == f)
  }

  /** Callbacks run when due; one that found its nap dead belongs to a cancelled one. */
  ghost predicate Honest(s: State) {
    && (forall sid :: sid in s.batch && sid in s.naps ==> s.naps[sid].deadline <= s.now)
    && (forall i :: 0 <= i < |s.fired| ==>
          && s.fired[i].sid in s.naps && s.naps[s.fired[i].sid].deadline <= s.fired[i].at <= s.now
          && (s.fired[i].resumed <==> s.fired[i].sid !in s.cancelled))
    && (forall sid :: sid in s.cancelled ==> sid in s.naps && !s.naps[sid].alive)
    && (forall sid :: sid in s.naps && !s.naps[sid].alive ==> sid in s.cancelled || HasFired(s, sid))
  }

  ghost predicate Inv(s: State) {
    Placed(s) && Attached(s) && Honest(s)
  }

  lemma FiredMore(s: State, x: Firing)
    ensures forall sid :: HasFired(s.(fired := s.fired + [x]), sid) <==> HasFired(s, sid) || sid == x.sid
  {
    var s' := s.(fired := s.fired + [x]);
    forall sid ensures HasFired(s', sid) <==> HasFired(s, sid) || sid == x.sid {
      if HasFired(s, sid) {
        var i :| 0 <= i < |s.fired| && s.fired[i].sid == sid;
        assert s'.fired[i].sid == sid;
      }
      assert s'.fired[|s.fired|] == x;
    }
  }

  lemma SleepKeeps(s: State, e: Event)
    requires Inv(s) && e.GoToSleep? && Enabled(s, e)
    ensures Inv(Next(s, e))
  {
    var s' := Next(s, e);
    assert forall sid :: HasFired(s', sid) <==> HasFired(s, sid);
  }

  lemma CancelKeeps(s: State, f: nat)
    requires Inv(s) && Enabled(s, Cancel(f))
    ensures Inv(Next(s, Cancel(f)))
  {
    var s' := Next(s, Cancel(f));
    assert forall sid :: HasFired(s', sid) <==> HasFired(s, sid);
  }

  lemma CollectKeeps(s: State, order: seq<nat>)
    requires Inv(s) && Enabled(s, Collect(order))
    ensures Inv(Next(s, Collect(order)))
  {
    var s' := Next(s, Collect(order));
    assert forall sid :: HasFired(s', sid) <==> HasFired(s, sid);
  }

  lemma FiredNow(s: State)
    requires Enabled(s, Fire)
    ensures forall k :: HasFired(Next(s, Fire), k) <==> HasFired(s, k) || k == s.batch[0]
  {
    var x := Firing(s.batch[0], s.now, s.naps[s.batch[0]].alive);
    FiredMore(s, x);
    assert forall k :: HasFired(Next(s, Fire), k) <==> HasFired(s.(fired := s.fired + [x]), k);
  }

  lemma FirePlaced(s: State)
    requires Placed(s) && Attached(s) && Enabled(s, Fire)
    ensures Placed(Next(s, Fire))
  {
    hide HasFired;
    FiredNow(s);
    assert s.batch == [s.batch[0]] + s.batch[1..];
    assert s.batch[0] in s.batch;
    forall i | 0 <= i < |s.fired| ensures HasFired(s, s.fired[i].sid) {
      FiredAt(s, i);
    }
  }

  lemma FiredAt(s: State, i: nat)
    requires i < |s.fired|
    ensures HasFired(s, s.fired[i].sid)
  {
  }

  lemma FireAttached(s: State)
    requires Placed(s) && Attached(s) && Enabled(s, Fire)
    ensures Attached(Next(s, Fire))
  {
    hide HasFired, Placed;
    FiredNow(s);
  }

  lemma FireHonest(s: State)
    requires Inv(s) && Enabled(s, Fire)
    ensures Honest(Next(s, Fire))
  {
    hide HasFired;
    FiredNow(s);
    assert s.batch == [s.batch[0]] + s.batch[1..];
    assert s.batch[0] in s.batch;
  }

  lemma FireKeeps(s: State)
    requires Inv(s) && Enabled(s, Fire)
    ensures Inv(Next(s, Fire))
  {
    hide Placed, Attached, Honest, Next;
    FirePlaced(s);
    FireAttached(s);
    FireHonest(s);
  }

  lemma StepKeeps(s: State, e: Event)
    requires Inv(s) && Enabled(s, e)
    ensures Inv(Next(s, e))
  {
    hide Inv;
    match e
    case GoToSleep(_, _, _) => SleepKeeps(s, e);
    case Cancel(f) => CancelKeeps(s, f);
    case Collect(order) => CollectKeeps(s, order);
    case Fire => FireKeeps(s);
    case _ => CalmKeeps(s, e);
  }

  lemma CalmKeeps(s: State, e: Event)
    requires Inv(s) && Enabled(s, e) && (e.Advance? || e.Create?)
    ensures Inv(Next(s, e))
  {
    var s' := Next(s, e);
    assert forall sid :: HasFired(s', sid) <==> HasFired(s, sid);
  }

  // ---------------------------------------------------------------- whole runs

  /** Events in order; one that cannot happen in the current state is skipped. */
  ghost function Run(es: seq<Event>): State {
    if |es| == 0 then Init()
    else
      var s := Run(es[..|es| - 1]);
      if Enabled(s, es[|es| - 1]) then Next(s, es[|es| - 1]) else s
  }

  lemma {:induction false} RunKeeps(es: seq<Event>)
    ensures Inv(Run(es))
  {
    hide Next, Enabled, Inv;
    if |es| == 0 {
      InitKeeps();
    } else {
      RunKeeps(es[..|es| - 1]);
      if Enabled(Run(es[..|es| - 1]), es[|es| - 1]) {
        StepKeeps(Run(es[..|es| - 1]), es[|es| - 1]);
      }
    }
  }

  lemma InitKeeps()
    ensures Inv(Init())
  {
  }

  /**
    A callback that resumes finds its frame suspended in that very sleep; one whose frame was destroyed,
    even by an earlier callback of the same batch, resumes nothing.
   */
  lemma NoDanglingResume(es: seq<Event>)
    requires Run(es).batch != []
    ensures var s := Run(es);
            var sid := s.batch[0];
            && Enabled(s, Fire)
            && (s.naps[sid].alive ==> s.naps[sid].owner in s.frames && s.frames[s.naps[sid].owner] == Asleep(sid))
            && (sid in s.cancelled ==> !s.naps[sid].alive && Next(s, Fire).frames == s.frames)
  {
    hide Run;
    RunKeeps(es);
    assert Run(es).batch[0] in Run(es).batch;
  }

  /** Each sleep resumes at most once, never early, and exactly when it was not cancelled. */
  lemma ResumedOnce(es: seq<Event>, sid: nat)
    requires sid in Run(es).naps
    ensures var s := Run(es);
            && (sid in s.timers || sid in s.batch || HasFired(s, sid))
            && (forall i, j ::
                  0 <= i < |s.fired| && 0 <= j < |s.fired| && s.fired[i].sid == sid == s.fired[j].sid ==> i == j)
            && (forall i :: 0 <= i < |s.fired| && s.fired[i].sid == sid ==>
                  s.naps[sid].deadline <= s.fired[i].at && (s.fired[i].resumed <==> sid !in s.cancelled))
  {
    hide Run;
    RunKeeps(es);
  }

  // ---------------------------------------------------------------- a due sleep fires

  /** The entries of the timer queue: one for each sleep waiting in it, with its deadline. */
  ghost predicate Holds(s: State, queue: seq<Timer>) {
    && (forall i, j :: 0 <= i < j < |queue| ==> queue[i].id != queue[j].id)
    && (forall t :: t in queue ==> t.id in s.timers && t.id in s.naps && s.naps[t.id].deadline == t.deadline)
    && (forall sid :: sid in s.timers && sid in s.naps ==> Timer(s.naps[sid].deadline, sid) in queue)
  }

  lemma {:induction false} TwiceIsTwo(ts: seq<Timer>, i: nat, j: nat)
    requires i < j < |ts| && ts[i] == ts[j]
    ensures multiset(ts)[ts[i]] >= 2
  {
    assert ts == ts[..j] + [ts[j]] + ts[j + 1..];
    assert ts[i] in ts[..j];
  }

  lemma {:induction false} OnceIsOne(ts: seq<Timer>, t: Timer)
    requires forall i, j :: 0 <= i < j < |ts| ==> ts[i].id != ts[j].id
    ensures multiset(ts)[t] <= 1
    decreases |ts|
  {
    if |ts| > 0 {
      assert ts == [ts[0]] + ts[1..];
      OnceIsOne(ts[1..], t);
      assert ts[0] !in ts[1..];
    }
  }

  lemma PartsOf(part: seq<Timer>, rest: seq<Timer>, ts: seq<Timer>)
    requires multiset(part) + multiset(rest) == multiset(ts)
    ensures forall t :: t in ts <==> t in part || t in rest
  {
    forall t ensures t in ts <==> t in part || t in rest {
      assert t in ts <==> t in multiset(ts);
      assert t in part <==> t in multiset(part);
      assert t in rest <==> t in multiset(rest);
    }
  }

  lemma PartDistinct(part: seq<Timer>, rest: seq<Timer>, ts: seq<Timer>)
    requires multiset(part) + multiset(rest) == multiset(ts)
    requires forall i, j :: 0 <= i < j < |ts| ==> ts[i].id != ts[j].id
    ensures forall i, j :: 0 <= i < j < |part| ==> part[i].id != part[j].id
  {
    PartsOf(part, rest, ts);
    forall i, j | 0 <= i < j < |part| ensures part[i].id != part[j].id {
      var a, b := part[i], part[j];
      assert a in part && b in part;
      OnceIsOne(ts, a);
      if a == b {
        TwiceIsTwo(part, i, j);
      }
    }
  }

  method QueueEntries(s: State) returns (queue: seq<Timer>)
    requires s.timers <= s.naps.Keys
    ensures Holds(s, queue)
  {
    queue := [];
    var todo := s.timers;
    while todo != {}
      invariant todo <= s.timers
      invariant forall i, j :: 0 <= i < j < |queue| ==> queue[i].id != queue[j].id
      invariant forall t :: t in queue ==> t.id in s.timers && t.id !in todo && s.naps[t.id].deadline == t.deadline
      invariant forall sid :: sid in s.timers && sid !in todo ==> Timer(s.naps[sid].deadline, sid) in queue
      decreases |todo|
    {
      var sid :| sid in todo;
      var entry := Timer(s.naps[sid].deadline, sid);
      forall x | x in s.timers && x !in todo - {sid} ensures Timer(s.naps[x].deadline, x) in queue + [entry] {
        if x != sid {
          assert Timer(s.naps[x].deadline, x) in queue;
        }
      }
      queue := queue + [entry];
      todo := todo - {sid};
    }
  }

  lemma OrderEnabled(s: State, queue: seq<Timer>, expired: seq<Timer>, rest: seq<Timer>, order: seq<nat>)
    requires Inv(s) && s.batch == [] && Holds(s, queue) && multiset(expired) + multiset(rest) == multiset(queue)
             && Sorted(expired)
    requires (forall t :: t in expired ==> t.deadline <= s.now) && (forall t :: t in rest ==> t.deadline > s.now)
    requires |order| == |expired| && forall i :: 0 <= i < |order| ==> order[i] == expired[i].id
    ensures Enabled(s, Collect(order))
  {
    hide HasFired, Attached, Honest;
    PartsOf(expired, rest, queue);
    PartDistinct(expired, rest, queue);
    forall i | 0 <= i < |order| ensures order[i] in s.timers && s.naps[order[i]].deadline == expired[i].deadline {
      assert expired[i] in expired;
    }
    forall sid | sid in s.timers && s.naps[sid].deadline <= s.now ensures sid in order {
      var t := Timer(s.naps[sid].deadline, sid);
      assert t in queue;
      var i :| 0 <= i < |expired| && expired[i] == t;
      assert order[i] == sid;
    }
  }

  /**
    process_timers can always collect once its last batch is through: taking the expired entries off the queue gives
    the batch.
   */
  method NextBatch(ghost es: seq<Event>, s: State) returns (order: seq<nat>)
    requires s == Run(es) && s.batch == []
    ensures Enabled(Run(es), Collect(order))
  {
    hide Run, Enabled, Next;
    RunKeeps(es);
    var queue := QueueEntries(s);
    var expired, rest := CollectExpired(queue, s.now);
    order := seq(|expired|, i requires 0 <= i < |expired| => expired[i].id);
    OrderEnabled(s, queue, expired, rest, order);
  }

  function Fires(es: seq<Event>): nat {
    if |es| == 0 then 0 else Fires(es[..|es| - 1]) + if es[|es| - 1].Fire? then 1 else 0
  }

  lemma RunSnoc(es: seq<Event>, e: Event)
    ensures Run(es + [e]) == if Enabled(Run(es), e) then Next(Run(es), e) else Run(es)
  {
    assert (es + [e])[..|es|] == es;
  }

  /** What has fired stays fired; what waits in the batch moves up only when the callback before it runs. */
  lemma StepMovesUp(s: State, e: Event, sid: nat, j: nat)
    requires Inv(s) && Enabled(s, e)
    ensures HasFired(s, sid) ==> HasFired(Next(s, e), sid)
    ensures j < |s.batch| && !e.Fire? ==> Next(s, e).batch == s.batch
    ensures j < |s.batch| && e.Fire? ==> Next(s, e).batch == s.batch[1..] && HasFired(Next(s, e), s.batch[0])
  {
    hide Inv;
    if e.Fire? {
      FiredNow(s);
    } else {
      assert Next(s, e).fired == s.fired;
    }
  }

  /** Whatever else happens in between, the callback at position k of the batch has run after k + 1 turns. */
  lemma {:induction false} BatchRuns(es: seq<Event>, after: seq<Event>, k: nat)
    requires k < |Run(es).batch|
    ensures var sid, s, n := Run(es).batch[k], Run(es + after), Fires(after);
            if n > k then HasFired(s, sid) else k - n < |s.batch| && s.batch[k - n] == sid
    decreases |after|
  {
    hide Run, Next, Inv, Placed, Attached, Honest, HasFired;
    if |after| == 0 {
      assert es + after == es;
    } else {
      var before, e := after[..|after| - 1], after[|after| - 1];
      assert es + after == (es + before) + [e];
      BatchRuns(es, before, k);
      RunSnoc(es + before, e);
      var s, n := Run(es + before), Fires(before);
      RunKeeps(es + before);
      if n <= k {
        NoDanglingResume(es + before);
      }
      if Enabled(s, e) {
        StepMovesUp(s, e, Run(es).batch[k], 0);
      }
    }
  }

  lemma {:induction false} NapStays(es: seq<Event>, after: seq<Event>, sid: nat)
    requires sid in Run(es).naps
    ensures sid in Run(es + after).naps && Run(es + after).naps[sid].deadline == Run(es).naps[sid].deadline
    ensures HasFired(Run(es), sid) ==> HasFired(Run(es + after), sid)
    decreases |after|
  {
    hide Run, Next, Inv, HasFired;
    if |after| == 0 {
      assert es + after == es;
    } else {
      var before, e := after[..|after| - 1], after[|after| - 1];
      assert es + after == (es + before) + [e];
      NapStays(es, before, sid);
      RunSnoc(es + before, e);
      RunKeeps(es + before);
      if Enabled(Run(es + before), e) {
        StepMovesUp(Run(es + before), e, sid, 0);
        NapKept(Run(es + before), e, sid);
      }
    }
  }

  lemma NapKept(s: State, e: Event, sid: nat)
    requires Enabled(s, e) && sid in s.naps
    ensures sid in Next(s, e).naps && Next(s, e).naps[sid].deadline == s.naps[sid].deadline
  {
  }

  /**
    Every sleep that is due when process_timers collects has fired exactly once when the batch is through, whatever is
    created, cancelled or put to sleep by the callbacks in between, and it resumed if and only if it was not cancelled.
   */
  lemma DueFires(es: seq<Event>, order: seq<nat>, after: seq<Event>, sid: nat)
    requires Enabled(Run(es), Collect(order)) && Fires(after) >= |order|
    requires sid in Run(es).naps && Run(es).naps[sid].deadline <= Run(es).now
    ensures var s := Run(es + [Collect(order)] + after);
            exists i :: 0 <= i < |s.fired| && s.fired[i].sid == sid
              && (forall j :: 0 <= j < |s.fired| && s.fired[j].sid == sid ==> j == i)
              && s.fired[i].at >= Run(es).naps[sid].deadline && (s.fired[i].resumed <==> sid !in s.cancelled)
  {
    hide Run, Next, Honest, Attached;
    RunKeeps(es);
    var collected := es + [Collect(order)];
    RunSnoc(es, Collect(order));
    assert Run(collected).batch == order && Run(collected).naps == Run(es).naps by { Collected(Run(es), order); }
    NapStays(collected, after, sid);
    if HasFired(Run(es), sid) {
      NapStays(es, [Collect(order)] + after, sid);
      assert collected + after == es + ([Collect(order)] + after);
    } else {
      var k :| 0 <= k < |order| && order[k] == sid;
      BatchRuns(collected, after, k);
    }
    ResumedOnce(collected + after, sid);
    var s := Run(collected + after);
    var i :| 0 <= i < |s.fired| && s.fired[i].sid == sid;
  }

  lemma Collected(s: State, order: seq<nat>)
    requires Enabled(s, Collect(order))
    ensures Next(s, Collect(order)).batch == order && Next(s, Collect(order)).naps == s.naps
  {
  }
}
