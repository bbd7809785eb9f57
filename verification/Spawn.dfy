/**
  The completion handoff of include/async_net/coroutine/spawn.hpp between a spawned coroutine and the
  one coroutine that awaits it, under every interleaving of their steps. `done` is written outside
  the mutex; taking and releasing the mutex are steps of their own.
 */
module Spawn {
  import opened Bytes

  /** The completer: fill the result, announce, lock, take the waiter and unlock, resume it. */
  datatype Completer = Working | Filled | Announced | Locked | Took(waiter: bool) | Finished

  /** The awaiter: test done, lock, test again and store the waiter or go on. */
  datatype Awaiter = Arriving | Tested | Inside | Suspended | Continued

  datatype Party = TheCompleter | TheAwaiter

  datatype State<T> = State(
    c: Completer, a: Awaiter, done: bool, holder: Option<Party>, waiter: bool, result: Option<T>,
    got: Option<T>, continues: nat)

  function Init<T>(): State<T> {
    State(Working, Arriving, false, None, false, None, None, 0)
  }

  /** The awaiting coroutine runs on and reads the result. */
  function Continue<T>(s: State<T>): State<T> {
    s.(a := Continued, got := s.result, continues := s.continues + 1)
  }

  predicate Enabled<T>(s: State<T>, p: Party) {
    match p
    case TheCompleter => !s.c.Finished? && (s.c.Announced? ==> s.holder.None?)
    case TheAwaiter => !s.a.Suspended? && !s.a.Continued? && (s.a.Tested? ==> s.holder.None?)
  }

  function CompleterStep<T>(s: State<T>, outcome: T): State<T> {
    match s.c
    case Working => s.(c := Filled, result := Some(outcome))
    case Filled => s.(c := Announced, done := true)
    case Announced => s.(c := Locked, holder := Some(TheCompleter))
    case Locked => s.(c := Took(s.waiter), waiter := false, holder := None)
    case Took(w) => (if w then Continue(s) else s).(c := Finished)
    case Finished => s
  }

  function AwaiterStep<T>(s: State<T>): State<T> {
    match s.a
    case Arriving => if s.done then Continue(s) else s.(a := Tested)
    case Tested => s.(a := Inside, holder := Some(TheAwaiter))
    case Inside =>
      var out := s.(holder := None);
      if s.done then Continue(out) else out.(a := Suspended, waiter := true)
    case _ => s
  }

  function Next<T>(s: State<T>, p: Party, outcome: T): State<T> {
    if !Enabled(s, p) then s else if p.TheCompleter? then CompleterStep(s, outcome) else AwaiterStep(s)
  }

  ghost predicate Inv<T>(s: State<T>, outcome: T) {
    && (s.done <==> !s.c.Working? && !s.c.Filled?)
    && s.result == (if s.c.Working? then None else Some(outcome))
    && (s.holder == Some(TheCompleter) <==> s.c.Locked?)
    && (s.holder == Some(TheAwaiter) <==> s.a.Inside?)
    && (s.waiter ==> s.a.Suspended? && !s.c.Took? && !s.c.Finished?)
    && (s.c.Took? && s.c.waiter ==> s.a.Suspended?)
    && (s.a.Suspended? ==> s.waiter || s.c == Took(true))
    && s.continues == (if s.a.Continued? then 1 else 0)
    && (s.a.Continued? ==> s.got == Some(outcome))
  }

  lemma StepKeeps<T>(s: State<T>, p: Party, outcome: T)
    requires Inv(s, outcome)
    ensures Inv(Next(s, p, outcome), outcome)
  {
  }

  function Run<T>(schedule: seq<Party>, outcome: T): State<T> {
    if |schedule| == 0 then Init()
      else Next(Run(schedule[..|schedule| - 1], outcome), schedule[|schedule| - 1], outcome)
  }

  lemma {:induction false} RunKeeps<T>(schedule: seq<Party>, outcome: T)
    ensures Inv(Run(schedule, outcome), outcome)
  {
    hide Next;
    if |schedule| == 0 {
    } else {
      RunKeeps(schedule[..|schedule| - 1], outcome);
      StepKeeps(Run(schedule[..|schedule| - 1], outcome), schedule[|schedule| - 1], outcome);
    }
  }

  /** Steps left to both parties together. */
  function Left<T>(s: State<T>): nat {
    (match s.c
     case Working => 5 case Filled => 4 case Announced => 3 case Locked => 2 case Took(_) => 1 case Finished => 0)
    + (match s.a case Arriving => 4 case Tested => 3 case Inside => 2 case Suspended => 1 case Continued => 0)
  }

  /** Never more than one continuation, always with the coroutine's own result, and none before it is filled. */
  lemma ContinuesOnce<T>(schedule: seq<Party>, outcome: T)
    ensures var s := Run(schedule, outcome);
            && s.continues <= 1
            && (s.a.Continued? ==> s.continues == 1 && s.done && s.got == Some(outcome))
            && (s.c.Took? && s.c.waiter ==> s.a.Suspended?)
  {
    hide Run;
    RunKeeps(schedule, outcome);
    ContinuedAfterDone(schedule, outcome);
  }

  lemma {:induction false} ContinuedAfterDone<T>(schedule: seq<Party>, outcome: T)
    ensures Run(schedule, outcome).a.Continued? ==> Run(schedule, outcome).done
  {
    if |schedule| > 0 {
      ContinuedAfterDone(schedule[..|schedule| - 1], outcome);
      RunKeeps(schedule[..|schedule| - 1], outcome);
    }
  }

  /**
    No lost wakeup: as long as the awaiter has not continued some party can move, every move brings
    the end closer, and where nobody can move both are through and the awaiter continued once.
   */
  lemma NoLostWakeup<T>(schedule: seq<Party>, outcome: T)
    ensures var s := Run(schedule, outcome);
            && (forall p :: Enabled(s, p) ==> Left(Next(s, p, outcome)) < Left(s))
            && (!Enabled(s, TheCompleter) && !Enabled(s, TheAwaiter) ==>
                  s.c.Finished? && s.a.Continued? && s.continues == 1 && s.got == Some(outcome))
  {
    hide Run;
    RunKeeps(schedule, outcome);
    var s := Run(schedule, outcome);
    assert s.holder.Some? ==> s.holder.value == TheCompleter || s.holder.value == TheAwaiter;
  }
}
