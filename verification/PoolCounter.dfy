/** How far down the WaitGroup counter can go, and what follows: when it can be negative, and
    when the Add of a send call can panic. */
module PoolCounter {
  import opened Prelude
  import opened Runs
  import opened Pool
  import opened PoolInvariants
  import opened PoolTheorems
  import opened PoolProgress
  import opened PoolShutdown

  ghost predicate AllInternal(acts: seq<Action>) {
    forall i :: 0 <= i < |acts| ==> Internal(acts[i])
  }

  /** The SendJob calls that panicked, less the timed calls that have not added: all that is
      left of the counter when every other call has sent and every job has run. */
  ghost function Balance(calls: map<Job, CallPc>): int {
    |At(calls, PlainPanicked)| - |At(calls, TimedEntered)| - |At(calls, TimedSent)|
  }

  ghost function Floor(s: State): int {
    if BeforeStop(s) then Balance(s.calls) else Outstanding(s)
  }

  // ---------- the counter stays above the floor ----------

  lemma BalanceStep(s: State, a: Action)
    requires Step(s, a).Some? && !a.CallTimed?
    ensures Balance(s.calls) <= Balance(Step(s, a).value.calls)
  {
    match a
    case CallPlain(j) => Moved(s, j, PlainEntered);
    case PlainAdd(j) => Moved(s, j, Step(s, a).value.calls[j]);
    case PlainSend(j) => Moved(s, j, ReturnedTrue);
    case TimedSend(j) => Moved(s, j, TimedSent);
    case TimedAdd(j) => Moved(s, j, Step(s, a).value.calls[j]);
    case TimedExpire(j) => Moved(s, j, ReturnedFalse);
    case _ =>
  }

  lemma FloorStep(s: State, a: Action)
    requires Inv(s) && Step(s, a).Some? && !a.CallTimed?
    ensures Floor(s) <= Floor(Step(s, a).value)
  {
    if StopTaken(s) {
      OutstandingStep(s, a);
    } else {
      BalanceStep(s, a);
    }
  }

  lemma CounterAboveFloor(s: State)
    requires Inv(s)
    ensures s.wg >= Floor(s)
  {
    CounterAtLeast(s);
  }

  lemma {:induction false} FloorRun(s: State, more: seq<Action>)
    requires Inv(s) && NoNewTimedCalls(more)
    ensures Exec(Step, s, more).Some? ==>
              Inv(Exec(Step, s, more).value) && Floor(s) <= Floor(Exec(Step, s, more).value)
    decreases |more|
  {
    if |more| == 0 {
    } else if Step(s, more[0]).Some? {
      assert !more[0].CallTimed?;
      StepKeepsInv(s, more[0]);
      FloorStep(s, more[0]);
      FloorRun(Step(s, more[0]).value, more[1..]);
    }
  }

  // ---------- and can come down to it ----------

  /** Every accepted job has run to its end, and no call is between an Add and a send, or
      waits in the select of a timed send. */
  ghost predicate RunDry(s: State) {
    && s.dispatcher == AtSelect && s.queue == [] && NoneRunning(s)
    && forall j :: j in s.calls ==> s.calls[j] != PlainAdded && s.calls[j] != TimedEntered
  }

  /** Until then, a step that lets a job or a send advance is enabled. */
  lemma JobsAdvance(s: State) returns (a: Action)
    requires Inv(s) && BeforeStop(s) && !RunDry(s)
    ensures Internal(a) && Step(s, a).Some?
    ensures Step(s, a).value.release == s.release && Balance(Step(s, a).value.calls) == Balance(s.calls)
  {
    if s.dispatcher != AtSelect {
      a := HandMoves(s);
    } else if s.queue != [] {
      a := TakeJob;
    } else if w: nat :| w < |s.workers| && s.workers[w].Running? {
      a := WorkerFinish(w, false);
    } else {
      var j :| j in s.calls && (s.calls[j] == PlainAdded || s.calls[j] == TimedEntered);
      a := if s.calls[j] == PlainAdded then PlainSend(j) else TimedSend(j);
      Moved(s, j, if s.calls[j] == PlainAdded then ReturnedTrue else TimedSent);
      assert j in At(s.calls, s.calls[j]);
    }
  }

  lemma DryCounter(s: State)
    requires Inv(s) && RunDry(s)
    ensures s.wg == Balance(s.calls)
  {
    CounterWhenIdle(s);
    assert At(s.calls, PlainAdded) == {} && At(s.calls, TimedEntered) == {};
  }

  /** With every step but the Adds taken, the counter comes down to the balance. */
  lemma {:induction false} RunsDry(s: State) returns (acts: seq<Action>, t: State)
    requires Inv(s) && BeforeStop(s)
    ensures AllInternal(acts) && Exec(Step, s, acts) == Some(t) && Inv(t) && t.wg == Balance(s.calls)
    decreases Measure(s)
  {
    if RunDry(s) {
      DryCounter(s);
      acts, t := [], s;
    } else {
      var a := JobsAdvance(s);
      StepKeepsInv(s, a);
      MeasureDrops(s, a);
      var u := Step(s, a).value;
      var rest;
      rest, t := RunsDry(u);
      ExecCons(Step, s, a, rest);
      acts := [a] + rest;
    }
  }

  lemma FinishOne(s: State) returns (a: Action, t: State)
    requires Inv(s) && StopTaken(s) && !NoneRunning(s)
    ensures Internal(a) && Step(s, a) == Some(t)
    ensures Inv(t) && StopTaken(t) && Outstanding(t) == Outstanding(s) && Measure(t) < Measure(s)
  {
    var w: nat :| w < |s.workers| && s.workers[w].Running?;
    a := WorkerFinish(w, false);
    t := Step(s, a).value;
    StepKeepsInv(s, a);
    MeasureDrops(s, a);
  }

  /** After the stop signal the running jobs can finish first. */
  lemma {:induction false} FinishRunning(s: State) returns (acts: seq<Action>, t: State)
    requires Inv(s) && StopTaken(s)
    ensures AllInternal(acts) && Exec(Step, s, acts) == Some(t) && Inv(t) && t.wg == Outstanding(s)
    decreases Measure(s)
  {
    if NoneRunning(s) {
      CounterWhenIdle(s);
      acts, t := [], s;
    } else {
      var a, u := FinishOne(s);
      var rest;
      rest, t := FinishRunning(u);
      ExecCons(Step, s, a, rest);
      acts := [a] + rest;
    }
  }

  lemma ReachesFloor(s: State) returns (acts: seq<Action>, t: State)
    requires Inv(s)
    ensures AllInternal(acts) && Exec(Step, s, acts) == Some(t) && Inv(t) && t.wg == Floor(s)
  {
    if BeforeStop(s) {
      acts, t := RunsDry(s);
    } else {
      acts, t := FinishRunning(s);
    }
  }

  // ---------- main results ----------

  ghost predicate CanFallTo(s: State, low: int) {
    exists more, t :: AllInternal(more) && Exec(Step, s, more) == Some(t) && t.wg <= low
  }

  /** The lowest value the counter can come down to, from every reachable state: until the
      dispatcher takes the stop signal, the SendJob calls that panicked less the timed calls
      that have not added; after it, the jobs queued and the SendJob calls that have added
      and not sent, or panicked, less the timed calls that have sent and not added. No run
      without a new timed call gets below it. */
  lemma LowestCounter(numWorkers: int, jobQueueLen: int, acts: seq<Action>, s: State)
    requires Reaches(numWorkers, jobQueueLen, acts, s)
    ensures var panicked, sent := |At(s.calls, PlainPanicked)|, |At(s.calls, TimedSent)|;
            var lowest := if BeforeStop(s) then panicked - |At(s.calls, TimedEntered)| - sent
                          else |s.queue| + |At(s.calls, PlainAdded)| + panicked - sent;
            && (exists more, t :: AllInternal(more) && Exec(Step, s, more) == Some(t) && t.wg == lowest)
            && (forall more, t :: NoNewTimedCalls(more) && Exec(Step, s, more) == Some(t) ==> t.wg >= lowest)
  {
    ReachableInv(numWorkers, jobQueueLen, acts, s);
    var down, low := ReachesFloor(s);
    forall more, t | NoNewTimedCalls(more) && Exec(Step, s, more) == Some(t) ensures t.wg >= Floor(s) {
      FloorRun(s, more);
      CounterAboveFloor(t);
    }
  }

  /** The calls already made can bring the counter below zero if and only if, until the
      dispatcher takes the stop signal, more timed calls have not added than SendJob calls
      have panicked; and after it, more timed calls have sent and not added than there are
      jobs queued and SendJob calls that have added and not sent, or panicked. */
  lemma CounterGoesNegativeIff(numWorkers: int, jobQueueLen: int, acts: seq<Action>, s: State)
    requires Reaches(numWorkers, jobQueueLen, acts, s)
    ensures BeforeStop(s) ==>
              (CanFallTo(s, -1) <==>
               |At(s.calls, PlainPanicked)| < |At(s.calls, TimedEntered)| + |At(s.calls, TimedSent)|)
    ensures !BeforeStop(s) ==>
              (CanFallTo(s, -1) <==>
               |s.queue| + |At(s.calls, PlainAdded)| + |At(s.calls, PlainPanicked)| < |At(s.calls, TimedSent)|)
  {
    ReachableInv(numWorkers, jobQueueLen, acts, s);
    FallsToFloor(s, -1);
  }

  lemma FallsToFloor(s: State, low: int)
    requires Inv(s)
    ensures CanFallTo(s, low) <==> Floor(s) <= low
  {
    if Floor(s) <= low {
      var more, t := ReachesFloor(s);
    } else if CanFallTo(s, low) {
      var more, t :| AllInternal(more) && Exec(Step, s, more) == Some(t) && t.wg <= low;
      FloorRun(s, more);
      CounterAboveFloor(t);
    }
  }

  /** In every pool: one timed send, whose job finishes before its sender gets to its Add. */
  lemma TimedSendCanGoNegative(numWorkers: int, jobQueueLen: int)
    ensures exists acts, s :: Reaches(numWorkers, jobQueueLen, acts, s) && s.wg < 0
  {
    var s0 := NewPool(numWorkers, jobQueueLen);
    InitialInv(numWorkers, jobQueueLen);
    StepKeepsInv(s0, CallTimed(0));
    var s1 := Step(s0, CallTimed(0)).value;
    assert At(s1.calls, PlainPanicked) == {} && At(s1.calls, TimedEntered) == {0};
    var more, t := ReachesFloor(s1);
    ExecCons(Step, s0, CallTimed(0), more);
    assert Reaches(numWorkers, jobQueueLen, [CallTimed(0)] + more, t);
  }

  // ---------- the Add of a send call can panic ----------

  ghost predicate Panicked(s: State, j: Job) {
    CallAt(s, j, PlainPanicked) || CallAt(s, j, TimedPanicked)
  }

  ghost predicate CanPanic(s: State) {
    exists more, t, j :: AllInternal(more) && Exec(Step, s, more) == Some(t) && Panicked(t, j) && !Panicked(s, j)
  }

  lemma {:induction false} PanickedStays(s: State, more: seq<Action>, j: Job)
    requires Panicked(s, j)
    ensures Exec(Step, s, more).Some? ==> Panicked(Exec(Step, s, more).value, j)
    decreases |more|
  {
    if |more| == 0 {
    } else if Step(s, more[0]).Some? {
      PanickedStays(Step(s, more[0]).value, more[1..], j);
    }
  }

  lemma PanicsBelow(s: State, j: Job, a: Action)
    requires Step(s, a).Some? && Panicked(Step(s, a).value, j) && !Panicked(s, j)
    ensures s.wg <= -2
  {
  }

  lemma {:induction false} NoPanicRun(s: State, more: seq<Action>)
    requires Inv(s) && Floor(s) >= -1 && NoNewTimedCalls(more)
    ensures Exec(Step, s, more).Some? ==>
              forall j :: Panicked(Exec(Step, s, more).value, j) ==> Panicked(s, j)
    decreases |more|
  {
    if |more| == 0 {
    } else if Step(s, more[0]).Some? {
      var t := Step(s, more[0]).value;
      assert !more[0].CallTimed?;
      CounterAboveFloor(s);
      forall j | Panicked(t, j) ensures Panicked(s, j) {
        if !Panicked(s, j) { PanicsBelow(s, j, more[0]); }
      }
      StepKeepsInv(s, more[0]);
      FloorStep(s, more[0]);
      NoPanicRun(t, more[1..]);
    }
  }

  lemma PanicsAtFloor(s: State)
    requires Inv(s) && Floor(s) <= -2
    ensures CanPanic(s)
  {
    var more, t := ReachesFloor(s);
    var j := BelowZeroMeansTimed(t);
    var u := Step(t, TimedAdd(j)).value;
    ExecCons(Step, t, TimedAdd(j), []);
    ExecAppend(Step, s, more, [TimedAdd(j)] + []);
    if Panicked(s, j) {
      PanickedStays(s, more, j);
    }
    assert Panicked(u, j) && AllInternal(more + ([TimedAdd(j)] + []));
  }

  /** The Add of a call already made can panic in its caller if and only if the counter can
      come down to -2: until the dispatcher takes the stop signal, when at least two more
      timed calls have not added than SendJob calls have panicked; after it, when at least
      two more timed calls have sent and not added than there are jobs queued and SendJob
      calls that have added and not sent, or panicked. */
  lemma SendPanicsIff(numWorkers: int, jobQueueLen: int, acts: seq<Action>, s: State)
    requires Reaches(numWorkers, jobQueueLen, acts, s)
    ensures BeforeStop(s) ==>
              (CanPanic(s) <==>
               |At(s.calls, PlainPanicked)| + 2 <= |At(s.calls, TimedEntered)| + |At(s.calls, TimedSent)|)
    ensures !BeforeStop(s) ==>
              (CanPanic(s) <==>
               |s.queue| + |At(s.calls, PlainAdded)| + |At(s.calls, PlainPanicked)| + 2 <= |At(s.calls, TimedSent)|)
  {
    ReachableInv(numWorkers, jobQueueLen, acts, s);
    if Floor(s) <= -2 {
      PanicsAtFloor(s);
    } else if CanPanic(s) {
      var more, t, j :| AllInternal(more) && Exec(Step, s, more) == Some(t) && Panicked(t, j) && !Panicked(s, j);
      NoPanicRun(s, more);
    }
  }

  /** In every pool: two timed sends, whose jobs both finish before the first Add. */
  lemma SendCanPanic(numWorkers: int, jobQueueLen: int)
    ensures exists acts, s, j :: Reaches(numWorkers, jobQueueLen, acts, s) && Panicked(s, j)
  {
    var s0 := NewPool(numWorkers, jobQueueLen);
    var calls := [CallTimed(0)] + ([CallTimed(1)] + []);
    var s1 := Step(s0, CallTimed(0)).value;
    var s2 := Step(s1, CallTimed(1)).value;
    ExecCons(Step, s1, CallTimed(1), []);
    ExecCons(Step, s0, CallTimed(0), [CallTimed(1)] + []);
    assert At(s2.calls, PlainPanicked) == {} && At(s2.calls, TimedEntered) == {0, 1};
    SendPanicsIff(numWorkers, jobQueueLen, calls, s2);
    var more, t, j :| AllInternal(more) && Exec(Step, s2, more) == Some(t) && Panicked(t, j) && !Panicked(s2, j);
    ExecAppend(Step, s0, calls, more);
    assert Reaches(numWorkers, jobQueueLen, calls + more, t);
  }
}
