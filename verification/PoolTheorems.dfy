/** What holds over whole runs of the pool. */
module PoolTheorems {
  import opened Prelude
  import opened Runs
  import opened Pool
  import opened PoolInvariants

  ghost predicate Reaches(numWorkers: int, jobQueueLen: int, acts: seq<Action>, s: State) {
    Exec(Step, NewPool(numWorkers, jobQueueLen), acts) == Some(s)
  }

  lemma EveryStepKeepsInv()
    ensures Preserved(Step, Inv)
  {
    forall s, a | Inv(s) && Step(s, a).Some? ensures Inv(Step(s, a).value) {
      StepKeepsInv(s, a);
    }
  }

  lemma ReachableInv(numWorkers: int, jobQueueLen: int, acts: seq<Action>, s: State)
    requires Reaches(numWorkers, jobQueueLen, acts, s)
    ensures Inv(s)
  {
    InitialInv(numWorkers, jobQueueLen);
    EveryStepKeepsInv();
    InvariantHolds(Step, Inv, NewPool(numWorkers, jobQueueLen), acts);
  }

  lemma {:induction false} WorkersNeverChangeNumber(s: State, acts: seq<Action>)
    ensures Exec(Step, s, acts).Some? ==>
              var t := Exec(Step, s, acts).value; |t.workers| == |s.workers| && t.queueLen == s.queueLen
    decreases |acts|
  {
    if |acts| == 0 {
    } else if Step(s, acts[0]).Some? {
      WorkersNeverChangeNumber(Step(s, acts[0]).value, acts[1..]);
    }
  }

  // ---------- the capacity of the queue ----------

  /** The queue holds as many jobs as were asked for, or five, and a call that is about to
      send finds room exactly below that number. */
  lemma QueueCapacity(numWorkers: int, jobQueueLen: int, acts: seq<Action>, s: State, j: Job)
    requires Reaches(numWorkers, jobQueueLen, acts, s)
    ensures |s.queue| <= if jobQueueLen > 0 then jobQueueLen else 5
    ensures CallAt(s, j, PlainAdded) ==>
              (Step(s, PlainSend(j)).Some? <==> |s.queue| < if jobQueueLen > 0 then jobQueueLen else 5)
    ensures CallAt(s, j, TimedEntered) ==>
              (Step(s, TimedSend(j)).Some? <==> |s.queue| < if jobQueueLen > 0 then jobQueueLen else 5)
  {
    ReachableInv(numWorkers, jobQueueLen, acts, s);
    WorkersNeverChangeNumber(NewPool(numWorkers, jobQueueLen), acts);
  }

  lemma CapacityIsFixed(numWorkers: int, jobQueueLen: int, acts: seq<Action>, s: State)
    requires Reaches(numWorkers, jobQueueLen, acts, s)
    ensures s.queueLen == if jobQueueLen > 0 then jobQueueLen else 5
  {
    WorkersNeverChangeNumber(NewPool(numWorkers, jobQueueLen), acts);
  }

  /** Some run fills it. */
  lemma QueueFills(numWorkers: int, jobQueueLen: int)
    ensures exists acts, s ::
              Reaches(numWorkers, jobQueueLen, acts, s) && |s.queue| == if jobQueueLen > 0 then jobQueueLen else 5
  {
    var acts, s := FillQueue(numWorkers, jobQueueLen, if jobQueueLen > 0 then jobQueueLen else 5);
  }

  lemma {:induction false} FillQueue(numWorkers: int, jobQueueLen: int, n: nat) returns (acts: seq<Action>, s: State)
    requires n <= if jobQueueLen > 0 then jobQueueLen else 5
    ensures Reaches(numWorkers, jobQueueLen, acts, s) && |s.queue| == n
    ensures s.wg == n && forall j :: j in s.calls ==> j < n
  {
    if n == 0 {
      acts, s := [], NewPool(numWorkers, jobQueueLen);
    } else {
      var before, t := FillQueue(numWorkers, jobQueueLen, n - 1);
      CapacityIsFixed(numWorkers, jobQueueLen, before, t);
      var more;
      more, s := PlainSendRuns(t, n - 1);
      ExecAppend(Step, NewPool(numWorkers, jobQueueLen), before, more);
      acts := before + more;
    }
  }

  lemma PlainSendRuns(s: State, j: Job) returns (acts: seq<Action>, t: State)
    requires j !in s.calls && s.wg >= -1 && |s.queue| < s.queueLen
    ensures Exec(Step, s, acts) == Some(t)
    ensures t.queue == s.queue + [j] && t.wg == s.wg + 1 && t.calls == s.calls[j := ReturnedTrue]
    ensures t.release == s.release
  {
    var s1 := Step(s, CallPlain(j)).value;
    var s2 := Step(s1, PlainAdd(j)).value;
    t := Step(s2, PlainSend(j)).value;
    ExecCons(Step, s2, PlainSend(j), []);
    ExecCons(Step, s1, PlainAdd(j), [PlainSend(j)] + []);
    ExecCons(Step, s, CallPlain(j), [PlainAdd(j)] + ([PlainSend(j)] + []));
    acts := [CallPlain(j)] + ([PlainAdd(j)] + ([PlainSend(j)] + []));
  }

  // ---------- conservation ----------

  /** Every worker is in exactly one place, and a worker about to push itself finds
      room in the idle pool. */
  lemma EachWorkerInOnePlace(numWorkers: int, jobQueueLen: int, acts: seq<Action>, s: State, w: nat)
    requires Reaches(numWorkers, jobQueueLen, acts, s) && w < |s.workers|
    ensures |s.workers| == if numWorkers > 0 then numWorkers else 2
    ensures Count(s.workers[w] == Pushing) + Count(w in s.idle) + Count(Holds(s.dispatcher, w))
            + Count(s.workers[w].Running?) + Count(s.dispatcher.StopAwait? && s.dispatcher.worker == w)
            + Count(w in s.halted) == 1
    ensures Distinct(s.idle)
    ensures s.workers[w] == Pushing ==> Step(s, WorkerPush(w)).Some?
  {
    ReachableInv(numWorkers, jobQueueLen, acts, s);
    WorkersNeverChangeNumber(NewPool(numWorkers, jobQueueLen), acts);
    if s.workers[w] == Pushing {
      Pigeonhole(s.idle, |s.workers|);
      assert w !in s.idle;
    }
  }

  ghost function Runners(s: State, j: Job): set<nat> {
    set w: nat | w < |s.workers| && s.workers[w] == Running(j)
  }

  /** Every accepted job is in exactly one place, at most one worker runs it, and jobs
      reach the workers in the order in which the queue accepted them, each once. */
  lemma EachJobInOnePlace(numWorkers: int, jobQueueLen: int, acts: seq<Action>, s: State, j: Job)
    requires Reaches(numWorkers, jobQueueLen, acts, s)
    ensures j in s.accepted ==>
              Count(j in s.queue) + Count(j in Hand(s.dispatcher)) + |Runners(s, j)| + Count(j in s.finished) == 1
    ensures j !in s.accepted ==>
              j !in s.queue && j !in Hand(s.dispatcher) && Runners(s, j) == {} && j !in s.finished
    ensures s.delivered <= s.accepted && Distinct(s.delivered)
    ensures s.accepted == s.delivered + Hand(s.dispatcher) + s.queue
  {
    ReachableInv(numWorkers, jobQueueLen, acts, s);
    PartsAreDisjoint(s.delivered, Hand(s.dispatcher), s.queue, j);
    assert s.delivered == s.accepted[..|s.delivered|];
    if w :| 0 <= w < |s.workers| && s.workers[w] == Running(j) {
      assert Runners(s, j) == {w};
    } else {
      assert Runners(s, j) == {};
    }
  }

  lemma PartsAreDisjoint<T>(a: seq<T>, b: seq<T>, c: seq<T>, x: T)
    requires Distinct(a + b + c)
    ensures Distinct(a)
    ensures x in a + b + c <==> x in a || x in b || x in c
    ensures !(x in a && x in b) && !(x in a && x in c) && !(x in b && x in c)
  {
    var all := a + b + c;
    if x in a { var i :| 0 <= i < |a| && a[i] == x; assert all[i] == x; }
    if x in b { var i :| 0 <= i < |b| && b[i] == x; assert all[|a| + i] == x; }
    if x in c { var i :| 0 <= i < |c| && c[i] == x; assert all[|a| + |b| + i] == x; }
    forall i, j | 0 <= i < j < |a| ensures a[i] != a[j] {
      assert all[i] != all[j];
    }
  }

  /** What a send call reports: true only for a job that was accepted, false only for one that
      was not and never will be; and a timed call can always give up, whether or not there
      is room. */
  lemma ResultsAreHonest(
    numWorkers: int, jobQueueLen: int, acts: seq<Action>, s: State, j: Job, more: seq<Action>, t: State)
    requires Reaches(numWorkers, jobQueueLen, acts, s) && Exec(Step, s, more) == Some(t)
    ensures CallAt(s, j, ReturnedTrue) ==> j in s.accepted
    ensures CallAt(s, j, ReturnedFalse) ==> j !in t.accepted && CallAt(t, j, ReturnedFalse)
    ensures CallAt(s, j, TimedEntered) ==>
              Step(s, TimedExpire(j)).Some? && CallAt(Step(s, TimedExpire(j)).value, j, ReturnedFalse)
  {
    ReachableInv(numWorkers, jobQueueLen, acts, s);
    if CallAt(s, j, ReturnedFalse) {
      FalseStays(s, j, more);
      ExecAppend(Step, NewPool(numWorkers, jobQueueLen), acts, more);
      ReachableInv(numWorkers, jobQueueLen, acts + more, t);
    }
  }

  lemma {:induction false} FalseStays(s: State, j: Job, more: seq<Action>)
    requires CallAt(s, j, ReturnedFalse)
    ensures Exec(Step, s, more).Some? ==> CallAt(Exec(Step, s, more).value, j, ReturnedFalse)
    decreases |more|
  {
    if |more| == 0 {
    } else if Step(s, more[0]).Some? {
      FalseStays(Step(s, more[0]).value, j, more[1..]);
    }
  }

  /** A running job can end by returning or by a panic, and the pool treats both alike: the job
      is finished, the counter falls by one, and the worker goes back to the pool. */
  lemma JobsEndEitherWay(numWorkers: int, jobQueueLen: int, acts: seq<Action>, s: State, w: nat, panicked: bool)
    requires Reaches(numWorkers, jobQueueLen, acts, s) && w < |s.workers| && s.workers[w].Running?
    ensures var next := Step(s, WorkerFinish(w, panicked));
            && next.Some? && next.value.workers == s.workers[w := Pushing] && next.value.wg == s.wg - 1
            && next.value.finished == s.finished + {s.workers[w].job} && s.workers[w].job !in s.finished
            && Step(next.value, WorkerPush(w)).Some?
  {
    ReachableInv(numWorkers, jobQueueLen, acts, s);
    var next := Step(s, WorkerFinish(w, panicked)).value;
    StepKeepsInv(s, WorkerFinish(w, panicked));
    Pigeonhole(next.idle, |next.workers|);
    assert w !in next.idle;
  }

  // ---------- the idle pool is a queue ----------

  /** The workers that pushed themselves, in order. */
  ghost function Pushes(acts: seq<Action>): seq<nat> {
    if |acts| == 0 then []
    else (if acts[0].WorkerPush? then [acts[0].worker] else []) + Pushes(acts[1..])
  }

  ghost function Takes(acts: seq<Action>): nat {
    if |acts| == 0 then 0
    else (if acts[0].TakeWorker? || acts[0].TakeStopWorker? then 1 else 0) + Takes(acts[1..])
  }

  lemma {:induction false} IdleAlong(s: State, acts: seq<Action>)
    ensures Exec(Step, s, acts).Some? ==>
              Takes(acts) <= |s.idle + Pushes(acts)| &&
              Exec(Step, s, acts).value.idle == (s.idle + Pushes(acts))[Takes(acts)..]
    decreases |acts|
  {
    if |acts| == 0 {
      assert s.idle + [] == s.idle;
    } else if Step(s, acts[0]).Some? {
      var t := Step(s, acts[0]).value;
      IdleAlong(t, acts[1..]);
      IdleStep(s, acts[0]);
      IdleJoins(s.idle, t.idle, acts[0], Pushes(acts[1..]));
    }
  }

  ghost predicate IdleMoves(idle: seq<nat>, next: seq<nat>, a: Action) {
    if a.WorkerPush? then next == idle + [a.worker]
    else if a.TakeWorker? || a.TakeStopWorker? then |idle| > 0 && next == idle[1..]
    else next == idle
  }

  lemma IdleJoins(idle: seq<nat>, next: seq<nat>, a: Action, pushes: seq<nat>)
    requires IdleMoves(idle, next, a)
    ensures var all := idle + ((if a.WorkerPush? then [a.worker] else []) + pushes);
            var took := if a.TakeWorker? || a.TakeStopWorker? then 1 else 0;
            took <= |all| && all[took..] == next + pushes
  {
  }

  lemma IdleStep(s: State, a: Action)
    requires Step(s, a).Some?
    ensures IdleMoves(s.idle, Step(s, a).value.idle, a)
  {
  }

  /** The dispatcher takes the workers in the order in which they pushed themselves. */
  lemma IdlePoolIsFifo(numWorkers: int, jobQueueLen: int, acts: seq<Action>, s: State, a: Action)
    requires Reaches(numWorkers, jobQueueLen, acts, s)
    requires (a.TakeWorker? || a.TakeStopWorker?) && Step(s, a).Some?
    ensures Takes(acts) < |Pushes(acts)| && s.idle == Pushes(acts)[Takes(acts)..]
    ensures var next := Step(s, a).value.dispatcher;
            (next.Sending? || next.StopSignal?) && next.worker == Pushes(acts)[Takes(acts)]
  {
    IdleAlong(NewPool(numWorkers, jobQueueLen), acts);
    assert [] + Pushes(acts) == Pushes(acts);
  }

  // ---------- the WaitGroup ----------

  /** The counter equals the SendJob calls that have added but not yet sent, or panicked as
      they added, plus the accepted jobs that have not finished, minus the timed calls that
      have sent but not yet added. */
  lemma WaitGroupAccounting(numWorkers: int, jobQueueLen: int, acts: seq<Action>, s: State)
    requires Reaches(numWorkers, jobQueueLen, acts, s)
    ensures s.wg == |At(s.calls, PlainAdded)| + |At(s.calls, PlainPanicked)|
                    + |Elements(s.accepted) - s.finished| - |At(s.calls, TimedSent)|
  {
    ReachableInv(numWorkers, jobQueueLen, acts, s);
    DistinctSize(s.accepted);
    assert s.finished <= Elements(s.accepted);
    assert Elements(s.accepted) == s.finished + (Elements(s.accepted) - s.finished);
  }

  ghost predicate NoNewTimedCalls(acts: seq<Action>) {
    forall i :: 0 <= i < |acts| ==> !acts[i].CallTimed?
  }

  /** With SendJob alone the counter is never negative. */
  lemma {:induction false} PlainSendsNeverGoNegative(numWorkers: int, jobQueueLen: int, acts: seq<Action>, s: State)
    requires Reaches(numWorkers, jobQueueLen, acts, s)
    requires NoNewTimedCalls(acts)
    ensures s.wg >= 0
  {
    WaitGroupAccounting(numWorkers, jobQueueLen, acts, s);
    NoTimedCalls(NewPool(numWorkers, jobQueueLen), acts);
    assert At(s.calls, TimedSent) == {};
  }

  ghost predicate NoTimedCall(s: State) {
    forall j :: j in s.calls ==> s.calls[j] != TimedEntered && s.calls[j] != TimedSent
  }

  lemma {:induction false} NoTimedCalls(s: State, acts: seq<Action>)
    requires NoTimedCall(s)
    requires NoNewTimedCalls(acts)
    ensures Exec(Step, s, acts).Some? ==> NoTimedCall(Exec(Step, s, acts).value)
    decreases |acts|
  {
    if |acts| == 0 {
    } else if Step(s, acts[0]).Some? {
      assert !acts[0].CallTimed?;
      NoTimedCalls(Step(s, acts[0]).value, acts[1..]);
    }
  }

  // ---------- Release ----------

  /** When Release returns, all workers have stopped, after the stop loop took each of
      them once; the dispatcher holds nothing; and every accepted job is either
      finished or still in the queue. */
  lemma ReleaseIsComplete(numWorkers: int, jobQueueLen: int, acts: seq<Action>, s: State)
    requires Reaches(numWorkers, jobQueueLen, acts, s) && s.release == Released
    ensures |s.workers| == if numWorkers > 0 then numWorkers else 2
    ensures forall w :: 0 <= w < |s.workers| ==> s.workers[w] == Stopped
    ensures Distinct(s.halted) && forall w: nat :: w in s.halted <==> w < |s.workers|
    ensures s.dispatcher == Exited
    ensures forall j :: j in s.accepted ==> (j in s.finished <==> j !in s.queue)
    ensures s.accepted == s.delivered + s.queue && s.finished == Elements(s.delivered)
  {
    ReachableInv(numWorkers, jobQueueLen, acts, s);
    WorkersNeverChangeNumber(NewPool(numWorkers, jobQueueLen), acts);
    WhenReleased(s);
  }

  lemma WhenReleased(s: State)
    requires Inv(s) && s.release == Released
    ensures forall w :: 0 <= w < |s.workers| ==> s.workers[w] == Stopped
    ensures Distinct(s.halted) && forall w: nat :: w in s.halted <==> w < |s.workers|
    ensures s.dispatcher == Exited
    ensures forall j :: j in s.accepted ==> (j in s.finished <==> j !in s.queue)
    ensures s.accepted == s.delivered + s.queue && s.finished == Elements(s.delivered)
  {
    Pigeonhole(s.halted, |s.workers|);
    assert s.accepted == s.delivered + s.queue;
    forall j ensures j in s.finished <==> j in s.delivered {
      assert forall w :: 0 <= w < |s.workers| ==> !s.workers[w].Running?;
    }
    forall j | j in s.accepted ensures j in s.finished <==> j !in s.queue {
      assert s.delivered + [] + s.queue == s.accepted;
      PartsAreDisjoint(s.delivered, [], s.queue, j);
    }
  }

  /** The counter without the jobs that workers and the dispatcher hold. */
  ghost function Outstanding(s: State): int {
    |At(s.calls, PlainAdded)| + |At(s.calls, PlainPanicked)| + |s.queue| - |At(s.calls, TimedSent)|
  }

  ghost predicate NoneRunning(s: State) {
    forall w :: 0 <= w < |s.workers| ==> !s.workers[w].Running?
  }

  lemma CounterWhenIdle(s: State)
    requires Inv(s) && Hand(s.dispatcher) == [] && NoneRunning(s)
    ensures s.wg == Outstanding(s)
  {
    assert s.accepted == s.delivered + s.queue;
    assert s.finished == Elements(s.delivered);
    DistinctSize(s.delivered) by {
      assert s.delivered + [] + s.queue == s.accepted;
      PartsAreDisjoint(s.delivered, [], s.queue, 0);
    }
  }

  lemma CounterAtLeast(s: State)
    requires Inv(s)
    ensures s.wg >= Outstanding(s)
  {
    assert |s.accepted| >= |s.delivered| + |s.queue|;
    assert s.delivered == s.accepted[..|s.delivered|];
    DistinctSize(s.delivered);
    SubsetSize(s.finished, Elements(s.delivered));
  }

  ghost predicate NoSendInProgress(s: State) {
    At(s.calls, PlainAdded) == {} && At(s.calls, TimedSent) == {}
  }

  /** WaitAll returns when the counter is zero. After Release the counter is the length of
      the queue, plus the SendJob calls that panicked, plus the SendJob calls and minus the
      timed calls that are between their two operations. With no send in progress WaitAll
      returns exactly when no SendJob call panicked and the queue was drained before the
      dispatcher took the stop signal. */
  lemma WaitAllAfterRelease(numWorkers: int, jobQueueLen: int, acts: seq<Action>, s: State)
    requires Reaches(numWorkers, jobQueueLen, acts, s) && s.release == Released
    ensures s.wg == |s.queue| + |At(s.calls, PlainPanicked)| + |At(s.calls, PlainAdded)| - |At(s.calls, TimedSent)|
    ensures NoSendInProgress(s) ==> (s.wg == 0 <==> s.queue == [] && At(s.calls, PlainPanicked) == {})
  {
    ReachableInv(numWorkers, jobQueueLen, acts, s);
    CounterWhenReleased(s);
  }

  lemma CounterWhenReleased(s: State)
    requires Inv(s) && s.release == Released
    ensures s.wg == Outstanding(s)
  {
    WhenReleased(s);
    CounterWhenIdle(s);
  }

  ghost predicate StopTaken(s: State) {
    s.release == ReleaseAwaiting || s.release == Released
  }

  /** Once the dispatcher has taken the stop signal, nothing leaves the queue, and what is
      outstanding only grows. */
  lemma OutstandingStep(s: State, a: Action)
    requires PhaseInv(s) && StopTaken(s) && Step(s, a).Some?
    ensures var t := Step(s, a).value;
            && StopTaken(t) && (s.release == Released ==> t.release == Released)
            && s.queue <= t.queue && Outstanding(s) <= Outstanding(t)
  {
    match a
    case CallPlain(j) => Moved(s, j, PlainEntered);
    case CallTimed(j) => Moved(s, j, TimedEntered);
    case PlainAdd(j) => Moved(s, j, Step(s, a).value.calls[j]);
    case PlainSend(j) => Moved(s, j, ReturnedTrue);
    case TimedSend(j) => Moved(s, j, TimedSent);
    case TimedAdd(j) => Moved(s, j, Step(s, a).value.calls[j]);
    case TimedExpire(j) => Moved(s, j, ReturnedFalse);
    case _ =>
  }

  lemma {:induction false} OutstandingRun(s: State, more: seq<Action>)
    requires Inv(s) && StopTaken(s)
    ensures Exec(Step, s, more).Some? ==>
              var t := Exec(Step, s, more).value;
              && Inv(t) && StopTaken(t) && (s.release == Released ==> t.release == Released)
              && s.queue <= t.queue && Outstanding(s) <= Outstanding(t)
    decreases |more|
  {
    if |more| == 0 {
    } else if Step(s, more[0]).Some? {
      StepKeepsInv(s, more[0]);
      OutstandingStep(s, more[0]);
      OutstandingRun(Step(s, more[0]).value, more[1..]);
    }
  }

  /** After Release, whatever calls follow, no job leaves the queue and the counter never
      falls. A job left behind so blocks WaitAll for ever, unless enough timed calls have
      sent and not added. */
  lemma StrandedJobBlocksWaitAll(
    numWorkers: int, jobQueueLen: int, acts: seq<Action>, s: State, more: seq<Action>, t: State)
    requires Reaches(numWorkers, jobQueueLen, acts, s) && s.release == Released
    requires Exec(Step, s, more) == Some(t)
    ensures s.queue <= t.queue && t.release == Released && s.wg <= t.wg
    ensures |At(s.calls, TimedSent)| < |s.queue| + |At(s.calls, PlainPanicked)| + |At(s.calls, PlainAdded)| ==>
              t.wg > 0
  {
    ReachableInv(numWorkers, jobQueueLen, acts, s);
    OutstandingRun(s, more);
    CounterWhenReleased(s);
    CounterWhenReleased(t);
  }

  lemma {:induction false} ClimbsToZero(s: State) returns (acts: seq<Action>, t: State)
    requires Inv(s) && s.release == Released && s.wg <= 0
    ensures Exec(Step, s, acts) == Some(t) && t.wg == 0
    decreases -s.wg
  {
    if s.wg == 0 {
      acts, t := [], s;
    } else {
      CounterWhenReleased(s);
      assert At(s.calls, TimedSent) != {};
      var j :| j in At(s.calls, TimedSent);
      StepKeepsInv(s, TimedAdd(j));
      var rest;
      rest, t := ClimbsToZero(Step(s, TimedAdd(j)).value);
      ExecCons(Step, s, TimedAdd(j), rest);
      acts := [TimedAdd(j)] + rest;
    }
  }

  /** After Release, WaitAll can still find the counter at zero, now or later, if and only
      if at least as many timed calls have sent and not added as there are jobs left
      behind and SendJob calls that have added and not sent, or panicked as they added. */
  lemma WaitAllCanReturnIff(numWorkers: int, jobQueueLen: int, acts: seq<Action>, s: State)
    requires Reaches(numWorkers, jobQueueLen, acts, s) && s.release == Released
    ensures (exists more, t :: Exec(Step, s, more) == Some(t) && t.wg == 0) <==>
            |s.queue| + |At(s.calls, PlainPanicked)| + |At(s.calls, PlainAdded)| <= |At(s.calls, TimedSent)|
  {
    ReachableInv(numWorkers, jobQueueLen, acts, s);
    CounterWhenReleased(s);
    if s.wg <= 0 {
      var more, t := ClimbsToZero(s);
    } else if more, t :| Exec(Step, s, more) == Some(t) && t.wg == 0 {
      StrandedJobBlocksWaitAll(numWorkers, jobQueueLen, acts, s, more, t);
    }
  }

  /** Release does not stop anyone from sending: while there is room a SendJob still returns,
      and its job stays in the queue for ever. */
  lemma SendAfterRelease(numWorkers: int, jobQueueLen: int, acts: seq<Action>, s: State, j: Job)
    returns (more: seq<Action>, t: State)
    requires Reaches(numWorkers, jobQueueLen, acts, s) && s.release == Released
    requires j !in s.calls && s.wg >= -1 && |s.queue| < if jobQueueLen > 0 then jobQueueLen else 5
    ensures Exec(Step, s, more) == Some(t) && CallAt(t, j, ReturnedTrue)
    ensures forall later, u :: Exec(Step, t, later) == Some(u) ==> j in u.queue && j !in u.finished
  {
    CapacityIsFixed(numWorkers, jobQueueLen, acts, s);
    more, t := PlainSendRuns(s, j);
    ExecAppend(Step, NewPool(numWorkers, jobQueueLen), acts, more);
    QueuedAlways(numWorkers, jobQueueLen, acts + more, t, j);
  }

  /** And so does a timed send. */
  lemma TimedSendAfterRelease(numWorkers: int, jobQueueLen: int, acts: seq<Action>, s: State, j: Job)
    returns (more: seq<Action>, t: State)
    requires Reaches(numWorkers, jobQueueLen, acts, s) && s.release == Released
    requires j !in s.calls && |s.queue| < if jobQueueLen > 0 then jobQueueLen else 5
    ensures Exec(Step, s, more) == Some(t) && CallAt(t, j, TimedSent)
    ensures forall later, u :: Exec(Step, t, later) == Some(u) ==> j in u.queue && j !in u.finished
  {
    CapacityIsFixed(numWorkers, jobQueueLen, acts, s);
    var s1 := Step(s, CallTimed(j)).value;
    t := Step(s1, TimedSend(j)).value;
    ExecCons(Step, s1, TimedSend(j), []);
    ExecCons(Step, s, CallTimed(j), [TimedSend(j)] + []);
    more := [CallTimed(j)] + ([TimedSend(j)] + []);
    ExecAppend(Step, NewPool(numWorkers, jobQueueLen), acts, more);
    QueuedAlways(numWorkers, jobQueueLen, acts + more, t, j);
  }

  lemma QueuedAlways(numWorkers: int, jobQueueLen: int, acts: seq<Action>, s: State, j: Job)
    requires Reaches(numWorkers, jobQueueLen, acts, s) && s.release == Released && j in s.queue
    ensures forall more, t :: Exec(Step, s, more) == Some(t) ==> j in t.queue && j !in t.finished
  {
    forall more, t | Exec(Step, s, more) == Some(t) ensures j in t.queue && j !in t.finished {
      QueuedForEver(numWorkers, jobQueueLen, acts, s, j, more, t);
    }
  }

  lemma QueuedForEver(
    numWorkers: int, jobQueueLen: int, acts: seq<Action>, s: State, j: Job, more: seq<Action>, t: State)
    requires Reaches(numWorkers, jobQueueLen, acts, s) && s.release == Released && j in s.queue
    requires Exec(Step, s, more) == Some(t)
    ensures j in t.queue && j !in t.finished
  {
    StrandedJobBlocksWaitAll(numWorkers, jobQueueLen, acts, s, more, t);
    var k :| 0 <= k < |s.queue| && s.queue[k] == j;
    assert t.queue[k] == j;
    ExecAppend(Step, NewPool(numWorkers, jobQueueLen), acts, more);
    EachJobInOnePlace(numWorkers, jobQueueLen, acts + more, t, j);
    assert j in t.accepted;
  }
}
