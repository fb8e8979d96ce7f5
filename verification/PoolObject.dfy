/** The pool as the objects of util/goroutine/grpool.go: channels and program points are
    fields that the goroutines update in place, one channel operation per method call.
    Every method is proved against Pool.Step. */
module PoolObject {
  import opened Prelude
  import opened Pool
  import opened PoolInvariants
  import opened PoolTheorems
  import opened PoolProgress

  /** The operation that dispatch performs next; its select has two cases. */
  function NextDispatch(d: DispatcherPc, workers: nat, takeStop: bool): Action {
    match d
    case AtSelect => if takeStop then ReceiveStop else TakeJob
    case NeedWorker(_) => TakeWorker
    case Sending(_, _) => Deliver
    case StopTake(i) => if i < workers then TakeStopWorker else EndStopLoop
    case StopSignal(_, _) => SignalWorker
    case StopAwait(_, _) => AckWorker
    case StopReply => ReplyRelease
    case Exited => ReplyRelease
  }

  ghost predicate AwaitsWorker(s: State) {
    s.dispatcher.NeedWorker? || (s.dispatcher.StopTake? && s.dispatcher.i < |s.workers|)
  }

  lemma SomeWorkerMoves(s: State)
    requires Inv(s) && AwaitsWorker(s) && |s.idle| == 0
    ensures exists w :: 0 <= w < |s.workers| && (s.workers[w] == Pushing || s.workers[w].Running?)
  {
    Pigeonhole(s.halted, |s.workers|);
    var w: nat :| w < |s.workers| && w !in s.halted;
    assert s.workers[w] == Pushing || s.workers[w].Running?;
  }

  /** Something is left to do: a pending Release, or jobs to hand out. */
  ghost predicate HasWork(s: State, stopFirst: bool) {
    Pending(s) || (s.release == NotCalled && !stopFirst && (s.queue != [] || s.dispatcher != AtSelect))
  }

  /** What one step towards the end of a pending Release, or of a job, keeps and changes. */
  ghost predicate Served(s: State, t: State, stopFirst: bool) {
    && (t.release == s.release ||
        (s.release == ReleaseSending && t.release == ReleaseAwaiting && (stopFirst || s.queue == [])) ||
        (s.release == ReleaseAwaiting && t.release == Released))
    && |t.workers| == |s.workers| && t.accepted == s.accepted && t.calls == s.calls
    && (stopFirst || s.release == ReleaseAwaiting ==> t.queue == s.queue)
    && (t.queue == s.queue || (s.queue != [] && t.queue == s.queue[1..]))
  }

  ghost predicate Serves(s: State, a: Action, stopFirst: bool) {
    if AwaitsWorker(s) && |s.idle| == 0 then
      (a.WorkerPush? || a.WorkerFinish?) && a.worker < |s.workers| &&
      a == if s.workers[a.worker] == Pushing then WorkerPush(a.worker) else WorkerFinish(a.worker, false)
    else a == NextDispatch(s.dispatcher, |s.workers|, stopFirst || |s.queue| == 0)
  }

  lemma ServeSteps(s: State, a: Action, stopFirst: bool)
    requires Inv(s) && HasWork(s, stopFirst) && Serves(s, a, stopFirst)
    requires (a.WorkerPush? || a.WorkerFinish?) ==> s.workers[a.worker] == Pushing || s.workers[a.worker].Running?
    ensures Internal(a) && Step(s, a).Some?
    ensures Served(s, Step(s, a).value, stopFirst)
  {
    if s.dispatcher.Sending? || s.dispatcher.StopSignal? {
      assert Holds(s.dispatcher, s.dispatcher.worker);
    }
  }

  /** The steps of a send call other than its send, and what they add to the counter wg. */
  predicate MayMove(calls: map<Job, CallPc>, wg: int, j: Job, pc: CallPc, added: nat) {
    if j !in calls then (pc == PlainEntered || pc == TimedEntered) && added == 0
    else if calls[j] == TimedEntered then pc == ReturnedFalse && added == 0
    else if calls[j] == PlainEntered then pc == AfterAdd(wg, PlainAdded, PlainPanicked) && added == 1
    else calls[j] == TimedSent && pc == AfterAdd(wg, ReturnedTrue, TimedPanicked) && added == 1
  }

  function AfterAdd(wg: int, added: CallPc, panicked: CallPc): CallPc {
    if wg + 1 < 0 then panicked else added
  }

  predicate MaySend(calls: map<Job, CallPc>, j: Job, pc: CallPc) {
    && j in calls
    && ((calls[j] == PlainAdded && pc == ReturnedTrue) || (calls[j] == TimedEntered && pc == TimedSent))
  }

  ghost function MoveAction(j: Job, pc: CallPc): Action {
    match pc
    case PlainEntered => CallPlain(j)
    case TimedEntered => CallTimed(j)
    case PlainAdded => PlainAdd(j)
    case PlainPanicked => PlainAdd(j)
    case ReturnedFalse => TimedExpire(j)
    case _ => TimedAdd(j)
  }

  lemma MoveIsStep(s: State, j: Job, pc: CallPc, added: nat)
    requires MayMove(s.calls, s.wg, j, pc, added)
    ensures Step(s, MoveAction(j, pc)) == Some(s.(calls := s.calls[j := pc], wg := s.wg + added))
  {
  }

  lemma MoveKeepsInv(s: State, j: Job, pc: CallPc, added: nat)
    requires Inv(s) && MayMove(s.calls, s.wg, j, pc, added)
    ensures Inv(s.(calls := s.calls[j := pc], wg := s.wg + added))
  {
    MoveIsStep(s, j, pc, added);
    var a := MoveAction(j, pc);
    StepKeepsInv(s, a);
  }

  ghost predicate Finishes(s: State, t: State) {
    && |t.workers| == |s.workers| && t.queue == s.queue && t.dispatcher == s.dispatcher && t.release == s.release
    && t.calls == s.calls && t.accepted == s.accepted && t.delivered == s.delivered
  }

  lemma AllRun(s: State)
    requires Inv(s) && s.queue == [] && s.dispatcher == AtSelect && NoneRunning(s) && NoSendInProgress(s)
    ensures s.wg == |At(s.calls, PlainPanicked)| && s.finished == Elements(s.accepted)
    ensures s.wg == 0 <==> forall j :: j in s.calls ==> s.calls[j] != PlainPanicked
  {
    CounterWhenIdle(s);
    assert s.accepted == s.delivered;
    NoneAt(s.calls, PlainPanicked);
  }

  lemma NoneAt(calls: map<Job, CallPc>, pc: CallPc)
    ensures |At(calls, pc)| == 0 <==> forall j :: j in calls ==> calls[j] != pc
  {
    if forall j :: j in calls ==> calls[j] != pc {
      assert At(calls, pc) == {};
    } else {
      var j :| j in calls && calls[j] == pc;
      assert j in At(calls, pc);
    }
  }

  class GoroutinePool {
    const queueLen: nat
    var jobQueue: seq<Job>
    var workerPool: seq<nat>
    var workers: seq<WorkerPc>
    var dispatcher: DispatcherPc
    var release: ReleasePc
    var calls: map<Job, CallPc>
    var wg: int
    ghost var accepted: seq<Job>
    ghost var delivered: seq<Job>
    ghost var finished: set<Job>
    ghost var halted: seq<nat>

    ghost function Abstract(): State
      reads this
    {
      State(queueLen, workers, workerPool, jobQueue, dispatcher, release, calls, wg,
            accepted, delivered, finished, halted)
    }

    ghost predicate Valid()
      reads this
    {
      Inv(Abstract())
    }

    /** The new state is the one that Step gives for a, and the call reports whether the
        operation could be performed. */
    twostate predicate Performed(a: Action, done: bool)
      reads this
    {
      var next := Step(old(Abstract()), a);
      done == next.Some? && Abstract() == if done then next.value else old(Abstract())
    }

    constructor (numWorkers: int, jobQueueLen: int)
      ensures Valid() && Abstract() == NewPool(numWorkers, jobQueueLen)
      ensures queueLen == if jobQueueLen > 0 then jobQueueLen else 5
      ensures |workers| == if numWorkers > 0 then numWorkers else 2
    {
      var count := WorkerCount(numWorkers);
      var started: seq<WorkerPc> := [];
      for i := 0 to count
        invariant started == seq(i, _ => Pushing)
      {
        started := started + [Pushing];
      }
      queueLen := QueueLength(jobQueueLen);
      jobQueue, workerPool, workers := [], [], started;
      dispatcher, release, calls, wg := AtSelect, NotCalled, map[], 0;
      accepted, delivered, finished, halted := [], [], {}, [];
      new;
      InitialInv(numWorkers, jobQueueLen);
    }

    /** worker.start between its receives: push into the pool, or run the job to its end. */
    method WorkerLoop(w: nat, panicked: bool) returns (done: bool)
      requires w < |workers|
      requires workers[w] == Pushing || workers[w].Running?
      modifies this
      ensures Performed(if old(workers[w]) == Pushing then WorkerPush(w) else WorkerFinish(w, panicked), done)
    {
      match workers[w]
      case Pushing =>
        done := |workerPool| < |workers|;
        if done {
          workerPool := workerPool + [w];
          workers := workers[w := Selecting];
        }
      case Running(job) =>
        wg := wg - 1;
        finished := finished + {job};
        workers := workers[w := Pushing];
        done := true;
    }

    /** One operation of dispatch while it hands out jobs. */
    method Dispatch(takeStop: bool) returns (done: bool)
      requires dispatcher.AtSelect? || dispatcher.NeedWorker? || dispatcher.Sending?
      modifies this
      ensures Performed(NextDispatch(old(dispatcher), |old(workers)|, takeStop), done)
    {
      done := false;
      match dispatcher
      case AtSelect =>
        if takeStop {
          if release == ReleaseSending {
            dispatcher, release, done := StopTake(0), ReleaseAwaiting, true;
          }
        } else if |jobQueue| > 0 {
          dispatcher, jobQueue, done := NeedWorker(jobQueue[0]), jobQueue[1..], true;
        }
      case NeedWorker(job) =>
        if |workerPool| > 0 {
          dispatcher, workerPool, done := Sending(job, workerPool[0]), workerPool[1..], true;
        }
      case Sending(job, w) =>
        if WorkerReady(w, Selecting) {
          delivered := delivered + [job];
          workers, dispatcher, done := workers[w := Running(job)], AtSelect, true;
        }
    }

    /** One operation of dispatch once it has received stop. */
    method StopWorkers() returns (done: bool)
      requires dispatcher.StopTake? || dispatcher.StopSignal? || dispatcher.StopAwait? || dispatcher.StopReply?
      modifies this
      ensures Performed(NextDispatch(old(dispatcher), |old(workers)|, true), done)
    {
      done := false;
      match dispatcher
      case StopTake(i) =>
        if i >= |workers| {
          dispatcher, done := StopReply, true;
        } else if |workerPool| > 0 {
          dispatcher, workerPool, done := StopSignal(i, workerPool[0]), workerPool[1..], true;
        }
      case StopSignal(i, w) =>
        if WorkerReady(w, Selecting) {
          workers, dispatcher, done := workers[w := Replying], StopAwait(i, w), true;
        }
      case StopAwait(i, w) =>
        if WorkerReady(w, Replying) {
          halted := halted + [w];
          workers, dispatcher, done := workers[w := Stopped], StopTake(i + 1), true;
        }
      case StopReply =>
        if release == ReleaseAwaiting {
          dispatcher, release, done := Exited, Released, true;
        }
    }

    predicate WorkerReady(w: nat, pc: WorkerPc)
      reads this
    {
      w < |workers| && workers[w] == pc
    }

    /** A worker that is not in the idle pool yet and can move, when one is awaited. */
    method FindBusy() returns (w: nat)
      requires Valid() && AwaitsWorker(Abstract()) && |workerPool| == 0
      ensures w < |workers| && (workers[w] == Pushing || workers[w].Running?)
    {
      SomeWorkerMoves(Abstract());
      w := 0;
      while workers[w] != Pushing && !workers[w].Running?
        invariant w < |workers|
        invariant forall v :: 0 <= v < w ==> workers[v] != Pushing && !workers[v].Running?
        decreases |workers| - w
      {
        w := w + 1;
      }
    }

    /** One step of whoever a Release or a sender waits for. */
    method Serve(stopFirst: bool)
      requires Valid() && HasWork(Abstract(), stopFirst)
      modifies this
      ensures Valid() && Measure(Abstract()) < old(Measure(Abstract()))
      ensures Served(old(Abstract()), Abstract(), stopFirst)
    {
      ghost var before := Abstract();
      ghost var step: Action;
      var done;
      if (dispatcher.NeedWorker? || (dispatcher.StopTake? && dispatcher.i < |workers|)) && |workerPool| == 0 {
        var w := FindBusy();
        step := if workers[w] == Pushing then WorkerPush(w) else WorkerFinish(w, false);
        done := WorkerLoop(w, false);
      } else if dispatcher.AtSelect? || dispatcher.NeedWorker? || dispatcher.Sending? {
        var takeStop := stopFirst || |jobQueue| == 0;
        step := NextDispatch(dispatcher, |workers|, takeStop);
        done := Dispatch(takeStop);
      } else {
        step := NextDispatch(dispatcher, |workers|, true);
        done := StopWorkers();
      }
      ServeSteps(before, step, stopFirst);
      StepKeepsInv(before, step);
      MeasureDrops(before, step);
    }

    /** SendJob, with the dispatcher and the workers running until there is room: it adds to
        the WaitGroup, and then its job is the next one accepted. Only if the counter is
        below zero even then does the Add panic, and the job is not sent. */
    method SendJob(j: Job) returns (sent: bool)
      requires Valid() && release == NotCalled && j !in calls
      modifies this
      ensures Valid() && release == NotCalled && sent == (old(wg) >= -1)
      ensures calls == old(calls)[j := if sent then ReturnedTrue else PlainPanicked]
      ensures accepted == if sent then old(accepted) + [j] else old(accepted)
      ensures !sent ==> wg == old(wg) + 1 && jobQueue == old(jobQueue)
    {
      Move(j, PlainEntered, 0);
      Move(j, AfterAdd(wg, PlainAdded, PlainPanicked), 1);
      sent := calls[j] == PlainAdded;
      if sent {
        Send(j, ReturnedTrue);
      }
    }

    /** SendJobWithTimeout and SendJobWithDeadline: the timer expires, and nothing is sent or
        added; or the job is the next one accepted, and the WaitGroup is added to after
        that, which panics if the counter is still below zero. */
    method SendJobTimed(j: Job, expires: bool) returns (sent: bool)
      requires Valid() && release == NotCalled && j !in calls
      modifies this
      ensures Valid() && release == NotCalled && sent == !expires
      ensures calls == old(calls)[j := if !sent then ReturnedFalse else if wg < 0 then TimedPanicked else ReturnedTrue]
      ensures accepted == if sent then old(accepted) + [j] else old(accepted)
      ensures !sent ==> wg == old(wg) && jobQueue == old(jobQueue)
    {
      Move(j, TimedEntered, 0);
      if expires {
        Move(j, ReturnedFalse, 0);
      } else {
        Send(j, TimedSent);
        Move(j, AfterAdd(wg, ReturnedTrue, TimedPanicked), 1);
      }
      sent := !expires;
    }

    /** A step of a send call that does not send. */
    method Move(j: Job, pc: CallPc, added: nat)
      requires Valid() && MayMove(calls, wg, j, pc, added)
      modifies this`calls, this`wg
      ensures Valid() && calls == old(calls)[j := pc] && wg == old(wg) + added
    {
      MoveKeepsInv(Abstract(), j, pc, added);
      calls, wg := calls[j := pc], wg + added;
    }

    /** The send on JobQueue blocks while the channel is full. */
    method Send(j: Job, pc: CallPc)
      requires Valid() && release == NotCalled && MaySend(calls, j, pc)
      modifies this
      ensures Valid() && release == NotCalled
      ensures calls == old(calls)[j := pc] && accepted == old(accepted) + [j]
    {
      AwaitRoom();
      StepKeepsInv(Abstract(), if pc == TimedSent then TimedSend(j) else PlainSend(j));
      jobQueue, calls, accepted := jobQueue + [j], calls[j := pc], accepted + [j];
    }

    method AwaitRoom()
      requires Valid() && release == NotCalled
      modifies this
      ensures Valid() && release == NotCalled && |jobQueue| < queueLen
      ensures calls == old(calls) && accepted == old(accepted)
    {
      while |jobQueue| >= queueLen
        invariant Valid() && release == NotCalled && calls == old(calls) && accepted == old(accepted)
        decreases Measure(Abstract())
      {
        Serve(false);
      }
    }

    /** WaitAll, with the dispatcher and the workers running and no send in progress: it
        returns, the counter at zero, unless some SendJob call panicked; every accepted job
        has finished. */
    method WaitAll() returns (returned: bool)
      requires Valid() && release == NotCalled && NoSendInProgress(Abstract())
      modifies this
      ensures Valid() && release == NotCalled && jobQueue == [] && wg == |At(calls, PlainPanicked)|
      ensures returned <==> forall j :: j in calls ==> calls[j] != PlainPanicked
      ensures calls == old(calls) && accepted == old(accepted) && finished == Elements(accepted)
    {
      while |jobQueue| > 0 || dispatcher != AtSelect
        invariant Valid() && release == NotCalled && calls == old(calls) && accepted == old(accepted)
        decreases Measure(Abstract())
      {
        Serve(false);
      }
      FinishJobs();
      AllRun(Abstract());
      returned := wg == 0;
    }

    /** The end of a job, with the deferred JobDone. */
    method FinishJob(w: nat)
      requires Valid() && w < |workers| && workers[w].Running?
      modifies this
      ensures Valid() && Finishes(old(Abstract()), Abstract())
      ensures workers == old(workers)[w := Pushing]
    {
      ghost var before := Abstract();
      var _ := WorkerLoop(w, false);
      StepKeepsInv(before, WorkerFinish(w, false));
    }

    /** Every worker that runs a job brings it to its end. */
    method FinishJobs()
      requires Valid() && jobQueue == [] && dispatcher == AtSelect
      modifies this
      ensures Valid() && Finishes(old(Abstract()), Abstract()) && NoneRunning(Abstract())
    {
      var w := 0;
      while w < |workers|
        invariant w <= |workers| && Valid() && Finishes(old(Abstract()), Abstract())
        invariant forall v :: 0 <= v < w ==> !workers[v].Running?
      {
        if workers[w].Running? {
          FinishJob(w);
        }
        w := w + 1;
      }
    }

    /** Release, with the other goroutines running until it returns. A pending Release comes
        back after finitely many steps; then every worker has stopped and the dispatcher
        has exited. The jobs still queued when dispatch first finds both a job and the
        stop signal stay there if it takes the signal, and are all run if it takes the
        jobs first; every other accepted job has finished, and the counter is the
        number of the jobs left, corrected by the send calls that panicked or are between
        their operations. */
    method FinishRelease(stopFirst: bool)
      requires Valid() && Pending(Abstract())
      modifies this
      ensures Valid() && release == Released && dispatcher == Exited
      ensures |workers| == old(|workers|) && forall w :: 0 <= w < |workers| ==> workers[w] == Stopped
      ensures jobQueue == if stopFirst || old(release) == ReleaseAwaiting then old(jobQueue) else []
      ensures accepted == old(accepted) && calls == old(calls)
      ensures forall j :: j in accepted ==> (j in finished <==> j !in jobQueue)
      ensures wg == |jobQueue| + |At(calls, PlainPanicked)| + |At(calls, PlainAdded)| - |At(calls, TimedSent)|
    {
      while release != Released
        invariant Valid() && (Pending(Abstract()) || release == Released)
        invariant old(release) == ReleaseAwaiting ==> release != ReleaseSending
        invariant |workers| == old(|workers|) && accepted == old(accepted) && calls == old(calls)
        invariant stopFirst || old(release) == ReleaseAwaiting ==> jobQueue == old(jobQueue)
        invariant !stopFirst && old(release) == ReleaseSending && release != ReleaseSending ==> jobQueue == []
        decreases Measure(Abstract())
      {
        Serve(stopFirst);
      }
      WhenReleased(Abstract());
      CounterWhenReleased(Abstract());
    }
  }
}
