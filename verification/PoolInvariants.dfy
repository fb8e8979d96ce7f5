/** What every step of the pool keeps. */
module PoolInvariants {
  import opened Prelude
  import opened Pool

  /** The worker that the dispatcher took from the idle pool and holds. */
  ghost predicate Holds(d: DispatcherPc, w: nat) {
    (d.Sending? || d.StopSignal?) && d.worker == w
  }

  /** The number of workers the stop loop has finished with. */
  ghost function Progress(s: State): nat {
    match s.dispatcher
    case StopTake(i) => i
    case StopSignal(i, _) => i
    case StopAwait(i, _) => i
    case StopReply => |s.workers|
    case Exited => |s.workers|
    case _ => 0
  }

  ghost predicate PhaseInv(s: State) {
    && |s.workers| > 0 && s.queueLen > 0
    && (s.dispatcher.StopSignal? || s.dispatcher.StopAwait? ==> s.dispatcher.i < |s.workers|)
    && Progress(s) <= |s.workers|
    && match s.release
       case NotCalled => s.dispatcher.AtSelect? || s.dispatcher.NeedWorker? || s.dispatcher.Sending?
       case ReleaseSending => s.dispatcher.AtSelect? || s.dispatcher.NeedWorker? || s.dispatcher.Sending?
       case ReleaseAwaiting =>
         s.dispatcher.StopTake? || s.dispatcher.StopSignal? || s.dispatcher.StopAwait? || s.dispatcher.StopReply?
       case Released => s.dispatcher.Exited?
  }

  ghost predicate WorkersInv(s: State) {
    && Distinct(s.idle) && Distinct(s.halted)
    && |s.halted| == Progress(s)
    && (forall w :: w in s.idle ==> w < |s.workers| && s.workers[w] == Selecting && !Holds(s.dispatcher, w))
    && (forall w: nat :: Holds(s.dispatcher, w) ==> w < |s.workers| && s.workers[w] == Selecting)
    && (forall w :: 0 <= w < |s.workers| && s.workers[w] == Selecting ==> w in s.idle || Holds(s.dispatcher, w))
    && (forall w :: 0 <= w < |s.workers| && s.workers[w] == Replying ==>
          s.dispatcher.StopAwait? && s.dispatcher.worker == w)
    && (s.dispatcher.StopAwait? ==> WorkerAt(s, s.dispatcher.worker, Replying))
    && (forall w :: w in s.halted ==> w < |s.workers|)
    && (forall w :: 0 <= w < |s.workers| ==> (s.workers[w] == Stopped <==> w in s.halted))
  }

  /** The job that the dispatcher took from the queue and holds. */
  ghost function Hand(d: DispatcherPc): seq<Job> {
    if d.NeedWorker? || d.Sending? then [d.job] else []
  }

  /** The call has sent its job. */
  ghost predicate Sent(s: State, j: Job) {
    CallAt(s, j, TimedSent) || CallAt(s, j, ReturnedTrue) || CallAt(s, j, TimedPanicked)
  }

  ghost predicate QueueInv(s: State) {
    && |s.queue| <= s.queueLen
    && Distinct(s.accepted)
    && s.accepted == s.delivered + Hand(s.dispatcher) + s.queue
    && (forall j :: j in s.accepted <==> Sent(s, j))
  }

  ghost predicate RunningInv(s: State) {
    && (forall w :: 0 <= w < |s.workers| && s.workers[w].Running? ==>
          s.workers[w].job in s.delivered && s.workers[w].job !in s.finished)
    && (forall v, w :: 0 <= v < w < |s.workers| && s.workers[v].Running? && s.workers[w].Running? ==>
          s.workers[v].job != s.workers[w].job)
    && (forall j :: j in s.finished ==> j in s.delivered)
    && (forall j :: j in s.delivered && j !in s.finished ==>
          exists w :: 0 <= w < |s.workers| && s.workers[w] == Running(j))
  }

  /** The WaitGroup counter, accounted for exactly. */
  ghost predicate AccountInv(s: State) {
    s.wg == |At(s.calls, PlainAdded)| + |At(s.calls, PlainPanicked)| + (|s.accepted| - |s.finished|)
            - |At(s.calls, TimedSent)|
  }

  ghost predicate Inv(s: State) {
    PhaseInv(s) && WorkersInv(s) && QueueInv(s) && RunningInv(s) && AccountInv(s)
  }

  lemma InitialInv(numWorkers: int, jobQueueLen: int)
    ensures Inv(NewPool(numWorkers, jobQueueLen))
  {
    var s := NewPool(numWorkers, jobQueueLen);
    assert At(s.calls, PlainAdded) == {} && At(s.calls, PlainPanicked) == {} && At(s.calls, TimedSent) == {};
  }

  lemma WorkersStep(s: State, a: Action)
    requires PhaseInv(s) && WorkersInv(s) && Step(s, a).Some?
    ensures PhaseInv(Step(s, a).value) && WorkersInv(Step(s, a).value)
  {
    match a
    case WorkerPush(w) => PushKeeps(s, w);
    case WorkerFinish(w, panicked) => FinishKeeps(s, w, panicked);
    case TakeWorker => TakeKeeps(s);
    case Deliver => DeliverKeeps(s);
    case TakeStopWorker => TakeStopKeeps(s);
    case SignalWorker => SignalKeeps(s);
    case AckWorker => AckKeeps(s);
    case _ => OthersKeep(s, Step(s, a).value);
  }

  /** The actions that touch no worker and keep what the dispatcher holds. */
  lemma OthersKeep(s: State, t: State)
    requires WorkersInv(s)
    requires t.workers == s.workers && t.idle == s.idle && t.halted == s.halted
    requires Progress(t) == Progress(s)
    requires t.dispatcher == s.dispatcher ||
             (!s.dispatcher.Sending? && !s.dispatcher.StopSignal? && !s.dispatcher.StopAwait? &&
              !t.dispatcher.Sending? && !t.dispatcher.StopSignal? && !t.dispatcher.StopAwait?)
    ensures WorkersInv(t)
  {
  }

  lemma PushKeeps(s: State, w: nat)
    requires PhaseInv(s) && WorkersInv(s) && Step(s, WorkerPush(w)).Some?
    ensures WorkersInv(Step(s, WorkerPush(w)).value)
  {
    DistinctPush(s.idle, w);
  }

  lemma FinishKeeps(s: State, w: nat, panicked: bool)
    requires PhaseInv(s) && WorkersInv(s) && Step(s, WorkerFinish(w, panicked)).Some?
    ensures WorkersInv(Step(s, WorkerFinish(w, panicked)).value)
  {
  }

  lemma TakeKeeps(s: State)
    requires PhaseInv(s) && WorkersInv(s) && Step(s, TakeWorker).Some?
    ensures WorkersInv(Step(s, TakeWorker).value)
  {
    DistinctPop(s.idle);
  }

  lemma DeliverKeeps(s: State)
    requires PhaseInv(s) && WorkersInv(s) && Step(s, Deliver).Some?
    ensures WorkersInv(Step(s, Deliver).value)
  {
  }

  lemma TakeStopKeeps(s: State)
    requires PhaseInv(s) && WorkersInv(s) && Step(s, TakeStopWorker).Some?
    ensures WorkersInv(Step(s, TakeStopWorker).value)
  {
    DistinctPop(s.idle);
  }

  lemma SignalKeeps(s: State)
    requires PhaseInv(s) && WorkersInv(s) && Step(s, SignalWorker).Some?
    ensures WorkersInv(Step(s, SignalWorker).value)
  {
  }

  lemma AckKeeps(s: State)
    requires PhaseInv(s) && WorkersInv(s) && Step(s, AckWorker).Some?
    ensures WorkersInv(Step(s, AckWorker).value)
  {
    DistinctPush(s.halted, s.dispatcher.worker);
  }

  lemma QueueStep(s: State, a: Action)
    requires QueueInv(s) && Step(s, a).Some?
    ensures QueueInv(Step(s, a).value)
  {
    var t := Step(s, a).value;
    match a
    case PlainSend(j) => Accepts(s, t, j);
    case TimedSend(j) => Accepts(s, t, j);
    case TakeJob =>
      assert s.queue == [s.queue[0]] + s.queue[1..];
      assert t.accepted == t.delivered + Hand(t.dispatcher) + t.queue;
    case Deliver =>
      assert t.accepted == t.delivered + Hand(t.dispatcher) + t.queue;
    case _ => StepSendsNone(s, a); QueueUntouched(s, t);
  }

  lemma StepSendsNone(s: State, a: Action)
    requires Step(s, a).Some? && !a.PlainSend? && !a.TimedSend? && !a.TakeJob? && !a.Deliver?
    ensures var t := Step(s, a).value;
            && t.queue == s.queue && t.accepted == s.accepted && t.queueLen == s.queueLen
            && t.delivered == s.delivered && Hand(t.dispatcher) == Hand(s.dispatcher)
            && forall j :: Sent(s, j) <==> Sent(t, j)
  {
  }

  lemma Accepts(s: State, t: State, j: Job)
    requires QueueInv(s) && |s.queue| < s.queueLen == t.queueLen
    requires t.queue == s.queue + [j] && t.accepted == s.accepted + [j]
    requires t.delivered == s.delivered && t.dispatcher == s.dispatcher
    requires !Sent(s, j)
    requires t.calls == s.calls[j := TimedSent] || t.calls == s.calls[j := ReturnedTrue]
    ensures QueueInv(t)
  {
    DistinctPush(s.accepted, j);
    assert t.accepted == t.delivered + Hand(t.dispatcher) + t.queue;
  }

  lemma QueueUntouched(s: State, t: State)
    requires QueueInv(s)
    requires t.queue == s.queue && t.accepted == s.accepted && t.queueLen == s.queueLen
    requires t.delivered == s.delivered && Hand(t.dispatcher) == Hand(s.dispatcher)
    requires forall j :: Sent(s, j) <==> Sent(t, j)
    ensures QueueInv(t)
  {
  }

  lemma RunningStep(s: State, a: Action)
    requires QueueInv(s) && RunningInv(s) && Step(s, a).Some?
    ensures RunningInv(Step(s, a).value)
  {
    var t := Step(s, a).value;
    match a
    case Deliver => DeliverRuns(s);
    case _ => StillRunning(s, t);
  }

  lemma StillRunning(s: State, t: State)
    requires RunningInv(s) && |t.workers| == |s.workers|
    requires t.delivered == s.delivered
    requires forall w :: 0 <= w < |s.workers| && s.workers[w].Running? && t.workers[w] != s.workers[w] ==>
               t.finished == s.finished + {s.workers[w].job}
    requires t.finished == s.finished ||
             exists w :: 0 <= w < |s.workers| && s.workers[w].Running? && !t.workers[w].Running? &&
                         t.finished == s.finished + {s.workers[w].job}
    requires forall w :: 0 <= w < |s.workers| && t.workers[w].Running? ==> t.workers[w] == s.workers[w]
    ensures RunningInv(t)
  {
    forall j | j in t.delivered && j !in t.finished
      ensures exists w :: 0 <= w < |t.workers| && t.workers[w] == Running(j)
    {
      var w :| 0 <= w < |s.workers| && s.workers[w] == Running(j);
      assert t.workers[w] == Running(j);
    }
  }

  lemma DeliveredBeforeHand(s: State, job: Job)
    requires QueueInv(s) && job in s.delivered
    ensures exists i :: 0 <= i < |s.delivered| && s.accepted[i] == job
  {
    var i :| 0 <= i < |s.delivered| && s.delivered[i] == job;
    assert s.accepted[i] == job;
  }

  lemma DeliverRuns(s: State)
    requires QueueInv(s) && RunningInv(s) && Step(s, Deliver).Some?
    ensures RunningInv(Step(s, Deliver).value)
  {
    var t := Step(s, Deliver).value;
    var job, at := s.dispatcher.job, s.dispatcher.worker;
    // the job in hand stands in accepted right after the delivered ones
    assert s.accepted[|s.delivered|] == job;
    assert job !in s.delivered by {
      if job in s.delivered {
        DeliveredBeforeHand(s, job);
      }
    }
    forall j | j in t.delivered && j !in t.finished
      ensures exists w :: 0 <= w < |t.workers| && t.workers[w] == Running(j)
    {
      if j == job {
        assert t.workers[at] == Running(j);
      } else {
        var w :| 0 <= w < |s.workers| && s.workers[w] == Running(j);
        assert t.workers[w] == Running(j);
      }
    }
  }

  lemma AccountStep(s: State, a: Action)
    requires AccountInv(s) && RunningInv(s) && Step(s, a).Some?
    ensures AccountInv(Step(s, a).value)
  {
    var t := Step(s, a).value;
    match a
    case CallPlain(j) => CallAccounted(s, t, j, PlainEntered);
    case CallTimed(j) => CallAccounted(s, t, j, TimedEntered);
    case PlainAdd(j) => CallAccounted(s, t, j, t.calls[j]);
    case PlainSend(j) => CallAccounted(s, t, j, ReturnedTrue);
    case TimedSend(j) => CallAccounted(s, t, j, TimedSent);
    case TimedAdd(j) => CallAccounted(s, t, j, t.calls[j]);
    case TimedExpire(j) => CallAccounted(s, t, j, ReturnedFalse);
    case WorkerFinish(w, _) => assert s.workers[w].job !in s.finished;
    case _ =>
  }

  function Count(b: bool): nat { if b then 1 else 0 }

  /** A step of a send call moves the counter by exactly what its account moves. */
  lemma CallAccounted(s: State, t: State, j: Job, to: CallPc)
    requires AccountInv(s) && !CallAt(s, j, to) && t.calls == s.calls[j := to] && t.finished == s.finished
    requires t.wg - s.wg == Count(to == PlainAdded) - Count(CallAt(s, j, PlainAdded))
                            + Count(to == PlainPanicked) - Count(CallAt(s, j, PlainPanicked)) + |t.accepted| - |s.accepted|
                            - Count(to == TimedSent) + Count(CallAt(s, j, TimedSent))
    ensures AccountInv(t)
  {
    Moved(s, j, to);
  }

  lemma Moved(s: State, j: Job, to: CallPc)
    ensures forall v :: |At(s.calls[j := to], v)| ==
                        |At(s.calls, v)| + (if to == v && j !in At(s.calls, v) then 1 else 0)
                                         - (if to != v && j in At(s.calls, v) then 1 else 0)
  {
    forall v ensures |At(s.calls[j := to], v)| ==
                     |At(s.calls, v)| + (if to == v && j !in At(s.calls, v) then 1 else 0)
                                      - (if to != v && j in At(s.calls, v) then 1 else 0)
    {
      AtUpdate(s.calls, j, to, v);
    }
  }

  lemma StepKeepsInv(s: State, a: Action)
    requires Inv(s) && Step(s, a).Some?
    ensures Inv(Step(s, a).value)
  {
    WorkersStep(s, a);
    QueueStep(s, a);
    RunningStep(s, a);
    AccountStep(s, a);
  }
}
