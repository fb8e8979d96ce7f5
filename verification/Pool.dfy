/** The goroutine pool of util/goroutine/grpool.go as a transition system.

    Every channel operation, WaitGroup operation and end of a job is one step; a
    rendezvous on an unbuffered channel is one step of both parties. There are n
    workers, one dispatcher, at most one caller of Release, and any number of
    concurrent calls of SendJob, SendJobWithTimeout and SendJobWithDeadline. */
module Pool {
  import opened Prelude

  /** One number per send call: wrapJob makes a new closure on every call. */
  type Job = nat

  /** Where a worker goroutine stands in worker.start. */
  datatype WorkerPc =
    | Pushing            // before workerPool <- w
    | Selecting          // in the select over jobChannel and stop
    | Running(job: Job)  // inside runJob
    | Replying           // took the stop signal, before w.stop <- struct{}{}
    | Stopped

  /** Where the dispatcher goroutine stands in dispatch; i counts the stop loop. */
  datatype DispatcherPc =
    | AtSelect
    | NeedWorker(job: Job)
    | Sending(job: Job, worker: nat)
    | StopTake(i: nat)
    | StopSignal(i: nat, worker: nat)
    | StopAwait(i: nat, worker: nat)
    | StopReply
    | Exited

  datatype ReleasePc = NotCalled | ReleaseSending | ReleaseAwaiting | Released

  /** Where a send call stands. SendJob adds to the WaitGroup before it sends;
      the timed calls send first and add afterwards. An Add that leaves the counter below
      zero panics in the caller, after the addition: SendJob then never sends its job. */
  datatype CallPc =
    | PlainEntered | PlainAdded | PlainPanicked
    | TimedEntered | TimedSent | TimedPanicked
    | ReturnedTrue | ReturnedFalse

  datatype State = State(
    queueLen: nat,
    workers: seq<WorkerPc>,
    idle: seq<nat>,            // the workerPool channel, capacity |workers|
    queue: seq<Job>,           // the JobQueue channel, capacity queueLen
    dispatcher: DispatcherPc,
    release: ReleasePc,
    calls: map<Job, CallPc>,
    wg: int,                   // the WaitGroup counter
    // history
    accepted: seq<Job>,        // jobs in the order they entered JobQueue
    delivered: seq<Job>,       // jobs in the order workers received them
    finished: set<Job>,        // jobs whose deferred JobDone has run
    halted: seq<nat>)          // workers in the order they acknowledged stop

  datatype Action =
    | CallPlain(job: Job)
    | CallTimed(job: Job)
    | PlainAdd(job: Job)
    | PlainSend(job: Job)
    | TimedSend(job: Job)
    | TimedAdd(job: Job)
    | TimedExpire(job: Job)
    | CallRelease
    | WorkerPush(worker: nat)
    | WorkerFinish(worker: nat, panicked: bool)
    | TakeJob
    | TakeWorker
    | Deliver
    | ReceiveStop
    | TakeStopWorker
    | SignalWorker
    | AckWorker
    | EndStopLoop
    | ReplyRelease

  function WorkerCount(numWorkers: int): (n: nat)
    ensures n > 0 && (numWorkers > 0 ==> n == numWorkers) && (numWorkers <= 0 ==> n == 2)
  {
    if numWorkers <= 0 then 2 else numWorkers
  }

  function QueueLength(jobQueueLen: int): (n: nat)
    ensures n > 0 && (jobQueueLen > 0 ==> n == jobQueueLen) && (jobQueueLen <= 0 ==> n == 5)
  {
    if jobQueueLen <= 0 then 5 else jobQueueLen
  }

  function NewPool(numWorkers: int, jobQueueLen: int): State {
    State(QueueLength(jobQueueLen), seq(WorkerCount(numWorkers), _ => Pushing), [], [],
          AtSelect, NotCalled, map[], 0, [], [], {}, [])
  }

  predicate CallAt(s: State, j: Job, pc: CallPc) {
    j in s.calls && s.calls[j] == pc
  }

  predicate WorkerAt(s: State, w: nat, pc: WorkerPc) {
    w < |s.workers| && s.workers[w] == pc
  }

  function Step(s: State, a: Action): Option<State> {
    match a
    case CallPlain(j) =>
      if j in s.calls then None else Some(s.(calls := s.calls[j := PlainEntered]))
    case CallTimed(j) =>
      if j in s.calls then None else Some(s.(calls := s.calls[j := TimedEntered]))
    case PlainAdd(j) =>
      if !CallAt(s, j, PlainEntered) then None
      else Some(s.(calls := s.calls[j := if s.wg + 1 < 0 then PlainPanicked else PlainAdded], wg := s.wg + 1))
    case PlainSend(j) =>
      if !CallAt(s, j, PlainAdded) || |s.queue| >= s.queueLen then None
      else Some(s.(calls := s.calls[j := ReturnedTrue], queue := s.queue + [j], accepted := s.accepted + [j]))
    case TimedSend(j) =>
      if !CallAt(s, j, TimedEntered) || |s.queue| >= s.queueLen then None
      else Some(s.(calls := s.calls[j := TimedSent], queue := s.queue + [j], accepted := s.accepted + [j]))
    case TimedAdd(j) =>
      if !CallAt(s, j, TimedSent) then None
      else Some(s.(calls := s.calls[j := if s.wg + 1 < 0 then TimedPanicked else ReturnedTrue], wg := s.wg + 1))
    case TimedExpire(j) =>
      if !CallAt(s, j, TimedEntered) then None
      else Some(s.(calls := s.calls[j := ReturnedFalse]))
    case CallRelease =>
      if s.release != NotCalled then None else Some(s.(release := ReleaseSending))
    case WorkerPush(w) =>
      if !WorkerAt(s, w, Pushing) || |s.idle| >= |s.workers| then None
      else Some(s.(workers := s.workers[w := Selecting], idle := s.idle + [w]))
    case WorkerFinish(w, _) =>
      // wrapJob's deferred JobDone runs and runJob recovers, whether or not the job panicked;
      // a Done below zero has already lowered the counter when it panics, and is recovered too
      if w >= |s.workers| || !s.workers[w].Running? then None
      else Some(s.(workers := s.workers[w := Pushing], wg := s.wg - 1, finished := s.finished + {s.workers[w].job}))
    case TakeJob =>
      if s.dispatcher != AtSelect || |s.queue| == 0 then None
      else Some(s.(dispatcher := NeedWorker(s.queue[0]), queue := s.queue[1..]))
    case TakeWorker =>
      if !s.dispatcher.NeedWorker? || |s.idle| == 0 then None
      else Some(s.(dispatcher := Sending(s.dispatcher.job, s.idle[0]), idle := s.idle[1..]))
    case Deliver =>
      if !s.dispatcher.Sending? || !WorkerAt(s, s.dispatcher.worker, Selecting) then None
      else Some(s.(dispatcher := AtSelect, delivered := s.delivered + [s.dispatcher.job],
                   workers := s.workers[s.dispatcher.worker := Running(s.dispatcher.job)]))
    case ReceiveStop =>
      if s.dispatcher != AtSelect || s.release != ReleaseSending then None
      else Some(s.(dispatcher := StopTake(0), release := ReleaseAwaiting))
    case TakeStopWorker =>
      if !s.dispatcher.StopTake? || s.dispatcher.i >= |s.workers| || |s.idle| == 0 then None
      else Some(s.(dispatcher := StopSignal(s.dispatcher.i, s.idle[0]), idle := s.idle[1..]))
    case SignalWorker =>
      if !s.dispatcher.StopSignal? || !WorkerAt(s, s.dispatcher.worker, Selecting) then None
      else Some(s.(dispatcher := StopAwait(s.dispatcher.i, s.dispatcher.worker),
                   workers := s.workers[s.dispatcher.worker := Replying]))
    case AckWorker =>
      if !s.dispatcher.StopAwait? || !WorkerAt(s, s.dispatcher.worker, Replying) then None
      else Some(s.(dispatcher := StopTake(s.dispatcher.i + 1), halted := s.halted + [s.dispatcher.worker],
                   workers := s.workers[s.dispatcher.worker := Stopped]))
    case EndStopLoop =>
      if !s.dispatcher.StopTake? || s.dispatcher.i < |s.workers| then None
      else Some(s.(dispatcher := StopReply))
    case ReplyRelease =>
      if s.dispatcher != StopReply || s.release != ReleaseAwaiting then None
      else Some(s.(dispatcher := Exited, release := Released))
  }
}
