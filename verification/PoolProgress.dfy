/** Release always comes to an end: no state with a pending Release is stuck, and every
    step of the pool lowers a measure, so with finitely many send calls the pool takes
    finitely many steps. */
module PoolProgress {
  import opened Prelude
  import opened Runs
  import opened Pool
  import opened PoolInvariants
  import opened PoolTheorems

  /** The steps of calls already made: everything except a new call. */
  ghost predicate Internal(a: Action) {
    !a.CallPlain? && !a.CallTimed? && !a.CallRelease?
  }

  // ---------- the measure ----------

  ghost function WorkerWeight(pc: WorkerPc): nat {
    match pc
    case Running(_) => 4
    case Pushing => 3
    case Selecting => 2
    case Replying => 1
    case Stopped => 0
  }

  ghost function WorkersWeight(ws: seq<WorkerPc>): nat {
    if ws == [] then 0 else WorkersWeight(ws[..|ws| - 1]) + WorkerWeight(ws[|ws| - 1])
  }

  lemma {:induction false} WorkersWeightUpdate(ws: seq<WorkerPc>, w: nat, pc: WorkerPc)
    requires w < |ws|
    ensures WorkersWeight(ws[w := pc]) == WorkersWeight(ws) - WorkerWeight(ws[w]) + WorkerWeight(pc)
  {
    var last := |ws| - 1;
    if w == last {
      assert ws[w := pc][..last] == ws[..last];
    } else {
      assert ws[w := pc][..last] == ws[..last][w := pc];
      WorkersWeightUpdate(ws[..last], w, pc);
    }
  }

  ghost function DispatcherWeight(d: DispatcherPc, n: nat): nat {
    match d
    case AtSelect => 3 * n + 3
    case NeedWorker(_) => 3 * n + 8
    case Sending(_, _) => 3 * n + 7
    case StopTake(i) => if i < n then 2 + 3 * (n - i) else 2
    case StopSignal(i, _) => if i < n then 1 + 3 * (n - i) else 0
    case StopAwait(i, _) => if i < n then 3 * (n - i) else 0
    case StopReply => 1
    case Exited => 0
  }

  ghost function CallsWeight(calls: map<Job, CallPc>): nat {
    8 * |At(calls, PlainEntered)| + 7 * |At(calls, PlainAdded)| + 8 * |At(calls, TimedEntered)| + |At(calls, TimedSent)|
  }

  ghost function Measure(s: State): nat {
    CallsWeight(s.calls) + 6 * |s.queue| + WorkersWeight(s.workers) + DispatcherWeight(s.dispatcher, |s.workers|)
  }

  lemma MeasureDrops(s: State, a: Action)
    requires Inv(s) && Internal(a) && Step(s, a).Some?
    ensures Measure(Step(s, a).value) < Measure(s)
  {
    if a.WorkerPush? || a.WorkerFinish? || a.Deliver? || a.SignalWorker? || a.AckWorker? {
      WorkerStepLowers(s, a);
    } else {
      OtherStepLowers(s, a);
    }
  }

  lemma OtherStepLowers(s: State, a: Action)
    requires PhaseInv(s) && Internal(a) && Step(s, a).Some?
    requires !a.WorkerPush? && !a.WorkerFinish? && !a.Deliver? && !a.SignalWorker? && !a.AckWorker?
    ensures Measure(Step(s, a).value) < Measure(s)
  {
    match a
    case PlainAdd(j) => CallLowers(s, j, Step(s, a).value.calls[j]);
    case PlainSend(j) => CallLowers(s, j, ReturnedTrue);
    case TimedSend(j) => CallLowers(s, j, TimedSent);
    case TimedAdd(j) => CallLowers(s, j, Step(s, a).value.calls[j]);
    case TimedExpire(j) => CallLowers(s, j, ReturnedFalse);
    case _ =>
  }

  lemma WorkerStepLowers(s: State, a: Action)
    requires PhaseInv(s) && Step(s, a).Some?
    requires a.WorkerPush? || a.WorkerFinish? || a.Deliver? || a.SignalWorker? || a.AckWorker?
    ensures Measure(Step(s, a).value) < Measure(s)
  {
    match a
    case WorkerPush(w) => WorkersWeightUpdate(s.workers, w, Selecting);
    case WorkerFinish(w, _) => WorkersWeightUpdate(s.workers, w, Pushing);
    case Deliver => WorkersWeightUpdate(s.workers, s.dispatcher.worker, Running(s.dispatcher.job));
    case SignalWorker => WorkersWeightUpdate(s.workers, s.dispatcher.worker, Replying);
    case AckWorker => WorkersWeightUpdate(s.workers, s.dispatcher.worker, Stopped);
  }

  ghost function CallWeight(pc: CallPc): nat {
    match pc
    case PlainEntered => 8
    case PlainAdded => 7
    case TimedEntered => 8
    case TimedSent => 1
    case _ => 0
  }

  lemma CallLowers(s: State, j: Job, to: CallPc)
    requires j in s.calls && s.calls[j] != to
    ensures CallsWeight(s.calls[j := to]) == CallsWeight(s.calls) - CallWeight(s.calls[j]) + CallWeight(to)
  {
    Moved(s, j, to);
    assert forall v :: j in At(s.calls, v) <==> v == s.calls[j];
  }

  // ---------- no pending Release is stuck ----------

  ghost predicate Pending(s: State) {
    s.release == ReleaseSending || s.release == ReleaseAwaiting
  }

  ghost predicate TouchesNoSend(s: State, t: State) {
    t.queue == s.queue && t.calls == s.calls && (t.release == s.release || t.release == ReleaseAwaiting || t.release == Released)
  }

  /** When the dispatcher waits for an idle worker, there is one, or some worker can
      take the step that brings it closer to the pool. */
  lemma WorkerSupply(s: State) returns (a: Action)
    requires Inv(s) && |s.halted| < |s.workers|
    requires s.dispatcher.NeedWorker? || (s.dispatcher.StopTake? && s.dispatcher.i < |s.workers|)
    ensures Internal(a) && Step(s, a).Some?
    ensures TouchesNoSend(s, Step(s, a).value)
  {
    if |s.idle| > 0 {
      a := if s.dispatcher.NeedWorker? then TakeWorker else TakeStopWorker;
    } else {
      Pigeonhole(s.halted, |s.workers|);
      var w: nat :| w < |s.workers| && w !in s.halted;
      a := if s.workers[w] == Pushing then WorkerPush(w) else WorkerFinish(w, false);
    }
  }

  lemma PendingReleaseCanStep(s: State) returns (a: Action)
    requires Inv(s) && Pending(s)
    ensures Internal(a) && Step(s, a).Some?
    ensures TouchesNoSend(s, Step(s, a).value)
  {
    match s.dispatcher
    case AtSelect => a := ReceiveStop;
    case NeedWorker(_) => a := WorkerSupply(s);
    case Sending(_, w) => assert Holds(s.dispatcher, w); a := Deliver;
    case StopTake(i) =>
      if i < |s.workers| { a := WorkerSupply(s); } else { a := EndStopLoop; }
    case StopSignal(_, w) => assert Holds(s.dispatcher, w); a := SignalWorker;
    case StopAwait(_, _) => a := AckWorker;
    case StopReply => a := ReplyRelease;
  }

  lemma InternalRunsAreShort(s: State, more: seq<Action>)
    requires Inv(s)
    requires forall i :: 0 <= i < |more| ==> Internal(more[i])
    ensures Exec(Step, s, more).Some? ==> |more| <= Measure(s)
  {
    EveryStepKeepsInv();
    forall u, a | Inv(u) && Internal(a) && Step(u, a).Some?
      ensures Measure(Step(u, a).value) < Measure(u)
    {
      MeasureDrops(u, a);
    }
    MeasureBoundsRun(Step, Inv, Internal, Measure, s, more);
  }

  /** From any reachable state, a run without new calls takes at most Measure(s) steps;
      if it started with Release pending and can go no further, Release has returned. */
  lemma ReleaseReturns(
    numWorkers: int, jobQueueLen: int, acts: seq<Action>, s: State, more: seq<Action>, t: State)
    requires Reaches(numWorkers, jobQueueLen, acts, s) && Pending(s)
    requires forall i :: 0 <= i < |more| ==> Internal(more[i])
    requires Exec(Step, s, more) == Some(t)
    ensures |more| <= Measure(s)
    ensures t.release == Released || exists a :: Internal(a) && Step(t, a).Some?
  {
    ReachableInv(numWorkers, jobQueueLen, acts, s);
    EveryStepKeepsInv();
    InternalRunsAreShort(s, more);
    InvariantHolds(Step, Inv, s, more);
    OnceCalled(s, more);
    if t.release != Released {
      var a := PendingReleaseCanStep(t);
    }
  }

  lemma {:induction false} OnceCalled(s: State, acts: seq<Action>)
    requires s.release != NotCalled
    ensures Exec(Step, s, acts).Some? ==> Exec(Step, s, acts).value.release != NotCalled
    decreases |acts|
  {
    if |acts| == 0 {
    } else if Step(s, acts[0]).Some? {
      OnceCalled(Step(s, acts[0]).value, acts[1..]);
    }
  }
}
