/** When Release can leave a job behind: exactly when, at the time of the call, the queue
    is not empty or some send call has not sent yet. So waiting for all jobs before the
    release, and not after it as appShutdown does, loses none. */
module PoolShutdown {
  import opened Prelude
  import opened Runs
  import opened Pool
  import opened PoolInvariants
  import opened PoolTheorems
  import opened PoolProgress

  /** Every send call made so far has come to its end. */
  ghost predicate SendersDone(s: State) {
    forall j :: j in s.calls ==>
      s.calls[j] == ReturnedTrue || s.calls[j] == ReturnedFalse || s.calls[j] == PlainPanicked ||
      s.calls[j] == TimedPanicked
  }

  /** A call that may still send its job. */
  ghost predicate Unsent(s: State, j: Job) {
    CallAt(s, j, PlainEntered) || CallAt(s, j, PlainAdded) || CallAt(s, j, TimedEntered)
  }

  /** Every send call made so far has sent its job or given up. */
  ghost predicate AllSent(s: State) {
    forall j :: j in s.calls ==>
      s.calls[j] != PlainEntered && s.calls[j] != PlainAdded && s.calls[j] != TimedEntered
  }

  ghost predicate NoNewSends(acts: seq<Action>) {
    forall i :: 0 <= i < |acts| ==> !acts[i].CallPlain? && !acts[i].CallTimed?
  }

  lemma {:induction false} QueueOnlyShrinks(s: State, more: seq<Action>)
    requires AllSent(s) && NoNewSends(more)
    ensures Exec(Step, s, more).Some? ==>
              var t := Exec(Step, s, more).value;
              |t.queue| <= |s.queue| && (SendersDone(s) ==> t.calls == s.calls)
    decreases |more|
  {
    if |more| == 0 {
    } else if Step(s, more[0]).Some? {
      assert !more[0].CallPlain? && !more[0].CallTimed?;
      QueueOnlyShrinks(Step(s, more[0]).value, more[1..]);
    }
  }

  ghost predicate Leads(s: State, acts: seq<Action>, t: State) {
    Exec(Step, s, acts) == Some(t) && NoNewSends(acts) && t.queue == s.queue && t.calls == s.calls
  }

  lemma Prepend(s: State, a: Action, acts: seq<Action>, t: State)
    requires Step(s, a).Some? && !a.CallPlain? && !a.CallTimed?
    requires Step(s, a).value.queue == s.queue && Step(s, a).value.calls == s.calls
    requires Leads(Step(s, a).value, acts, t)
    ensures Leads(s, [a] + acts, t)
  {
    ExecCons(Step, s, a, acts);
  }

  /** The dispatcher has not taken the stop signal. */
  ghost predicate BeforeStop(s: State) {
    s.release == NotCalled || s.release == ReleaseSending
  }

  lemma HandMoves(s: State) returns (a: Action)
    requires Inv(s) && BeforeStop(s) && s.dispatcher != AtSelect
    ensures Internal(a) && Step(s, a).Some?
    ensures var t := Step(s, a).value; t.queue == s.queue && t.calls == s.calls && t.release == s.release
  {
    if s.dispatcher.NeedWorker? {
      a := WorkerSupply(s);
      assert !a.ReceiveStop? && !a.ReplyRelease?;
    } else {
      assert Holds(s.dispatcher, s.dispatcher.worker);
      a := Deliver;
    }
  }

  /** A pending Release can run to its end without taking another job. */
  lemma {:induction false} ReachReleased(s: State) returns (acts: seq<Action>, t: State)
    requires Inv(s) && Pending(s)
    ensures Leads(s, acts, t) && t.release == Released
    decreases Measure(s)
  {
    var a := PendingReleaseCanStep(s);
    StepKeepsInv(s, a);
    MeasureDrops(s, a);
    var u := Step(s, a).value;
    var rest: seq<Action> := [];
    t := u;
    if u.release != Released {
      rest, t := ReachReleased(u);
    }
    Prepend(s, a, rest, t);
    acts := [a] + rest;
  }

  lemma StrandingRun(s: State) returns (acts: seq<Action>, t: State)
    requires Inv(s) && s.release == NotCalled
    ensures Leads(s, [CallRelease] + acts, t) && NoNewSends(acts) && t.release == Released
  {
    var u := Step(s, CallRelease).value;
    StepKeepsInv(s, CallRelease);
    acts, t := ReachReleased(u);
    Prepend(s, CallRelease, acts, t);
  }

  /** A run that begins with the call of Release and leaves a job behind, with no new send
      call on the way. */
  ghost predicate CanStrand(s: State) {
    exists more, t ::
      NoNewSends(more) && Exec(Step, s, [CallRelease] + more) == Some(t) && t.release == Released && t.queue != []
  }

  lemma BelowZeroMeansTimed(s: State) returns (j: Job)
    requires Inv(s) && s.wg < 0
    ensures CallAt(s, j, TimedSent)
  {
    CounterAtLeast(s);
    assert At(s.calls, TimedSent) != {};
    j :| j in At(s.calls, TimedSent);
  }

  /** The next step by which j gets to its send: if its Add would panic, timed calls that
      have sent add first. */
  lemma TowardsSend(s: State, j: Job) returns (a: Action)
    requires Inv(s) && s.queue == [] && Unsent(s, j)
    ensures Internal(a) && Step(s, a).Some? && Step(s, a).value.release == s.release
    ensures var t := Step(s, a).value;
            if a == PlainSend(j) || a == TimedSend(j) then t.queue == [j] else t.queue == [] && Unsent(t, j)
    ensures s.wg >= -1 || CallAt(s, j, TimedEntered) ==>
              (a == PlainAdd(j) && Step(s, a).value.calls == s.calls[j := PlainAdded] && s.wg >= -1) ||
              (a == PlainSend(j) && Step(s, a).value.calls == s.calls[j := ReturnedTrue]) ||
              (a == TimedSend(j) && Step(s, a).value.calls == s.calls[j := TimedSent])
  {
    if CallAt(s, j, PlainAdded) {
      a := PlainSend(j);
    } else if CallAt(s, j, TimedEntered) {
      a := TimedSend(j);
    } else if s.wg >= -1 {
      a := PlainAdd(j);
    } else {
      var k := BelowZeroMeansTimed(s);
      a := TimedAdd(k);
    }
  }

  /** A call that has not sent its job can send it when the queue is empty. */
  lemma {:induction false} SendsNow(s: State, j: Job) returns (acts: seq<Action>, t: State)
    requires Inv(s) && s.queue == [] && Unsent(s, j)
    ensures Exec(Step, s, acts) == Some(t) && NoNewSends(acts)
    ensures Inv(t) && t.release == s.release && t.queue == [j]
    ensures s.wg >= -1 || CallAt(s, j, TimedEntered) ==>
              t.calls == s.calls[j := if CallAt(s, j, TimedEntered) then TimedSent else ReturnedTrue]
    decreases Measure(s)
  {
    var a := TowardsSend(s, j);
    StepKeepsInv(s, a);
    MeasureDrops(s, a);
    var u := Step(s, a).value;
    var rest: seq<Action> := [];
    t := u;
    if a == PlainSend(j) || a == TimedSend(j) {
    } else {
      rest, t := SendsNow(u, j);
    }
    ExecCons(Step, s, a, rest);
    acts := [a] + rest;
  }

  lemma UnsentStrands(s: State, j: Job)
    requires Inv(s) && s.release == NotCalled && s.queue == [] && Unsent(s, j)
    ensures CanStrand(s)
  {
    var u := Step(s, CallRelease).value;
    StepKeepsInv(s, CallRelease);
    var first, v := SendsNow(u, j);
    var more, t := ReachReleased(v);
    ExecAppend(Step, u, first, more);
    ExecCons(Step, s, CallRelease, first + more);
    assert NoNewSends(first + more);
  }

  /** A Release called now may leave a job behind, with no new send call to follow, if
      and only if a job is queued or a call has yet to send its job. */
  lemma ReleaseStrandsIff(numWorkers: int, jobQueueLen: int, acts: seq<Action>, s: State)
    requires Reaches(numWorkers, jobQueueLen, acts, s) && s.release == NotCalled
    ensures CanStrand(s) <==> s.queue != [] || exists j :: Unsent(s, j)
  {
    ReachableInv(numWorkers, jobQueueLen, acts, s);
    if s.queue != [] {
      var more, t := StrandingRun(s);
    } else if j :| Unsent(s, j) {
      UnsentStrands(s, j);
    } else if CanStrand(s) {
      var more, t :|
        NoNewSends(more) && Exec(Step, s, [CallRelease] + more) == Some(t) && t.release == Released && t.queue != [];
      assert AllSent(s) by {
        forall j | j in s.calls
          ensures s.calls[j] != PlainEntered && s.calls[j] != PlainAdded && s.calls[j] != TimedEntered
        {
          assert !Unsent(s, j);
        }
      }
      QueueOnlyShrinks(s, [CallRelease] + more);
    }
  }

  /** In every pool: one send call that has sent its job, and a Release that leaves it. */
  lemma LeavesJob(numWorkers: int, jobQueueLen: int, a: Action) returns (acts: seq<Action>, s: State)
    requires a == CallPlain(0) || a == CallTimed(0)
    ensures Reaches(numWorkers, jobQueueLen, acts, s) && s.release == Released && s.queue == [0]
    ensures s.calls == map[0 := if a.CallPlain? then ReturnedTrue else TimedSent]
  {
    var s0 := NewPool(numWorkers, jobQueueLen);
    var s1 := Step(s0, a).value;
    InitialInv(numWorkers, jobQueueLen);
    StepKeepsInv(s0, a);
    var send, s2 := SendsNow(s1, 0);
    var stop;
    stop, s := StrandingRun(s2);
    ExecAppend(Step, s1, send, [CallRelease] + stop);
    ExecCons(Step, s0, a, send + ([CallRelease] + stop));
    acts := [a] + (send + ([CallRelease] + stop));
  }

  /** In every pool Release can leave the job of a SendJob that has returned. */
  lemma ReleaseCanStrandAJob(numWorkers: int, jobQueueLen: int)
    ensures exists acts, s :: Reaches(numWorkers, jobQueueLen, acts, s) && s.release == Released &&
                              NoSendInProgress(s) && s.queue == [0] && s.calls == map[0 := ReturnedTrue]
  {
    var acts, s := LeavesJob(numWorkers, jobQueueLen, CallPlain(0));
    assert NoSendInProgress(s);
  }

  /** And in every pool it can leave the job of a timed send while the counter is zero:
      WaitAll then returns at once, although the job never runs. */
  lemma WaitAllCanMissAJob(numWorkers: int, jobQueueLen: int)
    ensures exists acts, s :: Reaches(numWorkers, jobQueueLen, acts, s) && s.release == Released &&
                              s.queue == [0] && s.wg == 0
  {
    var acts, s := LeavesJob(numWorkers, jobQueueLen, CallTimed(0));
    assert At(s.calls, PlainAdded) == {} && At(s.calls, TimedSent) == {0};
    WaitAllAfterRelease(numWorkers, jobQueueLen, acts, s);
  }

  /** Once WaitAll has returned, Release leaves nothing behind, and a WaitAll after it
      returns at once: the other order of the two calls in appShutdown is safe. */
  lemma WaitAllThenReleaseIsSafe(
    numWorkers: int, jobQueueLen: int, acts: seq<Action>, s: State, more: seq<Action>, t: State)
    requires Reaches(numWorkers, jobQueueLen, acts, s) && SendersDone(s) && s.wg == 0
    requires NoNewSends(more) && Exec(Step, s, more) == Some(t)
    ensures t.release == Released ==> t.queue == [] && t.wg == 0 && t.finished == Elements(t.accepted)
  {
    ReachableInv(numWorkers, jobQueueLen, acts, s);
    NothingLeft(s);
    QueueOnlyShrinks(s, more);
    ExecAppend(Step, NewPool(numWorkers, jobQueueLen), acts, more);
    if t.release == Released {
      WaitAllAfterRelease(numWorkers, jobQueueLen, acts + more, t);
      ReleaseIsComplete(numWorkers, jobQueueLen, acts + more, t);
      assert t.delivered + t.queue == t.delivered;
    }
  }

  lemma NothingLeft(s: State)
    requires Inv(s) && SendersDone(s) && s.wg == 0
    ensures s.queue == [] && NoSendInProgress(s) && At(s.calls, PlainPanicked) == {}
  {
    assert NoSendInProgress(s);
    CounterAtLeast(s);
  }
}
