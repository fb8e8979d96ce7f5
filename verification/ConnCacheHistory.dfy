/** Properties of GetConn that relate different moments of one run. */
module ConnCacheHistory {
  import opened Prelude
  import opened Runs
  import opened ConnCache
  import opened ConnCacheProofs
  import opened ConnCacheTheorems

  // ---------- along a run ----------

  /** The run up to k ends somewhere, and the rest of the run leads on from there. */
  lemma Moment(acts: seq<Action>, s: State, k: nat) returns (t: State)
    requires Reaches(acts, s) && k <= |acts|
    ensures Reaches(acts[..k], t) && Exec(Step, t, acts[k..]) == Some(s)
  {
    assert acts[..k] + acts[k..] == acts;
    ExecAppend(Step, INITIAL, acts[..k], acts[k..]);
    t := Exec(Step, INITIAL, acts[..k]).value;
  }

  lemma {:induction false} GrowsAlong(t: State, more: seq<Action>, s: State)
    requires Exec(Step, t, more) == Some(s)
    ensures Grows(t, s)
    decreases |more|
  {
    if |more| == 0 {
    } else {
      var u := Step(t, more[0]).value;
      StepGrows(t, more[0]);
      GrowsAlong(u, more[1..], s);
    }
  }

  /** A call either stands where it stood or has come closer to its return. */
  lemma {:induction false} RankAlong(t: State, more: seq<Action>, s: State, tid: Tid)
    requires Exec(Step, t, more) == Some(s) && tid in t.calls
    ensures tid in s.calls
    ensures s.calls[tid] == t.calls[tid] || Rank(s.calls[tid].pc) < Rank(t.calls[tid].pc)
    decreases |more|
  {
    if |more| == 0 {
    } else {
      StepsOfACallAreBounded(t, more[0], tid);
      RankAlong(Step(t, more[0]).value, more[1..], s, tid);
    }
  }

  // ---------- the fate of a fresh connection ----------

  ghost predicate Visits(acts: seq<Action>, tid: Tid, pc: Pc) {
    exists k, t :: 0 <= k <= |acts| && Reaches(acts[..k], t) && CallIs(t, tid, pc)
  }

  lemma VisitsLonger(acts: seq<Action>, tid: Tid, pc: Pc)
    requires |acts| > 0 && Visits(acts[..|acts| - 1], tid, pc)
    ensures Visits(acts, tid, pc)
  {
    var before := acts[..|acts| - 1];
    var k, t :| 0 <= k <= |before| && Reaches(before[..k], t) && CallIs(t, tid, pc);
    assert before[..k] == acts[..k];
  }

  lemma VisitsNow(acts: seq<Action>, s: State, tid: Tid, pc: Pc)
    requires Reaches(acts, s) && CallIs(s, tid, pc)
    ensures Visits(acts, tid, pc)
  {
    assert acts[..|acts|] == acts;
  }

  /** Two different places of the same rank are not both visited. */
  lemma VisitsExclude(acts: seq<Action>, tid: Tid, one: Pc, other: Pc)
    requires Rank(one) == Rank(other) && one != other
    ensures !(Visits(acts, tid, one) && Visits(acts, tid, other))
  {
    if Visits(acts, tid, one) && Visits(acts, tid, other) {
      var j, t :| 0 <= j <= |acts| && Reaches(acts[..j], t) && CallIs(t, tid, one);
      var k, u :| 0 <= k <= |acts| && Reaches(acts[..k], u) && CallIs(u, tid, other);
      if j <= k { Between(acts, j, t, k, u, tid); } else { Between(acts, k, u, j, t, tid); }
    }
  }

  lemma Between(acts: seq<Action>, j: nat, t: State, k: nat, u: State, tid: Tid)
    requires j <= k <= |acts| && Reaches(acts[..j], t) && Reaches(acts[..k], u) && tid in t.calls
    ensures tid in u.calls
    ensures u.calls[tid] == t.calls[tid] || Rank(u.calls[tid].pc) < Rank(t.calls[tid].pc)
  {
    assert acts[..k][..j] == acts[..j];
    var v := Moment(acts[..k], u, j);
    RankAlong(t, acts[..k][j..], u, tid);
  }

  ghost predicate PastDial(pc: Pc, c: ConnId) {
    pc == Store(c) || pc == DialClose(c) || pc == Unlock(Dialed(c)) || pc == Returned(Dialed(c))
  }

  /** At moment k the call checked the connection it had dialled; where it went from there
      depends on what it saw. */
  ghost predicate Checked(acts: seq<Action>, s: State, tid: Tid, c: ConnId, k: nat, t: State) {
    && k < |acts| && Reaches(acts[..k], t) && acts[k] == Advance(tid)
    && CallIs(t, tid, DialCheck(c)) && c < |t.conns| && c < |s.conns|
    && (Effective(t.conns[c].state) ==> Visits(acts, tid, Store(c)) && !CallIs(s, tid, DialClose(c)))
    && (!Effective(t.conns[c].state) ==>
          && Visits(acts, tid, DialClose(c))
          && (CallIs(s, tid, DialClose(c)) || s.conns[c].state == Shutdown) && !CallIs(s, tid, Store(c)))
  }

  lemma {:induction false} DialWasChecked(acts: seq<Action>, s: State, tid: Tid, c: ConnId) returns (k: nat, t: State)
    requires Reaches(acts, s) && tid in s.calls && PastDial(s.calls[tid].pc, c)
    ensures Checked(acts, s, tid, c, k, t)
    decreases |acts|
  {
    if |acts| == 0 {
      assert false;
    } else {
      var last := |acts| - 1;
      ExecSnoc(Step, INITIAL, acts);
      var b := Exec(Step, INITIAL, acts[..last]).value;
      StepGrows(b, acts[last]);
      StepMovesOnlyActor(b, acts[last]);
      VisitsNow(acts, s, tid, s.calls[tid].pc);
      if tid in b.calls && PastDial(b.calls[tid].pc, c) {
        k, t := DialWasChecked(acts[..last], b, tid, c);
        CheckedLonger(acts, b, s, tid, c, k, t);
      } else {
        CheckStep(b, acts[last], tid, c);
        ReachableInv(acts[..last], b);
        k, t := last, b;
      }
    }
  }

  lemma CheckedLonger(acts: seq<Action>, b: State, s: State, tid: Tid, c: ConnId, k: nat, t: State)
    requires |acts| > 0 && Step(b, acts[|acts| - 1]) == Some(s) && tid in b.calls && tid in s.calls
    requires PastDial(b.calls[tid].pc, c) && Checked(acts[..|acts| - 1], b, tid, c, k, t)
    ensures Checked(acts, s, tid, c, k, t)
  {
    var last := |acts| - 1;
    StepGrows(b, acts[last]);
    StepMovesOnlyActor(b, acts[last]);
    assert acts[..last][..k] == acts[..k];
    VisitsLonger(acts, tid, if Effective(t.conns[c].state) then Store(c) else DialClose(c));
    PastDialStep(b, acts[last], tid, c);
  }

  lemma PastDialStep(s: State, a: Action, tid: Tid, c: ConnId)
    requires Step(s, a).Some? && tid in s.calls && PastDial(s.calls[tid].pc, c)
    ensures var t := Step(s, a).value;
            && tid in t.calls
            && (t.calls[tid].pc == Store(c) ==> s.calls[tid].pc == Store(c))
            && (t.calls[tid].pc == DialClose(c) ==> s.calls[tid].pc == DialClose(c))
            && (s.calls[tid].pc == DialClose(c) && t.calls[tid].pc != DialClose(c) ==>
                  c < |t.conns| && t.conns[c].state == Shutdown)
  {
    StepMovesOnlyActor(s, a);
    if Actor(a) == Some(tid) && a.Advance? {
      SlowPastDial(s, tid, c);
    }
  }

  lemma SlowPastDial(s: State, tid: Tid, c: ConnId)
    requires tid in s.calls && PastDial(s.calls[tid].pc, c) && AdvanceStep(s, tid).Some?
    ensures var t := AdvanceStep(s, tid).value;
            && tid in t.calls && t.calls[tid].pc != Store(c) && t.calls[tid].pc != DialClose(c)
            && (s.calls[tid].pc == DialClose(c) ==> c < |t.conns| && t.conns[c].state == Shutdown)
  {
  }

  lemma CheckStep(s: State, a: Action, tid: Tid, c: ConnId)
    requires Step(s, a).Some? && tid in Step(s, a).value.calls && PastDial(Step(s, a).value.calls[tid].pc, c)
    requires !(tid in s.calls && PastDial(s.calls[tid].pc, c))
    ensures a == Advance(tid) && CallIs(s, tid, DialCheck(c)) && c < |s.conns|
    ensures Step(s, a).value.calls[tid].pc == if Effective(s.conns[c].state) then Store(c) else DialClose(c)
    ensures |Step(s, a).value.conns| == |s.conns|
  {
    StepMovesOnlyActor(s, a);
    StepAndDials(s, a);
  }

  /** A call that returns the connection it dialled checked it once before. It went on to
      store it exactly when it then found it Idle or Ready; otherwise, and only otherwise,
      it closed it, and what it returns without an error is shut down. */
  lemma FreshConnectionOutcome(acts: seq<Action>, s: State, tid: Tid, c: ConnId)
    requires Reaches(acts, s) && (CallIs(s, tid, Returned(Dialed(c))) || CallIs(s, tid, Unlock(Dialed(c))))
    ensures exists k, t ::
              && 0 <= k < |acts| && Reaches(acts[..k], t) && acts[k] == Advance(tid)
              && CallIs(t, tid, DialCheck(c)) && c < |t.conns|
              && (t.conns[c].state in {Idle, Ready} <==> Visits(acts, tid, Store(c)))
              && (t.conns[c].state in {Connecting, TransientFailure, Shutdown} <==> Visits(acts, tid, DialClose(c)))
    ensures Visits(acts, tid, DialClose(c)) ==> c < |s.conns| && s.conns[c].state == Shutdown
  {
    var k, t := DialWasChecked(acts, s, tid, c);
    VisitsExclude(acts, tid, Store(c), DialClose(c));
  }

  // ---------- what a call does with a connection it has looked at ----------

  /** Where a call can be after it stood at from, and what has become of connection c. */
  ghost predicate Follows(s: State, tid: Tid, from: Pc, c: ConnId) {
    && tid in s.calls && c < |s.conns|
    && var pc := s.calls[tid].pc;
       match from
       case Returned(r) => pc == from
       case Unlock(r) => pc == from || pc == Returned(r)
       case FastClose(_) => pc == from || s.conns[c].state == Shutdown
       case SlowClose(_) => pc == from || s.conns[c].state == Shutdown
       case DialCheck(_) => pc == from || PastDial(pc, c)
       case _ => true
  }

  ghost predicate Followed(from: Pc, c: ConnId) {
    from in {FastClose(c), SlowClose(c), DialCheck(c), Unlock(Hit(c)), Returned(Hit(c))}
  }

  lemma FollowsStep(s: State, a: Action, tid: Tid, from: Pc, c: ConnId)
    requires Step(s, a).Some? && Followed(from, c) && Follows(s, tid, from, c)
    ensures Follows(Step(s, a).value, tid, from, c)
  {
    StepGrows(s, a);
    StepMovesOnlyActor(s, a);
    if a == Advance(tid) && Locked(s.calls[tid].pc) {
      SlowFollows(s, tid, from, c);
    }
  }

  lemma SlowFollows(s: State, tid: Tid, from: Pc, c: ConnId)
    requires tid in s.calls && Locked(s.calls[tid].pc) && SlowStep(s, tid).Some?
    requires Followed(from, c) && Follows(s, tid, from, c)
    ensures Follows(SlowStep(s, tid).value, tid, from, c)
  {
  }

  lemma {:induction false} FollowsRun(s: State, more: seq<Action>, t: State, tid: Tid, from: Pc, c: ConnId)
    requires Exec(Step, s, more) == Some(t) && Followed(from, c) && Follows(s, tid, from, c)
    ensures Follows(t, tid, from, c)
    decreases |more|
  {
    if |more| == 0 {
    } else {
      FollowsStep(s, more[0], tid, from, c);
      FollowsRun(Step(s, more[0]).value, more[1..], t, tid, from, c);
    }
  }

  /** A call that checks a cached connection, before or under the lock: if it finds it Idle or
      Ready, that is what it returns; in any other state it closes it. */
  lemma CacheCheckOutcome(acts: seq<Action>, k: nat, t: State, s: State, tid: Tid, c: ConnId)
    requires k < |acts| && Reaches(acts[..k], t) && Reaches(acts, s) && acts[k] == Advance(tid)
    requires CallIs(t, tid, FastCheck(c)) || CallIs(t, tid, SlowCheck(c))
    ensures c < |t.conns| && c < |s.conns| && tid in s.calls
    ensures t.conns[c].state in {Idle, Ready} ==> s.calls[tid].pc in {Unlock(Hit(c)), Returned(Hit(c))}
    ensures t.conns[c].state in {Connecting, TransientFailure, Shutdown} ==>
              CallIs(s, tid, FastClose(c)) || CallIs(s, tid, SlowClose(c)) || s.conns[c].state == Shutdown
  {
    var v := Moment(acts, s, k);
    assert acts[k..][0] == acts[k];
    var u := Step(t, acts[k]).value;
    FollowsRun(u, acts[k..][1..], s, tid, u.calls[tid].pc, c);
  }

  /** A call whose dial succeeded returns that connection, stored or not. */
  lemma DialedIsReturned(acts: seq<Action>, s: State, tid: Tid, c: ConnId)
    requires Reaches(acts, s) && Visits(acts, tid, DialCheck(c))
    ensures tid in s.calls
    ensures s.calls[tid].pc.Returned? ==> s.calls[tid].pc.result == Dialed(c)
  {
    var k, t :| 0 <= k <= |acts| && Reaches(acts[..k], t) && CallIs(t, tid, DialCheck(c));
    ReachableInv(acts[..k], t);
    assert CallOk(t, t.calls[tid]);
    var u := Moment(acts, s, k);
    FollowsRun(t, acts[k..], s, tid, DialCheck(c), c);
  }

  /** A call that finds an Idle or Ready connection in the cache returns it in three steps,
      whoever holds the mutex of the service. */
  lemma HitNeedsNoLock(acts: seq<Action>, s: State, tid: Tid, service: string, c: ConnId)
    requires Reaches(acts, s) && tid !in s.calls
    requires Cached(s, service) == Some(c) && c < |s.conns| && s.conns[c].state in {Idle, Ready}
    ensures Exec(Step, s, [Enter(tid, service)] + ([Advance(tid)] + ([Advance(tid)] + []))) ==
            Some(s.(calls := s.calls[tid := Call(service, Returned(Hit(c)))]))
  {
    var s1 := Step(s, Enter(tid, service)).value;
    var s2 := Step(s1, Advance(tid)).value;
    var s3 := Step(s2, Advance(tid)).value;
    ExecCons(Step, s2, Advance(tid), []);
    ExecCons(Step, s1, Advance(tid), [Advance(tid)] + []);
    ExecCons(Step, s, Enter(tid, service), [Advance(tid)] + ([Advance(tid)] + []));
    assert s3.calls == s.calls[tid := Call(service, Returned(Hit(c)))];
  }

  // ---------- after the first successful dial ----------

  ghost predicate NoneDialing(s: State, service: string) {
    forall tid :: tid in s.calls && s.calls[tid].service == service ==> s.calls[tid].pc != Dial
  }

  lemma OpenMeansNoneDialing(t: State, more: seq<Action>, s: State, service: string, c: ConnId)
    requires FullInv(t) && t.past.orphans == {} && Exec(Step, t, more) == Some(s)
    requires IsConnOf(t, c, service) && IsOpen(s, c)
    ensures IsOpen(t, c) && NoneDialing(t, service)
  {
    GrowsAlong(t, more, s);
    forall tid | tid in t.calls && t.calls[tid].service == service ensures t.calls[tid].pc != Dial {
      if t.calls[tid].pc == Dial { NoOpenWhileDialing(t, tid, c); }
    }
  }

  /** Where a call of the service may stand that entered after moment t. */
  ghost predicate NewcomerAt(pc: Pc, c: ConnId) {
    pc.FastRead? || pc.FastCheck? || pc.FastClose? || pc.LoadMutex? || pc.Lock? || pc.SlowRead? || pc.SlowCheck? ||
    pc.SlowClose? || pc == Unlock(Hit(c)) || pc == Returned(Hit(c))
  }

  ghost predicate Newcomers(t: State, s: State, service: string, c: ConnId) {
    forall tid :: tid in s.calls && tid !in t.calls && s.calls[tid].service == service ==> NewcomerAt(s.calls[tid].pc, c)
  }

  lemma NewcomersStep(t: State, u: State, a: Action, service: string, c: ConnId)
    requires FullInv(u) && u.past.orphans == {} && Step(u, a).Some? && Newcomers(t, u, service, c)
    requires IsConnOf(u, c, service) && IsOpen(u, c) && NoneDialing(Step(u, a).value, service)
    requires t.calls.Keys <= u.calls.Keys
    ensures Newcomers(t, Step(u, a).value, service, c)
  {
    var v := Step(u, a).value;
    StepMovesOnlyActor(u, a);
    forall tid | tid in v.calls && tid !in t.calls && v.calls[tid].service == service
      ensures NewcomerAt(v.calls[tid].pc, c)
    {
      if tid in u.calls && Actor(a) == Some(tid) { NewcomerMoves(u, a, tid, c); }
    }
  }

  lemma NewcomerMoves(u: State, a: Action, tid: Tid, c: ConnId)
    requires FullInv(u) && u.past.orphans == {} && Step(u, a).Some? && Actor(a) == Some(tid) && tid in u.calls
    requires NewcomerAt(u.calls[tid].pc, c) && IsConnOf(u, c, u.calls[tid].service) && IsOpen(u, c)
    requires tid in Step(u, a).value.calls && Step(u, a).value.calls[tid].pc != Dial
    ensures NewcomerAt(Step(u, a).value.calls[tid].pc, c)
  {
    assert CallOk(u, u.calls[tid]);
    var pc := u.calls[tid].pc;
    if (pc.FastCheck? || pc.SlowCheck?) && IsOpen(u, pc.conn) {
      OpenIsUnique(u, pc.conn, c);
    }
  }

  lemma {:induction false} AfterFirst(
    t: State, u: State, more: seq<Action>, s: State, service: string, c: ConnId)
    requires FullInv(u) && u.past.orphans == {} && CacheKeeps(more) && Exec(Step, u, more) == Some(s)
    requires IsConnOf(u, c, service) && IsOpen(s, c) && Newcomers(t, u, service, c) && t.calls.Keys <= u.calls.Keys
    ensures Newcomers(t, s, service, c)
    ensures Tally(s.past.attempts, service) == Tally(u.past.attempts, service)
    decreases |more|
  {
    if |more| == 0 {
    } else {
      var a, v := more[0], Step(u, more[0]).value;
      assert !a.Evict? && !a.StoreFail?;
      OpenMeansNoneDialing(u, more, s, service, c);
      StepKeepsFull(u, a);
      StepGrows(u, a);
      StepMovesOnlyActor(u, a);
      StepAndDials(u, a);
      KeepsNoOrphans(u, a);
      OpenMeansNoneDialing(v, more[1..], s, service, c);
      NewcomersStep(t, u, a, service, c);
      AfterFirst(t, v, more[1..], s, service, c);
    }
  }

  lemma KeepsNoOrphans(s: State, a: Action)
    requires Step(s, a).Some? && !a.Evict? && !a.StoreFail?
    ensures Step(s, a).value.past.orphans == s.past.orphans
  {
  }

  /** From the moment t at which a connection is dialled that is never closed, while the
      cache keeps its entries: no DialContext call of the service follows, successful or
      not, none stands before one, and a call that enters later and returns, returns that
      connection from the cache. */
  lemma NoDialAfterFirst(acts: seq<Action>, k: nat, t: State, s: State, service: string, c: ConnId)
    requires k <= |acts| && Reaches(acts[..k], t) && Reaches(acts, s) && CacheKeeps(acts)
    requires IsConnOf(t, c, service) && IsOpen(s, c)
    ensures NoneDialing(t, service)
    ensures Tally(s.past.attempts, service) == Tally(t.past.attempts, service)
    ensures forall tid ::
              (tid in s.calls && tid !in t.calls && s.calls[tid].service == service && s.calls[tid].pc.Returned?) ==>
              s.calls[tid].pc.result == Hit(c)
  {
    var u := Moment(acts, s, k);
    ReachableInv(acts[..k], t);
    NoOrphans(INITIAL, acts[..k]);
    OpenMeansNoneDialing(t, acts[k..], s, service, c);
    AfterFirst(t, t, acts[k..], s, service, c);
  }

  // ---------- every call returns ----------

  ghost function AtLeast(calls: map<Tid, Call>, n: nat): set<Tid> {
    set tid | tid in calls && Rank(calls[tid].pc) >= n
  }

  /** The sum of the ranks of all calls, counted level by level up to n. */
  ghost function RankSum(calls: map<Tid, Call>, n: nat): nat {
    if n == 0 then 0 else RankSum(calls, n - 1) + |AtLeast(calls, n)|
  }

  lemma {:induction false} RankSumFalls(calls: map<Tid, Call>, tid: Tid, to: Call, n: nat)
    requires tid in calls && Rank(to.pc) < Rank(calls[tid].pc)
    ensures RankSum(calls[tid := to], n) <= RankSum(calls, n)
    ensures n >= Rank(calls[tid].pc) ==> RankSum(calls[tid := to], n) < RankSum(calls, n)
  {
    if n == 0 {
    } else {
      RankSumFalls(calls, tid, to, n - 1);
      LevelFalls(calls, tid, to, n);
    }
  }

  lemma LevelFalls(calls: map<Tid, Call>, tid: Tid, to: Call, n: nat)
    requires tid in calls && Rank(to.pc) < Rank(calls[tid].pc)
    ensures |AtLeast(calls[tid := to], n)| ==
            |AtLeast(calls, n)| - if Rank(to.pc) < n <= Rank(calls[tid].pc) then 1 else 0
  {
    var before, after := AtLeast(calls, n), AtLeast(calls[tid := to], n);
    if Rank(to.pc) < n <= Rank(calls[tid].pc) {
      assert before == after + {tid};
    } else {
      assert before == after;
    }
  }

  lemma {:induction false} RankSumBound(calls: map<Tid, Call>, n: nat)
    ensures RankSum(calls, n) <= n * |calls|
  {
    if n == 0 {
    } else {
      RankSumBound(calls, n - 1);
      SubsetSize(AtLeast(calls, n), calls.Keys);
      assert n * |calls| == (n - 1) * |calls| + |calls|;
    }
  }

  ghost function Remaining(s: State): nat {
    RankSum(s.calls, 12)
  }

  /** The steps of calls already made. */
  ghost predicate ByCall(a: Action) {
    Actor(a).Some? && !a.Enter?
  }

  lemma RemainingFalls(s: State, a: Action)
    requires ByCall(a) && Step(s, a).Some?
    ensures Remaining(Step(s, a).value) < Remaining(s)
  {
    var tid := Actor(a).value;
    StepMovesOnlyActor(s, a);
    StepsOfACallAreBounded(s, a, tid);
    RankSumFalls(s.calls, tid, Step(s, a).value.calls[tid], 12);
  }

  /** Calls take at most twelve steps each, in whatever order, and when none of them can
      take another, all have returned. */
  lemma EveryCallReturns(acts: seq<Action>, s: State, more: seq<Action>, t: State)
    requires Reaches(acts, s) && Exec(Step, s, more) == Some(t)
    requires forall i :: 0 <= i < |more| ==> ByCall(more[i])
    ensures |more| <= 12 * |s.calls|
    ensures (forall a :: ByCall(a) ==> Step(t, a).None?) ==> forall tid :: tid in t.calls ==> t.calls[tid].pc.Returned?
  {
    ReachableInv(acts, s);
    forall u, a | FullInv(u) && Step(u, a).Some? ensures FullInv(Step(u, a).value) {
      StepKeepsFull(u, a);
    }
    forall u, a | FullInv(u) && ByCall(a) && Step(u, a).Some?
      ensures Remaining(Step(u, a).value) < Remaining(u)
    {
      RemainingFalls(u, a);
    }
    MeasureBoundsRun(Step, FullInv, ByCall, Remaining, s, more);
    RankSumBound(s.calls, 12);
    ExecAppend(Step, INITIAL, acts, more);
    forall tid | tid in t.calls && !t.calls[tid].pc.Returned? ensures exists a :: ByCall(a) && Step(t, a).Some? {
      SomeCallCanMove(acts + more, t, tid);
    }
  }

  /** What may happen at any time: a call of any service, any result of a dial, a store that
      fails, the eviction of any entry, and any change of a connection that is not shut
      down, its closing by an owner included. */
  lemma EnvironmentIsFree(s: State, tid: Tid, service: string, c: ConnId, state: Connectivity)
    ensures tid !in s.calls ==> Step(s, Action.Enter(tid, service)).Some?
    ensures CallIs(s, tid, Dial) ==> Step(s, DialFail(tid)).Some? && (state != Shutdown ==> Step(s, DialOk(tid, state)).Some?)
    ensures CallIs(s, tid, Pc.Store(c)) ==> Step(s, StoreFail(tid)).Some?
    ensures Cached(s, service).Some? ==> Step(s, Evict(service)).Some?
    ensures c < |s.conns| && s.conns[c].state != Shutdown ==>
              Step(s, Change(c, state)) == Some(s.(conns := s.conns[c := Conn(s.conns[c].service, state)]))
  {
  }
}
