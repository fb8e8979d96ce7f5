/** What holds over whole runs of GetConn callers. */
module ConnCacheTheorems {
  import opened Prelude
  import opened Runs
  import opened ConnCache
  import opened ConnCacheProofs

  ghost predicate Reaches(acts: seq<Action>, s: State) {
    Exec(Step, INITIAL, acts) == Some(s)
  }

  /** The cache keeps what is stored in it. */
  ghost predicate CacheKeeps(acts: seq<Action>) {
    forall i :: 0 <= i < |acts| ==> !acts[i].Evict? && !acts[i].StoreFail?
  }

  ghost predicate FullInv(s: State) {
    Inv(s) && LatestIsOpen(s)
  }

  lemma StepKeepsFull(s: State, a: Action)
    requires FullInv(s) && Step(s, a).Some?
    ensures FullInv(Step(s, a).value)
  {
    StepKeepsInv(s, a);
    StepKeepsLatest(s, a);
  }

  lemma ReachableInv(acts: seq<Action>, s: State)
    requires Reaches(acts, s)
    ensures FullInv(s)
  {
    forall t, a | FullInv(t) && Step(t, a).Some? ensures FullInv(Step(t, a).value) {
      StepKeepsFull(t, a);
    }
    InvariantHolds(Step, FullInv, INITIAL, acts);
  }

  lemma {:induction false} NoOrphans(s: State, acts: seq<Action>)
    requires CacheKeeps(acts)
    ensures Exec(Step, s, acts).Some? ==> Exec(Step, s, acts).value.past.orphans == s.past.orphans
    decreases |acts|
  {
    if |acts| == 0 {
    } else if Step(s, acts[0]).Some? {
      assert !acts[0].Evict? && !acts[0].StoreFail?;
      NoOrphans(Step(s, acts[0]).value, acts[1..]);
    }
  }

  // ---------- at most one open connection ----------

  ghost function OpenConns(s: State, service: string): set<ConnId> {
    set c: ConnId | c < |s.conns| && s.conns[c].service == service && s.conns[c].state != Shutdown
  }

  ghost function ClosedConns(s: State, service: string): set<ConnId> {
    set c: ConnId | c < |s.conns| && s.conns[c].service == service && s.conns[c].state == Shutdown
  }

  /** Two open connections of one service that are not orphans are the same. */
  lemma OpenIsUnique(s: State, c: ConnId, d: ConnId)
    requires Inv(s) && IsOpen(s, c) && IsOpen(s, d) && s.conns[c].service == s.conns[d].service
    requires c !in s.past.orphans && d !in s.past.orphans
    ensures c == d
  {
    assert Accounted(s, c) && Accounted(s, d);
    var service := s.conns[c].service;
    if Cached(s, service) == Some(c) {
      NoOpenEntryWhileCarried(s, c, d);
    } else if Cached(s, service) == Some(d) {
      NoOpenEntryWhileCarried(s, d, c);
    } else {
      var v :| v in s.calls && Carries(s.calls[v].pc, c);
      var w :| w in s.calls && Carries(s.calls[w].pc, d);
      CarrierHolds(s, v, c);
      CarrierHolds(s, w, d);
    }
  }

  lemma CarrierHolds(s: State, tid: Tid, c: ConnId)
    requires Typed(s) && MutexInv(s) && tid in s.calls && Carries(s.calls[tid].pc, c)
    ensures c < |s.conns| && s.conns[c].service in s.mutexes && s.mutexes[s.conns[c].service] == Some(tid)
  {
    assert CallOk(s, s.calls[tid]);
  }

  lemma NoOpenEntryWhileCarried(s: State, c: ConnId, d: ConnId)
    requires Inv(s) && IsOpen(s, c) && IsOpen(s, d) && s.conns[c].service == s.conns[d].service
    requires Cached(s, s.conns[c].service) == Some(c)
    ensures forall tid :: tid in s.calls ==> !Carries(s.calls[tid].pc, d)
  {
    forall tid | tid in s.calls ensures !Carries(s.calls[tid].pc, d) {
      assert CallOk(s, s.calls[tid]) && HolderInv(s, s.calls[tid]);
    }
  }

  /** While the cache keeps its entries, every service has at most one open connection:
      its cache entry, or the local of the one call that holds the service's mutex. In
      any run there are at most as many more as there are open orphans. */
  lemma AtMostOneOpen(acts: seq<Action>, s: State, service: string)
    requires Reaches(acts, s)
    ensures |OpenConns(s, service) - s.past.orphans| <= 1
    ensures CacheKeeps(acts) ==>
              && |OpenConns(s, service)| <= 1
              && forall c :: c in OpenConns(s, service) ==>
                   || Cached(s, service) == Some(c)
                   || (service in s.mutexes && s.mutexes[service].Some? && s.mutexes[service].value in s.calls
                       && Carries(s.calls[s.mutexes[service].value].pc, c))
  {
    ReachableInv(acts, s);
    var kept := OpenConns(s, service) - s.past.orphans;
    forall c, d | c in kept && d in kept ensures c == d {
      OpenIsUnique(s, c, d);
    }
    if c :| c in kept {
      assert kept == {c};
    }
    if CacheKeeps(acts) {
      NoOrphans(INITIAL, acts);
      assert kept == OpenConns(s, service);
      forall c | c in OpenConns(s, service) && Cached(s, service) != Some(c)
        ensures service in s.mutexes && s.mutexes[service].Some? && s.mutexes[service].value in s.calls
                && Carries(s.calls[s.mutexes[service].value].pc, c)
      {
        assert IsOpen(s, c) && Accounted(s, c);
        var tid :| tid in s.calls && Carries(s.calls[tid].pc, c);
        assert CallOk(s, s.calls[tid]);
      }
    }
  }

  /** Dials are conserved for every service: each DialContext call failed, or its
      connection is closed, or it is open; and open ones are at most one more than the
      orphans, none of which exist while the cache keeps its entries. */
  lemma DialsAreConserved(acts: seq<Action>, s: State, service: string)
    requires Reaches(acts, s)
    ensures Tally(s.past.attempts, service) ==
            Tally(s.past.failures, service) + |ClosedConns(s, service)| + |OpenConns(s, service)|
    ensures Tally(s.past.attempts, service) <=
            Tally(s.past.failures, service) + |ClosedConns(s, service)| + |OpenConns(s, service) * s.past.orphans| + 1
    ensures CacheKeeps(acts) ==>
              Tally(s.past.attempts, service) <= Tally(s.past.failures, service) + |ClosedConns(s, service)| + 1
  {
    ReachableInv(acts, s);
    AtMostOneOpen(acts, s, service);
    var open, closed := OpenConns(s, service), ClosedConns(s, service);
    assert closed + open == ConnsOf(s.conns, service) && closed * open == {};
    assert open == (open - s.past.orphans) + (open * s.past.orphans);
  }

  // ---------- one dial under contention ----------

  /** An open connection that is no orphan is the last one dialled for its service. */
  ghost predicate LatestIsOpen(s: State) {
    forall c: nat, d: nat :: IsOpen(s, c) && c !in s.past.orphans && IsConnOf(s, d, s.conns[c].service) ==> d <= c
  }

  lemma StepKeepsLatest(s: State, a: Action)
    requires Inv(s) && LatestIsOpen(s) && Step(s, a).Some?
    ensures LatestIsOpen(Step(s, a).value)
  {
    var t := Step(s, a).value;
    StepGrows(s, a);
    OrphansStay(s, a);
    forall c: nat, d: nat | IsOpen(t, c) && c !in t.past.orphans && IsConnOf(t, d, t.conns[c].service) ensures d <= c {
      if c < |s.conns| {
        assert IsOpen(s, c);
        if d >= |s.conns| {
          assert a.DialOk?;
          NoOpenWhileDialing(s, a.tid, c);
        } else {
          assert IsConnOf(s, d, s.conns[c].service);
        }
      }
    }
  }

  lemma NoOpenWhileDialing(s: State, tid: Tid, c: ConnId)
    requires Inv(s) && CallIs(s, tid, Dial) && IsConnOf(s, c, s.calls[tid].service) && c !in s.past.orphans
    ensures !IsOpen(s, c)
  {
  }

  ghost predicate OnlyGives(r: Result, c: ConnId) {
    r == Hit(c) || r == Dialed(c) || r == DialError
  }

  lemma OnlyConnGiven(s: State, r: Result, service: string, first: ConnId)
    requires ResultOk(s, r, service) && forall c :: IsConnOf(s, c, service) ==> c == first
    ensures OnlyGives(r, first)
  {
    match r
    case Hit(c) => assert IsConnOf(s, c, service);
    case Dialed(c) => assert IsConnOf(s, c, service);
    case DialError =>
  }

  /** If the first connection dialled for a service is not closed (as when it stays Idle
      or Ready) and the cache keeps its entries, it is the only connection ever dialled
      for the service, and every call that returned without error returned it. */
  lemma SingleDial(acts: seq<Action>, s: State, service: string, first: ConnId)
    requires Reaches(acts, s) && CacheKeeps(acts)
    requires IsConnOf(s, first, service) && forall c :: IsConnOf(s, c, service) ==> first <= c
    requires s.conns[first].state != Shutdown
    ensures forall c :: IsConnOf(s, c, service) ==> c == first
    ensures forall tid :: tid in s.calls && s.calls[tid].service == service && s.calls[tid].pc.Returned? ==>
              OnlyGives(s.calls[tid].pc.result, first)
    ensures Tally(s.past.attempts, service) == Tally(s.past.failures, service) + 1
  {
    ReachableInv(acts, s);
    NoOrphans(INITIAL, acts);
    assert IsOpen(s, first);
    assert forall c :: IsConnOf(s, c, service) ==> c == first;
    forall tid | tid in s.calls && s.calls[tid].service == service && s.calls[tid].pc.Returned?
      ensures OnlyGives(s.calls[tid].pc.result, first)
    {
      assert CallOk(s, s.calls[tid]);
      OnlyConnGiven(s, s.calls[tid].pc.result, service, first);
    }
    DialsAreConserved(acts, s, service);
    assert forall c :: c in ClosedConns(s, service) ==> IsConnOf(s, c, service);
    assert forall c :: c in OpenConns(s, service) ==> IsConnOf(s, c, service);
    assert OpenConns(s, service) == {first} && ClosedConns(s, service) == {};
  }

  // ---------- cache hits ----------

  ghost predicate ReturnsHit(s: State, tid: Tid, c: ConnId) {
    CallIs(s, tid, Returned(Hit(c))) || CallIs(s, tid, Unlock(Hit(c)))
  }

  ghost predicate ChecksUsable(s: State, tid: Tid, c: ConnId) {
    && (CallIs(s, tid, FastCheck(c)) || CallIs(s, tid, SlowCheck(c)))
    && c < |s.conns| && s.conns[c].state in {Idle, Ready}
  }

  /** A connection returned from the cache was open, Idle or Ready, when the call checked it. */
  lemma {:induction false} HitsWereEffective(acts: seq<Action>, s: State, tid: Tid, c: ConnId)
    requires Reaches(acts, s) && ReturnsHit(s, tid, c)
    ensures exists k, t :: 0 <= k < |acts| && Reaches(acts[..k], t) && ChecksUsable(t, tid, c)
    decreases |acts|
  {
    if |acts| == 0 {
    } else {
      var last := |acts| - 1;
      ExecSnoc(Step, INITIAL, acts);
      var before := Exec(Step, INITIAL, acts[..last]).value;
      assert Reaches(acts[..last], before);
      if ReturnsHit(before, tid, c) {
        HitsWereEffective(acts[..last], before, tid, c);
        var k, t :| 0 <= k < last && Reaches(acts[..last][..k], t) && ChecksUsable(t, tid, c);
        assert acts[..last][..k] == acts[..k];
      } else {
        HitStep(before, acts[last], tid, c);
      }
    }
  }

  lemma HitStep(s: State, a: Action, tid: Tid, c: ConnId)
    requires Step(s, a).Some? && ReturnsHit(Step(s, a).value, tid, c) && !ReturnsHit(s, tid, c)
    ensures ChecksUsable(s, tid, c)
  {
    StepMovesOnlyActor(s, a);
  }

  // ---------- progress ----------

  /** An upper bound on the steps a call still has to take. */
  function Rank(pc: Pc): nat {
    match pc
    case FastRead => 12
    case FastCheck(_) => 11
    case FastClose(_) => 10
    case LoadMutex => 9
    case Lock => 8
    case SlowRead => 7
    case SlowCheck(_) => 6
    case SlowClose(_) => 5
    case Dial => 4
    case DialCheck(_) => 3
    case DialClose(_) => 2
    case Store(_) => 2
    case Unlock(_) => 1
    case Returned(_) => 0
  }

  /** Every step of a call brings it closer to its return, and no other step moves it:
      a call takes at most twelve steps of its own. */
  lemma StepsOfACallAreBounded(s: State, a: Action, tid: Tid)
    requires tid in s.calls && Step(s, a).Some?
    ensures var t := Step(s, a).value;
            && tid in t.calls
            && (Actor(a) == Some(tid) ==> Rank(t.calls[tid].pc) < Rank(s.calls[tid].pc))
            && (Actor(a) != Some(tid) ==> t.calls[tid] == s.calls[tid])
  {
    StepMovesOnlyActor(s, a);
    if a == Advance(tid) {
      if Locked(s.calls[tid].pc) { SlowRankFalls(s, tid); } else { FastRankFalls(s, tid); }
    }
  }

  lemma FastRankFalls(s: State, tid: Tid)
    requires tid in s.calls && !Locked(s.calls[tid].pc) && FastStep(s, tid).Some?
    ensures var t := FastStep(s, tid).value; tid in t.calls && Rank(t.calls[tid].pc) < Rank(s.calls[tid].pc)
  {
  }

  lemma SlowRankFalls(s: State, tid: Tid)
    requires tid in s.calls && Locked(s.calls[tid].pc) && SlowStep(s, tid).Some?
    ensures var t := SlowStep(s, tid).value; tid in t.calls && Rank(t.calls[tid].pc) < Rank(s.calls[tid].pc)
  {
  }

  /** While some call has not returned, some call can take a step: GetConn cannot deadlock. */
  lemma SomeCallCanMove(acts: seq<Action>, s: State, tid: Tid)
    requires Reaches(acts, s) && tid in s.calls && !s.calls[tid].pc.Returned?
    ensures exists a :: Actor(a).Some? && !a.Enter? && Step(s, a).Some?
  {
    ReachableInv(acts, s);
    assert CallOk(s, s.calls[tid]);
    var service := s.calls[tid].service;
    var mover := if s.calls[tid].pc.Lock? && s.mutexes[service].Some? then s.mutexes[service].value else tid;
    CanMove(s, mover);
  }

  lemma CanMove(s: State, tid: Tid)
    requires Inv(s) && tid in s.calls && !s.calls[tid].pc.Returned?
    requires s.calls[tid].pc.Lock? ==> s.mutexes[s.calls[tid].service] == None
    ensures exists a :: Actor(a).Some? && !a.Enter? && Step(s, a).Some?
  {
    assert CallOk(s, s.calls[tid]);
    var a := if s.calls[tid].pc == Dial then DialFail(tid) else Advance(tid);
    assert Step(s, a).Some? && Actor(a) == Some(tid);
  }

  // ---------- what GetConn does not promise ----------

  /** A call that finds the cache empty and its mutex free, with no other call moving. */
  ghost function ColdCall(tid: Tid, service: string, state: Connectivity): seq<Action> {
    [Enter(tid, service)] + ([Advance(tid)] + ([Advance(tid)] + ([Advance(tid)] + ([Advance(tid)] +
    ([DialOk(tid, state)] + ([Advance(tid)] + ([Advance(tid)] + ([Advance(tid)] + []))))))))
  }

  ghost predicate Quiet(s: State, tid: Tid, service: string) {
    tid !in s.calls && Cached(s, service) == None && (service in s.mutexes ==> s.mutexes[service] == None)
  }

  lemma ColdCallMisses(s: State, tid: Tid, service: string, rest: seq<Action>) returns (t: State)
    requires Quiet(s, tid, service)
    ensures t == s.(calls := s.calls[tid := Call(service, LoadMutex)])
    ensures Exec(Step, s, [Enter(tid, service)] + ([Advance(tid)] + rest)) == Exec(Step, t, rest)
  {
    var s1 := Step(s, Enter(tid, service)).value;
    t := s.(calls := s.calls[tid := Call(service, LoadMutex)]);
    assert Step(s1, Advance(tid)).value.calls == t.calls;
    ExecCons(Step, s, Enter(tid, service), [Advance(tid)] + rest);
    ExecCons(Step, s1, Advance(tid), rest);
  }

  lemma ColdCallLocks(s: State, tid: Tid, service: string, rest: seq<Action>) returns (t: State)
    requires CallIs(s, tid, LoadMutex) && s.calls[tid].service == service && Cached(s, service) == None
    requires service in s.mutexes ==> s.mutexes[service] == None
    ensures t.conns == s.conns && t.cache == s.cache && t.past.orphans == s.past.orphans
    ensures t.calls == s.calls[tid := Call(service, Dial)]
    ensures t.mutexes == s.mutexes[service := Some(tid)]
    ensures Exec(Step, s, [Advance(tid)] + ([Advance(tid)] + ([Advance(tid)] + rest))) == Exec(Step, t, rest)
  {
    var s1 := Step(s, Advance(tid)).value;
    var s2 := Step(s1, Advance(tid)).value;
    ExecCons(Step, s, Advance(tid), [Advance(tid)] + ([Advance(tid)] + rest));
    ExecCons(Step, s1, Advance(tid), [Advance(tid)] + rest);
    ExecCons(Step, s2, Advance(tid), rest);
    t := Step(s2, Advance(tid)).value;
  }

  lemma ColdCallDials(s: State, tid: Tid, service: string, state: Connectivity) returns (t: State)
    requires CallIs(s, tid, Dial) && s.calls[tid].service == service && state != Shutdown
    requires service in s.mutexes
    ensures Exec(Step, s, [DialOk(tid, state)] + ([Advance(tid)] + ([Advance(tid)] + ([Advance(tid)] + [])))) == Some(t)
    ensures t.conns == s.conns + [Conn(service, if Effective(state) then state else Shutdown)]
    ensures t.cache == if Effective(state) then s.cache[CacheKey(service) := |s.conns|] else s.cache
    ensures t.past.orphans == s.past.orphans && t.mutexes == s.mutexes[service := None]
    ensures t.calls == s.calls[tid := Call(service, Returned(Dialed(|s.conns|)))]
  {
    var s1 := Step(s, DialOk(tid, state)).value;
    var s2 := Step(s1, Advance(tid)).value;
    var s3 := Step(s2, Advance(tid)).value;
    ExecCons(Step, s, DialOk(tid, state), [Advance(tid)] + ([Advance(tid)] + ([Advance(tid)] + [])));
    ExecCons(Step, s1, Advance(tid), [Advance(tid)] + ([Advance(tid)] + []));
    ExecCons(Step, s2, Advance(tid), [Advance(tid)] + []);
    ExecCons(Step, s3, Advance(tid), []);
    t := Step(s3, Advance(tid)).value;
  }

  lemma ColdCallRuns(s: State, tid: Tid, service: string, state: Connectivity) returns (t: State)
    requires Quiet(s, tid, service) && state != Shutdown
    ensures Exec(Step, s, ColdCall(tid, service, state)) == Some(t)
    ensures t.conns == s.conns + [Conn(service, if Effective(state) then state else Shutdown)]
    ensures t.cache == if Effective(state) then s.cache[CacheKey(service) := |s.conns|] else s.cache
    ensures t.past.orphans == s.past.orphans && t.mutexes == s.mutexes[service := None]
    ensures t.calls == s.calls[tid := Call(service, Returned(Dialed(|s.conns|)))]
  {
    var dial := [DialOk(tid, state)] + ([Advance(tid)] + ([Advance(tid)] + ([Advance(tid)] + [])));
    var missed := ColdCallMisses(s, tid, service, [Advance(tid)] + ([Advance(tid)] + ([Advance(tid)] + dial)));
    var mid := ColdCallLocks(missed, tid, service, dial);
    t := ColdCallDials(mid, tid, service, state);
  }

  /** GetConn returns without error a connection that it has closed, when the fresh
      connection is Connecting or in TransientFailure as it is checked. */
  lemma FreshConnectionMayBeClosed(service: string, state: Connectivity)
    requires state != Shutdown
    ensures exists acts, s :: Reaches(acts, s) && CallIs(s, 0, Returned(Dialed(0))) && |s.conns| == 1 &&
                              (s.conns[0].state == Shutdown <==> state in {Connecting, TransientFailure}) &&
                              (s.conns[0].state == state <==> state in {Idle, Ready})
  {
    var s := ColdCallRuns(INITIAL, 0, service, state);
    assert Reaches(ColdCall(0, service, state), s);
  }

  lemma Evicted(s: State, service: string) returns (t: State)
    requires Cached(s, service).Some?
    ensures Step(s, Evict(service)) == Some(t)
    ensures t.conns == s.conns && t.calls == s.calls && t.mutexes == s.mutexes && Cached(t, service) == None
  {
    t := Step(s, Evict(service)).value;
  }

  /** With an eviction a service can have two open connections. */
  lemma EvictionBreaksUniqueness(service: string)
    ensures exists acts, s :: Reaches(acts, s) && OpenConns(s, service) == {0, 1}
  {
    var first, second := ColdCall(0, service, Ready), ColdCall(1, service, Ready);
    var s := ColdCallRuns(INITIAL, 0, service, Ready);
    var t := Evicted(s, service);
    var u := ColdCallRuns(t, 1, service, Ready);
    ExecCons(Step, s, Evict(service), second);
    ExecAppend(Step, INITIAL, first, [Evict(service)] + second);
    assert Reaches(first + ([Evict(service)] + second), u);
    assert OpenConns(u, service) == {0, 1};
  }
}
