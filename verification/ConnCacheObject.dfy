/** GetConn over shared objects that its callers update in place: the connections, the
    cache and the map of mutexes. Every method is proved against ConnCache.Step. */
module ConnCacheObject {
  import opened Prelude
  import opened ConnCache
  import opened ConnCacheProofs
  import opened ConnCacheTheorems

  // ---------- one call alone ----------

  ghost function AloneNext(s: State, tid: Tid, dial: Option<Connectivity>): Action {
    if !CallIs(s, tid, Dial) then Advance(tid)
    else match dial case Some(state) => DialOk(tid, state) case None => DialFail(tid)
  }

  function CloseAt(conns: seq<Conn>, c: ConnId): seq<Conn> {
    if c < |conns| then conns[c := conns[c].(state := Shutdown)] else conns
  }

  ghost predicate MutexFree(s: State, service: string) {
    service in s.mutexes ==> s.mutexes[service].None?
  }

  ghost predicate FoundGood(s: State, service: string) {
    var entry := Cached(s, service);
    entry.Some? && entry.value < |s.conns| && Effective(s.conns[entry.value].state)
  }

  /** The connections after the cached one, if any, has been closed. */
  ghost function EntryClosed(s: State, service: string): seq<Conn> {
    var entry := Cached(s, service);
    if entry.Some? then CloseAt(s.conns, entry.value) else s.conns
  }

  /** How far a call that moves alone has come since start. */
  ghost predicate Along(start: State, s: State, tid: Tid, service: string, dial: Option<Connectivity>) {
    && tid in s.calls && s.calls == start.calls[tid := Call(service, s.calls[tid].pc)]
    && AlongConns(start, s.conns, s.cache, s.calls[tid].pc, service, dial)
    && (if Locked(s.calls[tid].pc) then service in s.mutexes && s.mutexes[service] == Some(tid)
        else MutexFree(s, service))
    && (s.calls[tid].pc.Lock? ==> service in s.mutexes)
  }

  ghost predicate AlongConns(
    start: State, conns: seq<Conn>, cache: map<string, ConnId>, pc: Pc, service: string, dial: Option<Connectivity>)
  {
    var entry := Cached(start, service);
    var good := FoundGood(start, service);
    var closed := EntryClosed(start, service);
    var n := |start.conns|;
    var dialed := if dial.Some? then closed + [Conn(service, dial.value)] else closed;
    match pc
    case FastRead => conns == start.conns && cache == start.cache
    case FastCheck(c) => entry == Some(c) && conns == start.conns && cache == start.cache
    case FastClose(c) => entry == Some(c) && !good && conns == start.conns && cache == start.cache
    case SlowCheck(c) => entry == Some(c) && !good && conns == closed && cache == start.cache
    case SlowClose(c) => entry == Some(c) && !good && conns == closed && cache == start.cache
    case DialCheck(c) => c == n && !good && dial.Some? && conns == dialed && cache == start.cache
    case DialClose(c) =>
      c == n && !good && dial.Some? && !Effective(dial.value) && conns == dialed && cache == start.cache
    case Store(c) =>
      c == n && !good && dial.Some? && Effective(dial.value) && conns == dialed && cache == start.cache
    case Unlock(r) => AlongResult(start, conns, cache, r, service, dial) && !good
    case Returned(r) => AlongResult(start, conns, cache, r, service, dial)
    case _ => !good && conns == closed && cache == start.cache
  }

  ghost predicate AlongResult(
    start: State, conns: seq<Conn>, cache: map<string, ConnId>, r: Result, service: string, dial: Option<Connectivity>)
  {
    var closed := EntryClosed(start, service);
    var n := |start.conns|;
    if FoundGood(start, service) then
      Cached(start, service).Some? && r == Hit(Cached(start, service).value) &&
      conns == start.conns && cache == start.cache
    else
      match dial
      case None => r == DialError && conns == closed && cache == start.cache
      case Some(state) =>
        && r == Dialed(n) && conns == closed + [Conn(service, if Effective(state) then state else Shutdown)]
        && cache == if Effective(state) then start.cache[CacheKey(service) := n] else start.cache
  }

  lemma AlongSteps(start: State, s: State, tid: Tid, service: string, dial: Option<Connectivity>)
    requires Inv(start) && Along(start, s, tid, service, dial) && !s.calls[tid].pc.Returned?
    requires dial != Some(Shutdown)
    ensures var t := Step(s, AloneNext(s, tid, dial)); t.Some? && Along(start, t.value, tid, service, dial)
  {
    var entry := Cached(start, service);
    assert entry.Some? ==> IsConnOf(start, entry.value, service);
    match s.calls[tid].pc
    case FastRead => AlongLookup(start, s, tid, service, dial);
    case FastCheck(_) => AlongLookup(start, s, tid, service, dial);
    case FastClose(_) => AlongLock(start, s, tid, service, dial);
    case LoadMutex => AlongLock(start, s, tid, service, dial);
    case Lock => AlongLock(start, s, tid, service, dial);
    case Dial => AlongDial(start, s, tid, service, dial);
    case DialCheck(_) => AlongDialed(start, s, tid, service, dial);
    case DialClose(_) => AlongDialed(start, s, tid, service, dial);
    case Store(_) => AlongDialed(start, s, tid, service, dial);
    case _ => AlongRecheck(start, s, tid, service, dial);
  }

  lemma AlongLookup(start: State, s: State, tid: Tid, service: string, dial: Option<Connectivity>)
    requires Cached(start, service).Some? ==> Cached(start, service).value < |start.conns|
    requires Along(start, s, tid, service, dial)
    requires s.calls[tid].pc.FastRead? || s.calls[tid].pc.FastCheck?
    ensures var t := FastStep(s, tid); t.Some? && Along(start, t.value, tid, service, dial)
  {
  }

  lemma AlongLock(start: State, s: State, tid: Tid, service: string, dial: Option<Connectivity>)
    requires Cached(start, service).Some? ==> Cached(start, service).value < |start.conns|
    requires Along(start, s, tid, service, dial)
    requires s.calls[tid].pc.FastClose? || s.calls[tid].pc.LoadMutex? || s.calls[tid].pc.Lock?
    ensures var t := FastStep(s, tid); t.Some? && Along(start, t.value, tid, service, dial)
  {
  }

  lemma AlongRecheck(start: State, s: State, tid: Tid, service: string, dial: Option<Connectivity>)
    requires Cached(start, service).Some? ==> Cached(start, service).value < |start.conns|
    requires Along(start, s, tid, service, dial)
    requires var pc := s.calls[tid].pc; pc.SlowRead? || pc.SlowCheck? || pc.SlowClose? || pc.Unlock?
    ensures var t := SlowStep(s, tid); t.Some? && Along(start, t.value, tid, service, dial)
  {
    if s.calls[tid].pc.SlowClose? {
      var closed := EntryClosed(start, service);
      assert CloseAt(closed, s.calls[tid].pc.conn) == closed;
    }
  }

  lemma AlongDial(start: State, s: State, tid: Tid, service: string, dial: Option<Connectivity>)
    requires Cached(start, service).Some? ==> Cached(start, service).value < |start.conns|
    requires Along(start, s, tid, service, dial)
    requires s.calls[tid].pc.Dial? && dial != Some(Shutdown)
    ensures var t := Step(s, AloneNext(s, tid, dial)); t.Some? && Along(start, t.value, tid, service, dial)
  {
  }

  lemma AlongDialed(start: State, s: State, tid: Tid, service: string, dial: Option<Connectivity>)
    requires Cached(start, service).Some? ==> Cached(start, service).value < |start.conns|
    requires Along(start, s, tid, service, dial)
    requires s.calls[tid].pc.DialCheck? || s.calls[tid].pc.DialClose? || s.calls[tid].pc.Store?
    ensures var t := SlowStep(s, tid); t.Some? && Along(start, t.value, tid, service, dial)
  {
    if s.calls[tid].pc.DialClose? {
      var closed := EntryClosed(start, service);
      assert CloseAt(closed + [Conn(service, dial.value)], |start.conns|) == closed + [Conn(service, Shutdown)];
    }
  }

  class ConnClients {
    var conns: seq<Conn>
    var internalCache: map<string, ConnId>
    var mutexCreateConn: map<string, Option<Tid>>
    var calls: map<Tid, Call>
    ghost var past: Past

    ghost function Abstract(): State
      reads this
    {
      State(conns, internalCache, mutexCreateConn, calls, past)
    }

    ghost predicate Valid()
      reads this
    {
      Inv(Abstract())
    }

    twostate predicate Performed(a: Action, done: bool)
      reads this
    {
      var next := Step(old(Abstract()), a);
      done == next.Some? && Abstract() == if done then next.value else old(Abstract())
    }

    constructor ()
      ensures Valid() && Abstract() == INITIAL
    {
      conns, internalCache, mutexCreateConn, calls := [], map[], map[], map[];
      past := Past(map[], map[], {});
    }

    method GetRPCConn(service: string) returns (conn: Option<ConnId>)
      ensures conn == Cached(Abstract(), service)
    {
      var key := CacheKey(service);
      conn := None;
      if key in internalCache {
        conn := Some(internalCache[key]);
      }
    }

    method Goto(tid: Tid, pc: Pc)
      requires tid in calls
      modifies this`calls
      ensures calls == old(calls)[tid := old(calls)[tid].(pc := pc)]
    {
      calls := calls[tid := calls[tid].(pc := pc)];
    }

    method CloseConn(c: ConnId)
      requires c < |conns|
      modifies this`conns
      ensures conns == old(conns)[c := old(conns)[c].(state := Shutdown)]
    {
      conns := conns[c := conns[c].(state := Shutdown)];
    }

    /** One step of GetConn up to the moment it asks for the mutex. */
    method FastPath(tid: Tid) returns (done: bool)
      requires tid in calls
      requires var pc := calls[tid].pc; pc.FastRead? || pc.FastCheck? || pc.FastClose? || pc.LoadMutex? || pc.Lock?
      modifies this
      ensures Performed(Advance(tid), done)
    {
      var service := calls[tid].service;
      done := true;
      match calls[tid].pc
      case FastRead =>
        var conn := GetRPCConn(service);
        Goto(tid, match conn case Some(c) => FastCheck(c) case None => LoadMutex);
      case FastCheck(c) =>
        if c >= |conns| { return false; }
        Goto(tid, if Effective(conns[c].state) then Returned(Hit(c)) else FastClose(c));
      case FastClose(c) =>
        if c >= |conns| { return false; }
        CloseConn(c);
        Goto(tid, LoadMutex);
      case LoadMutex =>
        if service !in mutexCreateConn {
          mutexCreateConn := mutexCreateConn[service := None];
        }
        Goto(tid, Lock);
      case Lock =>
        if service !in mutexCreateConn || mutexCreateConn[service].Some? { return false; }
        mutexCreateConn := mutexCreateConn[service := Some(tid)];
        Goto(tid, SlowRead);
    }

    /** One step of GetConn while it holds the mutex. */
    method SlowPath(tid: Tid) returns (done: bool)
      requires tid in calls && Locked(calls[tid].pc) && !calls[tid].pc.Dial?
      modifies this
      ensures Performed(Advance(tid), done)
    {
      var service := calls[tid].service;
      done := true;
      match calls[tid].pc
      case SlowRead =>
        var conn := GetRPCConn(service);
        Goto(tid, match conn case Some(c) => SlowCheck(c) case None => Dial);
      case SlowCheck(c) =>
        if c >= |conns| { return false; }
        Goto(tid, if Effective(conns[c].state) then Unlock(Hit(c)) else SlowClose(c));
      case SlowClose(c) =>
        if c >= |conns| { return false; }
        CloseConn(c);
        Goto(tid, Dial);
      case DialCheck(c) =>
        if c >= |conns| { return false; }
        Goto(tid, if Effective(conns[c].state) then Store(c) else DialClose(c));
      case DialClose(c) =>
        if c >= |conns| { return false; }
        CloseConn(c);
        Goto(tid, Unlock(Dialed(c)));
      case Store(c) =>
        internalCache := internalCache[CacheKey(service) := c];
        Goto(tid, Unlock(Dialed(c)));
      case Unlock(result) =>
        mutexCreateConn := mutexCreateConn[service := None];
        Goto(tid, Returned(result));
    }

    /** grpc.DialContext; state is None when it returns an error. */
    method DialContext(tid: Tid, state: Option<Connectivity>) returns (done: bool)
      requires CallIs(Abstract(), tid, Dial) && state != Some(Shutdown)
      modifies this
      ensures Performed(match state case Some(st) => DialOk(tid, st) case None => DialFail(tid), done)
    {
      past := past.(attempts := Bump(past.attempts, calls[tid].service));
      match state {
        case None =>
          past := past.(failures := Bump(past.failures, calls[tid].service));
          Goto(tid, Unlock(DialError));
        case Some(st) =>
          var dialed := |conns|;
          conns := conns + [Conn(calls[tid].service, st)];
          Goto(tid, DialCheck(dialed));
      }
      done := true;
    }

    /** GetConn from its call to its return, while no other call moves: a cached connection
        is returned if it is Idle or Ready. Otherwise it is closed, and a new one is
        dialled; that is returned even if it is not Idle or Ready, but then it is closed
        and not stored. The mutex of the service is left free. */
    method GetConn(tid: Tid, service: string, dial: Option<Connectivity>) returns (result: Result)
      requires Valid() && tid !in calls && dial != Some(Shutdown)
      requires service in mutexCreateConn ==> mutexCreateConn[service].None?
      modifies this
      ensures Valid() && calls == old(calls)[tid := Call(service, Returned(result))]
      ensures var entry := old(Cached(Abstract(), service));
              var good := entry.Some? && old(conns)[entry.value].state in {Idle, Ready};
              var rest := if entry.Some? then old(conns)[entry.value := Conn(service, Shutdown)] else old(conns);
              && (good ==> result == Hit(entry.value) && conns == old(conns) && internalCache == old(internalCache))
              && (!good && dial.None? ==>
                    result == DialError && conns == rest && internalCache == old(internalCache))
              && (!good && dial.Some? && dial.value in {Idle, Ready} ==>
                    && result == Dialed(|old(conns)|) && conns == rest + [Conn(service, dial.value)]
                    && internalCache == old(internalCache)[CacheKey(service) := |old(conns)|])
              && (!good && dial.Some? && dial.value in {Connecting, TransientFailure} ==>
                    && result == Dialed(|old(conns)|) && conns == rest + [Conn(service, Shutdown)]
                    && internalCache == old(internalCache))
      ensures service in mutexCreateConn ==> mutexCreateConn[service].None?
    {
      ghost var start := Abstract();
      StepKeepsInv(start, Action.Enter(tid, service));
      calls := calls[tid := Call(service, FastRead)];
      while !calls[tid].pc.Returned?
        invariant Valid() && Along(start, Abstract(), tid, service, dial)
        decreases Rank(calls[tid].pc)
      {
        ghost var before := Abstract();
        ghost var step := AloneNext(before, tid, dial);
        AlongSteps(start, before, tid, service, dial);
        if calls[tid].pc.Dial? {
          var _ := DialContext(tid, dial);
        } else if Locked(calls[tid].pc) {
          var _ := SlowPath(tid);
        } else {
          var _ := FastPath(tid);
        }
        StepKeepsInv(before, step);
        StepsOfACallAreBounded(before, step, tid);
      }
      result := calls[tid].pc.result;
    }
  }
}
