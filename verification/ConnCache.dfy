/** ConnClient.GetConn and its cache (util/client_conn/client_conn.go, conn_cache.go) as a
    transition system: any number of concurrent calls for any number of services, with
    the connections changing state under them.

    One step is one access to shared state: a cache read or write, the LoadOrStore of a
    mutex, Lock, Unlock, GetState, Close or DialContext. */
module ConnCache {
  import opened Prelude

  /** grpc's connectivity states. Shutdown is what Close leads to, and nothing leaves it. */
  datatype Connectivity = Idle | Connecting | Ready | TransientFailure | Shutdown

  datatype Conn = Conn(service: string, state: Connectivity)

  /** A connection is its index in the list of successful dials. */
  type ConnId = nat

  type Tid = nat

  datatype Result =
    | Hit(conn: ConnId)       // from the cache, its state found Idle or Ready
    | Dialed(conn: ConnId)    // from a successful dial
    | DialError

  datatype Pc =
    | FastRead                 // getRPCConn before the lock
    | FastCheck(conn: ConnId)  // GetState in justConnEffective
    | FastClose(conn: ConnId)  // Close in justConnEffective
    | LoadMutex                // mutexCreateConn.LoadOrStore
    | Lock
    // from here to Unlock the call holds the mutex of its service
    | SlowRead
    | SlowCheck(conn: ConnId)
    | SlowClose(conn: ConnId)
    | Dial
    | DialCheck(conn: ConnId)
    | DialClose(conn: ConnId)
    | Store(conn: ConnId)
    | Unlock(result: Result)
    | Returned(result: Result)

  datatype Call = Call(service: string, pc: Pc)

  datatype State = State(
    conns: seq<Conn>,
    cache: map<string, ConnId>,         // internalCache, by cache key
    mutexes: map<string, Option<Tid>>,  // mutexCreateConn, by service: the holder
    calls: map<Tid, Call>,
    past: Past)

  /** What no step depends on. */
  datatype Past = Past(
    attempts: map<string, nat>,  // DialContext calls, by service
    failures: map<string, nat>,  // those that returned an error
    orphans: set<ConnId>)        // connections evicted from the cache, or refused by it

  datatype Action =
    | Enter(tid: Tid, service: string)
    | Advance(tid: Tid)                    // the next step of a call, when it is determined
    | DialOk(tid: Tid, state: Connectivity)
    | DialFail(tid: Tid)
    | StoreFail(tid: Tid)                  // internalCache.Set returns an error
    | Change(conn: ConnId, state: Connectivity)  // to Shutdown when whoever got it closes it
    | Evict(service: string)               // the LRU cache drops an entry

  function CacheKey(service: string): (key: string)
    ensures |key| >= 8 && key[..8] == "kelvins-" && key[8..] == service
  {
    "kelvins-" + service
  }

  const INITIAL: State := State([], map[], map[], map[], Past(map[], map[], {}))

  function Tally(counts: map<string, nat>, service: string): nat {
    if service in counts then counts[service] else 0
  }

  function Bump(counts: map<string, nat>, service: string): map<string, nat> {
    counts[service := Tally(counts, service) + 1]
  }

  predicate Effective(state: Connectivity) {
    state == Idle || state == Ready
  }

  function Cached(s: State, service: string): Option<ConnId> {
    var key := CacheKey(service);
    if key in s.cache then Some(s.cache[key]) else None
  }

  function Close(s: State, c: ConnId): State
    requires c < |s.conns|
  {
    s.(conns := s.conns[c := s.conns[c].(state := Shutdown)])
  }

  function Orphan(s: State, c: ConnId): State {
    s.(past := s.past.(orphans := s.past.orphans + {c}))
  }

  function Goto(s: State, tid: Tid, pc: Pc): State
    requires tid in s.calls
  {
    s.(calls := s.calls[tid := s.calls[tid].(pc := pc)])
  }

  /** Whether the call stands between Lock and Unlock. */
  predicate Locked(pc: Pc) {
    pc.SlowRead? || pc.SlowCheck? || pc.SlowClose? || pc.Dial? || pc.DialCheck? || pc.DialClose? ||
    pc.Store? || pc.Unlock?
  }

  /** The next step of a call whose outcome is determined by the state. */
  function AdvanceStep(s: State, tid: Tid): Option<State>
    requires tid in s.calls
  {
    if Locked(s.calls[tid].pc) then SlowStep(s, tid) else FastStep(s, tid)
  }

  /** Up to the moment the call has the mutex. */
  function FastStep(s: State, tid: Tid): Option<State>
    requires tid in s.calls && !Locked(s.calls[tid].pc)
  {
    var service := s.calls[tid].service;
    match s.calls[tid].pc
    case FastRead =>
      Some(Goto(s, tid, match Cached(s, service) case Some(c) => FastCheck(c) case None => LoadMutex))
    case FastCheck(c) =>
      if c >= |s.conns| then None
      else Some(Goto(s, tid, if Effective(s.conns[c].state) then Returned(Hit(c)) else FastClose(c)))
    case FastClose(c) =>
      if c >= |s.conns| then None else Some(Goto(Close(s, c), tid, LoadMutex))
    case LoadMutex =>
      Some(Goto(if service in s.mutexes then s else s.(mutexes := s.mutexes[service := None]), tid, Lock))
    case Lock =>
      if service !in s.mutexes || s.mutexes[service].Some? then None
      else Some(Goto(s.(mutexes := s.mutexes[service := Some(tid)]), tid, SlowRead))
    case Returned(_) => None
  }

  /** While the call has the mutex. */
  function SlowStep(s: State, tid: Tid): Option<State>
    requires tid in s.calls && Locked(s.calls[tid].pc)
  {
    var service := s.calls[tid].service;
    match s.calls[tid].pc
    case SlowRead =>
      Some(Goto(s, tid, match Cached(s, service) case Some(c) => SlowCheck(c) case None => Dial))
    case SlowCheck(c) =>
      if c >= |s.conns| then None
      else Some(Goto(s, tid, if Effective(s.conns[c].state) then Unlock(Hit(c)) else SlowClose(c)))
    case SlowClose(c) =>
      if c >= |s.conns| then None else Some(Goto(Close(s, c), tid, Dial))
    case Dial => None
    case DialCheck(c) =>
      if c >= |s.conns| then None
      else Some(Goto(s, tid, if Effective(s.conns[c].state) then Store(c) else DialClose(c)))
    case DialClose(c) =>
      if c >= |s.conns| then None else Some(Goto(Close(s, c), tid, Unlock(Dialed(c))))
    case Store(c) =>
      Some(Goto(s.(cache := s.cache[CacheKey(service) := c]), tid, Unlock(Dialed(c))))
    case Unlock(result) =>
      Some(Goto(s.(mutexes := s.mutexes[service := None]), tid, Returned(result)))
  }

  predicate CallIs(s: State, tid: Tid, pc: Pc) {
    tid in s.calls && s.calls[tid].pc == pc
  }

  function Step(s: State, a: Action): Option<State> {
    match a
    case Enter(tid, service) =>
      if tid in s.calls then None else Some(s.(calls := s.calls[tid := Call(service, FastRead)]))
    case Advance(tid) =>
      if tid !in s.calls then None else AdvanceStep(s, tid)
    case DialOk(tid, state) =>
      if !CallIs(s, tid, Dial) || state == Shutdown then None
      else
        var service := s.calls[tid].service;
        var past := s.past.(attempts := Bump(s.past.attempts, service));
        Some(Goto(s.(conns := s.conns + [Conn(service, state)], past := past), tid, DialCheck(|s.conns|)))
    case DialFail(tid) =>
      if !CallIs(s, tid, Dial) then None
      else
        var service := s.calls[tid].service;
        var past := s.past.(attempts := Bump(s.past.attempts, service), failures := Bump(s.past.failures, service));
        Some(Goto(s.(past := past), tid, Unlock(DialError)))
    case StoreFail(tid) =>
      if tid !in s.calls || !s.calls[tid].pc.Store? then None
      else
        var c := s.calls[tid].pc.conn;
        Some(Goto(Orphan(s, c), tid, Unlock(Dialed(c))))
    case Change(c, state) =>
      if c >= |s.conns| || s.conns[c].state == Shutdown then None
      else Some(s.(conns := s.conns[c := s.conns[c].(state := state)]))
    case Evict(service) =>
      if Cached(s, service).None? then None
      else Some(Orphan(s.(cache := s.cache - {CacheKey(service)}), Cached(s, service).value))
  }
}
