/** Invariants of GetConn in every interleaving, and what they mean for whole runs. */
module ConnCacheProofs {
  import opened Prelude
  import opened ConnCache

  /** Between its dial and its store, a call is the one that knows the connection. */
  predicate Carries(pc: Pc, c: ConnId) {
    (pc.DialCheck? || pc.DialClose? || pc.Store?) && pc.conn == c
  }

  ghost predicate IsOpen(s: State, c: ConnId) {
    c < |s.conns| && s.conns[c].state != Shutdown
  }

  ghost predicate IsConnOf(s: State, c: ConnId, service: string) {
    c < |s.conns| && s.conns[c].service == service
  }

  ghost predicate ResultOk(s: State, r: Result, service: string) {
    r.DialError? || IsConnOf(s, r.conn, service)
  }

  /** The connection a call refers to belongs to its service. */
  ghost predicate CallOk(s: State, call: Call) {
    match call.pc
    case Lock => call.service in s.mutexes
    case FastCheck(c) => IsConnOf(s, c, call.service)
    case FastClose(c) => IsConnOf(s, c, call.service)
    case SlowCheck(c) => IsConnOf(s, c, call.service)
    case SlowClose(c) => IsConnOf(s, c, call.service)
    case DialCheck(c) => IsConnOf(s, c, call.service)
    case DialClose(c) => IsConnOf(s, c, call.service)
    case Store(c) => IsConnOf(s, c, call.service)
    case Unlock(r) => ResultOk(s, r, call.service)
    case Returned(r) => ResultOk(s, r, call.service)
    case _ => true
  }

  ghost predicate Typed(s: State) {
    && (forall service :: Cached(s, service).Some? ==> IsConnOf(s, Cached(s, service).value, service))
    && (forall tid :: tid in s.calls ==> CallOk(s, s.calls[tid]))
    && (forall c :: c in s.past.orphans ==> c < |s.conns|)
  }

  ghost function ConnsOf(conns: seq<Conn>, service: string): set<ConnId> {
    set c: ConnId | c < |conns| && conns[c].service == service
  }

  /** Every dial of a service failed or gave one connection. */
  ghost predicate DialsInv(s: State) {
    forall service :: Tally(s.past.attempts, service) == Tally(s.past.failures, service) + |ConnsOf(s.conns, service)|
  }

  /** A call between Lock and Unlock is the holder of its service's mutex. */
  ghost predicate MutexInv(s: State) {
    && (forall tid :: tid in s.calls && Locked(s.calls[tid].pc) ==>
          s.calls[tid].service in s.mutexes && s.mutexes[s.calls[tid].service] == Some(tid))
    && (forall service :: service in s.mutexes && s.mutexes[service].Some? ==>
          var tid := s.mutexes[service].value;
          tid in s.calls && s.calls[tid].service == service && Locked(s.calls[tid].pc))
  }

  /** What the mutex holder knows about the cache entry of its service: while it checks
      an entry, the cache has that entry or none; once it goes on to dial, the cache has
      no open connection. */
  ghost predicate HolderInv(s: State, call: Call) {
    var entry := Cached(s, call.service);
    && (call.pc.SlowCheck? || call.pc.SlowClose? ==> entry == None || entry == Some(call.pc.conn))
    && (call.pc.Dial? || call.pc.DialCheck? || call.pc.DialClose? || call.pc.Store? ==>
          entry == None || !IsOpen(s, entry.value))
  }

  ghost predicate HoldersInv(s: State) {
    forall tid :: tid in s.calls ==> HolderInv(s, s.calls[tid])
  }

  /** Where an open connection can be: in the cache, with the call that dialled it, or
      among the orphans. */
  ghost predicate Accounted(s: State, c: ConnId)
    requires c < |s.conns|
  {
    || Cached(s, s.conns[c].service) == Some(c)
    || c in s.past.orphans
    || exists tid :: tid in s.calls && Carries(s.calls[tid].pc, c)
  }

  ghost predicate AccountedInv(s: State) {
    forall c :: IsOpen(s, c) ==> Accounted(s, c)
  }

  ghost predicate Inv(s: State) {
    Typed(s) && DialsInv(s) && MutexInv(s) && HoldersInv(s) && AccountedInv(s)
  }

  // ---------- what a step does to the parts it does not act on ----------

  /** Mutexes are never removed; nor are connections, which keep their service and stay
      shut down once they are. */
  ghost predicate Grows(s: State, t: State) {
    && |s.conns| <= |t.conns| && s.mutexes.Keys <= t.mutexes.Keys
    && forall c :: 0 <= c < |s.conns| ==>
         t.conns[c].service == s.conns[c].service && (s.conns[c].state == Shutdown ==> t.conns[c].state == Shutdown)
  }

  lemma StepGrows(s: State, a: Action)
    requires Step(s, a).Some?
    ensures Grows(s, Step(s, a).value)
  {
    if a.Advance? {
      if Locked(s.calls[a.tid].pc) { SlowGrows(s, a.tid); } else { FastGrows(s, a.tid); }
    }
  }

  lemma FastGrows(s: State, tid: Tid)
    requires tid in s.calls && !Locked(s.calls[tid].pc) && FastStep(s, tid).Some?
    ensures Grows(s, FastStep(s, tid).value)
    ensures FastStep(s, tid).value.past == s.past && |FastStep(s, tid).value.conns| == |s.conns|
  {
  }

  lemma SlowGrows(s: State, tid: Tid)
    requires tid in s.calls && Locked(s.calls[tid].pc) && SlowStep(s, tid).Some?
    ensures Grows(s, SlowStep(s, tid).value)
    ensures SlowStep(s, tid).value.past == s.past && |SlowStep(s, tid).value.conns| == |s.conns|
  {
  }

  /** The call that an action moves. */
  ghost function Actor(a: Action): Option<Tid> {
    match a
    case Enter(tid, _) => Some(tid)
    case Advance(tid) => Some(tid)
    case DialOk(tid, _) => Some(tid)
    case DialFail(tid) => Some(tid)
    case StoreFail(tid) => Some(tid)
    case _ => None
  }

  lemma StepMovesOnlyActor(s: State, a: Action)
    requires Step(s, a).Some?
    ensures var t := Step(s, a).value;
            match Actor(a)
            case None => t.calls == s.calls
            case Some(tid) =>
              && tid in t.calls && t.calls == s.calls[tid := t.calls[tid]]
              && (tid in s.calls ==> t.calls[tid].service == s.calls[tid].service)
  {
    if a.Advance? { AdvanceMovesOnly(s, a.tid); }
  }

  lemma AdvanceMovesOnly(s: State, tid: Tid)
    requires tid in s.calls && AdvanceStep(s, tid).Some?
    ensures var t := AdvanceStep(s, tid).value;
            && tid in t.calls && t.calls == s.calls[tid := t.calls[tid]]
            && t.calls[tid].service == s.calls[tid].service
  {
    if Locked(s.calls[tid].pc) { SlowMovesOnly(s, tid); }
  }

  lemma SlowMovesOnly(s: State, tid: Tid)
    requires tid in s.calls && Locked(s.calls[tid].pc) && SlowStep(s, tid).Some?
    ensures var t := SlowStep(s, tid).value;
            && tid in t.calls && t.calls == s.calls[tid := t.calls[tid]]
            && t.calls[tid].service == s.calls[tid].service
  {
  }

  /** A step leaves the cache entry of a service alone, or drops it, or it is a store by
      a call for that service. */
  lemma StepAndCache(s: State, a: Action, service: string)
    requires Step(s, a).Some?
    ensures var t := Step(s, a).value;
            || Cached(t, service) == Cached(s, service)
            || (a == Evict(service) && Cached(t, service) == None && t.conns == s.conns && Cached(s, service).Some?
                && t.past.orphans == s.past.orphans + {Cached(s, service).value})
            || (a.Advance? && a.tid in s.calls && s.calls[a.tid].service == service && s.calls[a.tid].pc.Store?
                && Cached(t, service) == Some(s.calls[a.tid].pc.conn) && t.conns == s.conns)
  {
    assert forall other :: CacheKey(other) == CacheKey(service) ==> other == service by {
      forall other | CacheKey(other) == CacheKey(service) ensures other == service {
        assert CacheKey(other)[8..] == other;
      }
    }
  }

  // ---------- preservation ----------

  lemma ActorOk(s: State, a: Action)
    requires Typed(s) && Step(s, a).Some? && Actor(a).Some?
    ensures var t := Step(s, a).value; Actor(a).value in t.calls && CallOk(t, t.calls[Actor(a).value])
  {
    var tid := Actor(a).value;
    if tid in s.calls {
      assert CallOk(s, s.calls[tid]);
      assert Cached(s, s.calls[tid].service).Some? ==>
               IsConnOf(s, Cached(s, s.calls[tid].service).value, s.calls[tid].service);
      if a.Advance? {
        if Locked(s.calls[tid].pc) { SlowOk(s, tid); } else { FastOk(s, tid); }
      }
    }
  }

  lemma FastOk(s: State, tid: Tid)
    requires tid in s.calls && !Locked(s.calls[tid].pc) && FastStep(s, tid).Some? && CallOk(s, s.calls[tid])
    requires var service := s.calls[tid].service;
             Cached(s, service).Some? ==> IsConnOf(s, Cached(s, service).value, service)
    ensures var t := FastStep(s, tid).value; tid in t.calls && CallOk(t, t.calls[tid])
  {
  }

  lemma SlowOk(s: State, tid: Tid)
    requires tid in s.calls && Locked(s.calls[tid].pc) && SlowStep(s, tid).Some? && CallOk(s, s.calls[tid])
    requires var service := s.calls[tid].service;
             Cached(s, service).Some? ==> IsConnOf(s, Cached(s, service).value, service)
    ensures var t := SlowStep(s, tid).value; tid in t.calls && CallOk(t, t.calls[tid])
  {
  }

  lemma GrownCallOk(s: State, t: State, call: Call)
    requires Grows(s, t) && CallOk(s, call)
    ensures CallOk(t, call)
  {
  }

  lemma StepKeepsTyped(s: State, a: Action)
    requires Typed(s) && Step(s, a).Some?
    ensures Typed(Step(s, a).value)
  {
    var t := Step(s, a).value;
    StepGrows(s, a);
    StepMovesOnlyActor(s, a);
    forall tid | tid in t.calls ensures CallOk(t, t.calls[tid]) {
      if Actor(a) == Some(tid) { ActorOk(s, a); } else { GrownCallOk(s, t, s.calls[tid]); }
    }
    forall service | Cached(t, service).Some? ensures IsConnOf(t, Cached(t, service).value, service) {
      StepAndCache(s, a, service);
      if Cached(t, service) != Cached(s, service) { assert CallOk(s, s.calls[a.tid]); }
    }
    OrphansStep(s, a);
  }

  lemma OrphansStep(s: State, a: Action)
    requires Typed(s) && Step(s, a).Some?
    ensures var t := Step(s, a).value; forall c :: c in t.past.orphans ==> c < |t.conns|
  {
    StepGrows(s, a);
    if a.StoreFail? { assert CallOk(s, s.calls[a.tid]); }
    if a.Evict? { assert IsConnOf(s, Cached(s, a.service).value, a.service); }
  }

  /** Only a dial changes the counts and the connections of a service. */
  lemma StepAndDials(s: State, a: Action)
    requires Step(s, a).Some?
    ensures var t := Step(s, a).value;
            match a
            case DialOk(tid, state) => t.past.attempts == Bump(s.past.attempts, s.calls[tid].service) && t.past.failures == s.past.failures &&
                                       t.conns == s.conns + [Conn(s.calls[tid].service, state)]
            case DialFail(tid) => t.past.attempts == Bump(s.past.attempts, s.calls[tid].service) && t.conns == s.conns &&
                                  t.past.failures == Bump(s.past.failures, s.calls[tid].service)
            case _ => t.past.attempts == s.past.attempts && t.past.failures == s.past.failures && |t.conns| == |s.conns|
  {
    if a.Advance? {
      if Locked(s.calls[a.tid].pc) { SlowGrows(s, a.tid); } else { FastGrows(s, a.tid); }
    }
  }

  lemma StepKeepsDials(s: State, a: Action)
    requires DialsInv(s) && Step(s, a).Some?
    ensures DialsInv(Step(s, a).value)
  {
    var t := Step(s, a).value;
    StepAndDials(s, a);
    StepGrows(s, a);
    if a.DialOk? {
      DialCounts(s, t, s.calls[a.tid].service);
    } else {
      NoDialCounts(s, t);
    }
  }

  lemma DialCounts(s: State, t: State, dialed: string)
    requires DialsInv(s) && |t.conns| > 0 && t.conns[..|t.conns| - 1] == s.conns && t.conns[|s.conns|].service == dialed
    requires t.past.attempts == Bump(s.past.attempts, dialed) && t.past.failures == s.past.failures
    ensures DialsInv(t)
  {
    forall service
      ensures Tally(t.past.attempts, service) == Tally(t.past.failures, service) + |ConnsOf(t.conns, service)|
    {
      OneMoreConn(t.conns, service);
    }
  }

  lemma OneMoreConn(conns: seq<Conn>, service: string)
    requires |conns| > 0
    ensures var last := |conns| - 1;
            |ConnsOf(conns, service)| == |ConnsOf(conns[..last], service)| + if conns[last].service == service then 1 else 0
  {
    var last := |conns| - 1;
    var before := ConnsOf(conns[..last], service);
    if conns[last].service == service {
      assert ConnsOf(conns, service) == before + {last};
    } else {
      assert ConnsOf(conns, service) == before;
    }
  }

  lemma NoDialCounts(s: State, t: State)
    requires DialsInv(s) && |t.conns| == |s.conns|
    requires forall c :: 0 <= c < |s.conns| ==> t.conns[c].service == s.conns[c].service
    requires forall service :: Tally(t.past.attempts, service) - Tally(t.past.failures, service) ==
                               Tally(s.past.attempts, service) - Tally(s.past.failures, service)
    ensures DialsInv(t)
  {
    forall service
      ensures Tally(t.past.attempts, service) == Tally(t.past.failures, service) + |ConnsOf(t.conns, service)|
    {
      assert ConnsOf(t.conns, service) == ConnsOf(s.conns, service);
    }
  }

  lemma StepKeepsMutexes(s: State, a: Action)
    requires MutexInv(s) && Step(s, a).Some?
    ensures MutexInv(Step(s, a).value)
  {
    var t := Step(s, a).value;
    StepMovesOnlyActor(s, a);
    if Actor(a).Some? && Actor(a).value in s.calls { MutexesAround(s, a); }
  }

  /** How the step of a call changes the mutexes. */
  lemma MutexesAround(s: State, a: Action)
    requires Step(s, a).Some? && Actor(a).Some? && Actor(a).value in s.calls
    ensures var t := Step(s, a).value;
            var tid := Actor(a).value;
            var service := s.calls[tid].service;
            match s.calls[tid].pc
            case LoadMutex => !Locked(t.calls[tid].pc) &&
              t.mutexes == if service in s.mutexes then s.mutexes else s.mutexes[service := None]
            case Lock => Locked(t.calls[tid].pc) && service in s.mutexes && s.mutexes[service] == None &&
              t.mutexes == s.mutexes[service := Some(tid)]
            case Unlock(_) => !Locked(t.calls[tid].pc) && t.mutexes == s.mutexes[service := None]
            case _ => t.mutexes == s.mutexes && Locked(t.calls[tid].pc) == Locked(s.calls[tid].pc)
  {
  }

  lemma StepKeepsHolders(s: State, a: Action)
    requires Typed(s) && MutexInv(s) && HoldersInv(s) && Step(s, a).Some?
    ensures HoldersInv(Step(s, a).value)
  {
    var t := Step(s, a).value;
    StepMovesOnlyActor(s, a);
    forall tid | tid in t.calls ensures HolderInv(t, t.calls[tid]) {
      if Actor(a) == Some(tid) { ActorHolds(s, a); } else { BystanderHolds(s, a, tid); }
    }
  }

  lemma ActorHolds(s: State, a: Action)
    requires Typed(s) && HoldersInv(s) && Step(s, a).Some? && Actor(a).Some?
    ensures var t := Step(s, a).value; HolderInv(t, t.calls[Actor(a).value])
  {
    StepMovesOnlyActor(s, a);
    var tid := Actor(a).value;
    if a.Advance? {
      assert HolderInv(s, s.calls[tid]);
      AdvanceHolds(s, tid);
    } else if tid in s.calls {
      assert HolderInv(s, s.calls[tid]);
      assert Cached(s, s.calls[tid].service).Some? ==>
               IsConnOf(s, Cached(s, s.calls[tid].service).value, s.calls[tid].service);
    }
  }

  lemma AdvanceHolds(s: State, tid: Tid)
    requires tid in s.calls && HolderInv(s, s.calls[tid]) && AdvanceStep(s, tid).Some?
    ensures var t := AdvanceStep(s, tid).value; tid in t.calls && HolderInv(t, t.calls[tid])
  {
    if s.calls[tid].pc.SlowRead? || s.calls[tid].pc.SlowCheck? || s.calls[tid].pc.SlowClose? {
      RecheckHolds(s, tid);
    }
  }

  lemma RecheckHolds(s: State, tid: Tid)
    requires tid in s.calls && HolderInv(s, s.calls[tid]) && AdvanceStep(s, tid).Some?
    requires s.calls[tid].pc.SlowRead? || s.calls[tid].pc.SlowCheck? || s.calls[tid].pc.SlowClose?
    ensures var t := AdvanceStep(s, tid).value; tid in t.calls && HolderInv(t, t.calls[tid])
  {
  }

  lemma BystanderHolds(s: State, a: Action, tid: Tid)
    requires Typed(s) && MutexInv(s) && HoldersInv(s) && Step(s, a).Some?
    requires tid in s.calls && Actor(a) != Some(tid)
    ensures HolderInv(Step(s, a).value, s.calls[tid])
  {
    var call := s.calls[tid];
    assert HolderInv(s, call);
    StepAndCache(s, a, call.service);
    StepGrows(s, a);
    assert Cached(s, call.service).Some? ==> IsConnOf(s, Cached(s, call.service).value, call.service);
    // a store for this service would be by the holder of its mutex, which is not tid
    if Locked(call.pc) { assert s.mutexes[call.service] == Some(tid); }
  }

  lemma StepKeepsAccounted(s: State, a: Action)
    requires Inv(s) && Step(s, a).Some?
    ensures AccountedInv(Step(s, a).value)
  {
    var t := Step(s, a).value;
    forall c | IsOpen(t, c) ensures Accounted(t, c) {
      StepMovesOnlyActor(s, a);
      StepGrows(s, a);
      if c == |s.conns| {
        assert a.DialOk?;
        assert Carries(t.calls[a.tid].pc, c);
      } else {
        assert IsOpen(s, c);
        StillAccounted(s, a, c);
      }
    }
  }

  lemma StillAccounted(s: State, a: Action, c: ConnId)
    requires Inv(s) && Step(s, a).Some? && IsOpen(s, c) && IsOpen(Step(s, a).value, c)
    ensures Accounted(Step(s, a).value, c)
  {
    var t := Step(s, a).value;
    var service := s.conns[c].service;
    StepMovesOnlyActor(s, a);
    StepGrows(s, a);
    OrphansStay(s, a);
    if c in s.past.orphans {
    } else if Cached(s, service) == Some(c) {
      StepAndCache(s, a, service);
      if a.Advance? && a.tid in s.calls && s.calls[a.tid].pc.Store? && s.calls[a.tid].service == service {
        assert HolderInv(s, s.calls[a.tid]);
      }
    } else {
      var tid :| tid in s.calls && Carries(s.calls[tid].pc, c);
      assert CallOk(s, s.calls[tid]);
      if Actor(a) == Some(tid) { CarrierMoves(s, a, tid, c); } else { assert Carries(t.calls[tid].pc, c); }
    }
  }

  lemma OrphansStay(s: State, a: Action)
    requires Step(s, a).Some?
    ensures s.past.orphans <= Step(s, a).value.past.orphans
  {
  }

  lemma CarrierMoves(s: State, a: Action, tid: Tid, c: ConnId)
    requires Typed(s) && Step(s, a).Some? && Actor(a) == Some(tid) && tid in s.calls && Carries(s.calls[tid].pc, c)
    requires IsConnOf(s, c, s.calls[tid].service) && IsOpen(Step(s, a).value, c)
    ensures Accounted(Step(s, a).value, c)
  {
    var t := Step(s, a).value;
    StepMovesOnlyActor(s, a);
    StepGrows(s, a);
    if s.calls[tid].pc.DialCheck? {
      assert Carries(t.calls[tid].pc, c);
    } else if s.calls[tid].pc.Store? {
      assert Cached(t, s.calls[tid].service) == Some(c) || c in t.past.orphans;
    }
  }

  lemma StepKeepsInv(s: State, a: Action)
    requires Inv(s) && Step(s, a).Some?
    ensures Inv(Step(s, a).value)
  {
    StepKeepsTyped(s, a);
    StepKeepsDials(s, a);
    StepKeepsMutexes(s, a);
    StepKeepsHolders(s, a);
    StepKeepsAccounted(s, a);
  }
}
