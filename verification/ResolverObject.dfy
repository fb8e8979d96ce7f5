/** The goroutines of util/client_conn/resolver.go and of Watch in
    internal/service/slb/etcdconfig/service_config.go over the channels they share, one
    channel operation per method call. Every method is proved against Resolver.Step. */
module ResolverObject {
  import opened Prelude
  import opened Resolver
  import opened ResolverProofs

  ghost predicate NotifierRests(s: State) {
    && (s.watch == InNext || s.watch == WatchDone)
    && (s.listen == ListenDone || (s.listen == Range && !s.notice && !s.noticeClosed))
  }

  ghost predicate WatcherRests(s: State) {
    s.resolver == Exited || (s.resolver == Select && !s.rn)
  }

  ghost predicate CallsRest(s: State) {
    forall tid :: tid in s.calls ==> s.calls[tid] == CallReturned
  }

  /** No goroutine can move without a new event, a new call or a shutdown. */
  ghost predicate AtRest(s: State) {
    NotifierRests(s) && CallsRest(s) && WatcherRests(s)
  }

  /** A step without new events and shutdowns: it leaves those as they were and brings the
      pipeline closer to its rest. */
  ghost predicate Onward(s: State, t: State) {
    && Measure(t) < Measure(s)
    && Stopped(t) == Stopped(s) && t.events == s.events && t.requests >= s.requests
    && SeesByStarting(s, t)
  }

  /** Whatever was seen in between was seen by a resolution started in between. */
  ghost predicate SeesByStarting(s: State, t: State) {
    && t.seenEvents >= s.seenEvents && |t.starts| >= |s.starts|
    && (t.seenEvents > s.seenEvents ==> |t.starts| > |s.starts|)
  }

  /** Nothing is on its way to a resolution; at most Watch has to poll again. */
  ghost predicate OnlyPolling(s: State) {
    && !Stopped(s) && (s.watch == Poll || s.watch == InNext)
    && s.listen == Range && !s.notice && !s.noticeClosed && CallsRest(s) && s.resolver == Select && !s.rn
  }

  lemma StepResolves(s: State, a: Action)
    requires NothingLost(s) && Internal(a) && Step(s, a).Some?
    ensures SeesByStarting(s, Step(s, a).value)
  {
    match a
    case WatchStep => OnlyResolverSees(s);
    case ListenStep => OnlyResolverSees(s);
    case CallStep(tid) => assert CallNext(s, tid).value.starts == s.starts;
    case _ =>
  }

  lemma OnlyResolverSees(s: State)
    ensures WatchNext(s).Some? ==> WatchNext(s).value.starts == s.starts && WatchNext(s).value.seenEvents == s.seenEvents
    ensures ListenNext(s).Some? ==> ListenNext(s).value.starts == s.starts && ListenNext(s).value.seenEvents == s.seenEvents
  {
  }

  lemma MovesOnward(s: State, a: Action)
    requires Inv(s) && Internal(a) && Step(s, a).Some?
    ensures Inv(Step(s, a).value) && Onward(s, Step(s, a).value)
  {
    StepKeepsInv(s, a);
    MeasureDrops(s, a);
    InternalStepKeeps(s, a);
    StepResolves(s, a);
  }

  lemma RestMeansSeen(s: State)
    requires Inv(s) && AtRest(s) && !Stopped(s)
    ensures s.seenEvents == s.events && s.seenRequests == s.requests && s.listen == Range && s.resolver == Select
    ensures s.starts != []
  {
    assert At(s.calls, CallPush) == {};
  }

  class KelvinsResolver {
    var watch: WatchPc
    var notice: bool
    var noticeClosed: bool
    var listen: ListenPc
    var calls: map<Tid, CallPc>
    var rn: bool
    var resolver: ResolverPc
    var cancelled: bool
    var appClosed: bool
    var now: nat
    ghost var events: nat
    ghost var seenEvents: nat
    ghost var requests: nat
    ghost var seenRequests: nat
    ghost var starts: seq<nat>

    ghost function Abstract(): State
      reads this
    {
      State(watch, notice, noticeClosed, listen, calls, rn, resolver, cancelled, appClosed, now,
            events, seenEvents, requests, seenRequests, starts)
    }

    ghost predicate Valid()
      reads this
    {
      Inv(Abstract())
    }

    twostate predicate Performed(a: Action, done: bool)
      reads this
    {
      var next := Step(old(Abstract()), a);
      done == next.Some? && Abstract() == if done then next.value else old(Abstract())
    }

    constructor Build()
      ensures Valid() && Abstract() == BUILT
    {
      watch, notice, noticeClosed, listen := Poll, false, false, Range;
      calls, rn, resolver := map[0 := CallDrain], false, Select;
      cancelled, appClosed, now := false, false, 0;
      events, seenEvents, requests, seenRequests, starts := 0, 0, 0, 0, [];
      new;
      assert 0 !in At(calls, CallPush);
    }

    /** watcher.Next returns: a change, a "get", or an error after which Watch polls again. */
    method NextReturns(change: bool)
      requires watch == InNext
      modifies this
      ensures Performed(if change then NextChange else NextGet, true)
    {
      if change {
        events := events + 1;
        watch := Drain;
      } else {
        watch := Poll;
      }
    }

    /** Watch: poll, drain the slot, push, or close it on the way out. */
    method Watch() returns (done: bool)
      modifies this
      ensures Performed(WatchStep, done)
    {
      done := true;
      match watch
      case Poll => watch := if cancelled || appClosed then Closing else InNext;
      case InNext => done := false;
      case Drain => notice, watch := false, Push;
      case Push =>
        if notice || noticeClosed { return false; }
        notice, watch := true, Poll;
      case Closing => noticeClosed, watch := true, WatchDone;
      case WatchDone => done := false;
    }

    /** listenEtcd: a range over notice that calls ResolveNow. */
    method ListenEtcd() returns (done: bool)
      modifies this
      ensures Performed(ListenStep, done)
    {
      done := true;
      match listen
      case Range =>
        if notice {
          notice, listen := false, ListenDrain;
        } else if noticeClosed {
          listen := ListenDone;
        } else {
          done := false;
        }
      case ListenDrain =>
        requests := requests + 1;
        rn, listen := false, ListenPush;
      case ListenPush => rn, listen := true, Range;
      case ListenDone => done := false;
    }

    /** ResolveNow by any other goroutine. */
    method ResolveNow(tid: Tid) returns (done: bool)
      requires tid in calls
      modifies this
      ensures Performed(CallStep(tid), done)
    {
      done := true;
      match calls[tid]
      case CallDrain =>
        requests := requests + 1;
        rn, calls := false, calls[tid := CallPush];
      case CallPush => rn, calls := true, calls[tid := CallReturned];
      case CallReturned => done := false;
    }

    /** watcher: take a token, resolve, and start the timer. */
    method Watcher() returns (done: bool)
      modifies this
      ensures Performed(ResolverStep, done)
    {
      done := true;
      match resolver
      case Select =>
        if !rn { return false; }
        rn, resolver := false, Took;
      case Took =>
        seenEvents, seenRequests, starts := events, requests, starts + [now];
        resolver := Resolving;
      case Resolving => resolver := Sleeping(now + MIN_RESOLVER_RATE);
      case Sleeping(_) => done := false;
      case Exited => done := false;
    }

    /** The second select of watcher: the timer, or a shutdown. */
    method AfterSleep(late: nat, stop: bool) returns (done: bool)
      requires resolver.Sleeping?
      modifies this
      ensures Performed(if stop then ResolverStop else Wake(late), done)
    {
      done := true;
      if stop {
        if !cancelled && !appClosed { return false; }
        resolver := Exited;
      } else {
        now := (if now < resolver.due then resolver.due else now) + late;
        resolver := Select;
      }
    }

    /** One step of Watch or listenEtcd, if either can take one. */
    method MoveNotifier() returns (done: bool)
      requires Valid()
      modifies this
      ensures Valid() && done == !old(NotifierRests(Abstract()))
      ensures old(OnlyPolling(Abstract())) ==> OnlyPolling(Abstract()) && starts == old(starts)
      ensures if done then Onward(old(Abstract()), Abstract()) else Abstract() == old(Abstract())
    {
      ghost var before := Abstract();
      if watch != InNext && watch != WatchDone {
        done := Watch();
        MovesOnward(before, WatchStep);
      } else if listen == ListenDrain || listen == ListenPush || (listen == Range && (notice || noticeClosed)) {
        done := ListenEtcd();
        MovesOnward(before, ListenStep);
      } else {
        done := false;
      }
    }

    /** One step of the watcher, if it can take one. */
    method MoveWatcher() returns (done: bool)
      requires Valid()
      modifies this
      ensures Valid() && done == !old(WatcherRests(Abstract()))
      ensures if done then Onward(old(Abstract()), Abstract()) else Abstract() == old(Abstract())
    {
      ghost var before := Abstract();
      if resolver.Sleeping? {
        done := AfterSleep(0, false);
        MovesOnward(before, Wake(0));
      } else if resolver == Took || resolver == Resolving || (resolver == Select && rn) {
        done := Watcher();
        MovesOnward(before, ResolverStep);
      } else {
        done := false;
      }
    }

    /** One step of a call of ResolveNow, if one can take one. */
    method MoveCall() returns (done: bool)
      requires Valid()
      modifies this
      ensures Valid() && done == !old(CallsRest(Abstract()))
      ensures if done then Onward(old(Abstract()), Abstract()) else Abstract() == old(Abstract())
    {
      ghost var before := Abstract();
      var pending := set tid | tid in calls && calls[tid] != CallReturned;
      assert forall tid :: tid in calls && tid !in pending ==> calls[tid] == CallReturned;
      done := pending != {};
      if done {
        var tid :| tid in pending;
        done := ResolveNow(tid);
        MovesOnward(before, CallStep(tid));
      }
    }

    /** The goroutines run on until none can move. Unless the resolver was told to stop, the
        last resolution then began after every event delivered and every request made so
        far, both channels are empty, and every call of ResolveNow has returned. */
    method Settle()
      requires Valid()
      modifies this
      ensures Valid() && events == old(events) && requests >= old(requests)
      ensures !old(Stopped(Abstract())) ==> seenEvents == events && seenRequests == requests && |starts| > 0
      ensures seenEvents > old(seenEvents) ==> |starts| > old(|starts|)
      ensures old(OnlyPolling(Abstract())) ==> starts == old(starts)
      ensures forall tid :: tid in calls ==> calls[tid] == CallReturned
      ensures !old(Stopped(Abstract())) ==> !notice && !rn && resolver == Select && watch == InNext && listen == Range
    {
      var moved := true;
      while moved
        invariant Valid() && events == old(events) && requests >= old(requests)
        invariant Stopped(Abstract()) == old(Stopped(Abstract()))
        invariant SeesByStarting(old(Abstract()), Abstract())
        invariant old(OnlyPolling(Abstract())) ==> OnlyPolling(Abstract()) && starts == old(starts)
        invariant moved || AtRest(Abstract())
        decreases Measure(Abstract()), moved
      {
        moved := MoveNotifier();
        if !moved {
          moved := MoveCall();
        }
        if !moved {
          moved := MoveWatcher();
        }
      }
      if !Stopped(Abstract()) {
        RestMeansSeen(Abstract());
      }
    }

    /** One answer of watcher.Next, carried through: a change leads to a resolution that
        starts after it, and a "get" at rest leads to none. */
    method Answer(change: bool)
      requires Valid() && !Stopped(Abstract()) && watch == InNext
      modifies this
      ensures Valid() && events == old(events) + (if change then 1 else 0)
      ensures seenEvents == events && (change ==> |starts| > old(|starts|))
      ensures !change && old(AtRest(Abstract())) ==> starts == old(starts)
    {
      ghost var before := Abstract();
      NextReturns(change);
      StepKeepsInv(before, if change then NextChange else NextGet);
      Settle();
    }
  }

  /** A resolver built and left alone resolves, without any event. */
  method BuildAndSettle() returns (r: KelvinsResolver)
    ensures fresh(r) && r.Valid() && r.events == 0
    ensures |r.starts| > 0 && r.seenRequests == r.requests && r.resolver == Select
  {
    r := new KelvinsResolver.Build();
    r.Settle();
  }
}
