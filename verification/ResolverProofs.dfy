/** No wake-up is lost on the way from etcd to the resolver, and resolutions are no more
    frequent than the minimum rate allows. */
module ResolverProofs {
  import opened Prelude
  import opened Runs
  import opened Resolver

  // ---------- invariants ----------

  /** Watch is the only producer and the only closer of notice. */
  ghost predicate NoticeInv(s: State) {
    && (s.watch == Push ==> !s.notice)
    && (s.noticeClosed <==> s.watch == WatchDone)
    && (s.watch == Closing || s.watch == WatchDone ==> Stopped(s))
    && (s.listen == ListenDone ==> s.noticeClosed)
    && (s.resolver == Exited ==> Stopped(s))
  }

  /** A token in rn, or some goroutine that has taken it or is about to put one there. */
  ghost predicate ResolutionDue(s: State) {
    s.rn || s.listen == ListenPush || At(s.calls, CallPush) != {} || s.resolver == Took
  }

  /** A change is on its way to ResolveNow. */
  ghost predicate NoticeDue(s: State) {
    s.watch == Drain || s.watch == Push || s.notice || s.listen == ListenDrain
  }

  /** The first call of ResolveNow, and nothing seen before a resolution has started. */
  ghost predicate FirstInv(s: State) {
    && 0 in s.calls && (s.calls[0] == CallDrain || s.requests > 0)
    && (s.starts == [] ==> s.seenRequests == 0)
  }

  ghost predicate NothingLost(s: State) {
    && FirstInv(s)
    && s.seenEvents <= s.events && s.seenRequests <= s.requests
    && (s.seenRequests < s.requests ==> Stopped(s) || ResolutionDue(s))
    && (s.seenEvents < s.events ==> Stopped(s) || NoticeDue(s) || ResolutionDue(s))
  }

  ghost predicate Spaced(starts: seq<nat>) {
    forall i :: 0 <= i < |starts| - 1 ==> starts[i] + MIN_RESOLVER_RATE <= starts[i + 1]
  }

  ghost predicate RateInv(s: State) {
    && Spaced(s.starts)
    && (s.starts != [] ==>
          var last := s.starts[|s.starts| - 1];
          match s.resolver
          case Select => last + MIN_RESOLVER_RATE <= s.now
          case Took => last + MIN_RESOLVER_RATE <= s.now
          case Resolving => last <= s.now
          case Sleeping(due) => last + MIN_RESOLVER_RATE <= due
          case Exited => true)
  }

  ghost predicate Inv(s: State) {
    NoticeInv(s) && NothingLost(s) && RateInv(s)
  }

  lemma WatchKeeps(s: State)
    requires NoticeInv(s) && NothingLost(s) && WatchNext(s).Some?
    ensures NoticeInv(WatchNext(s).value) && NothingLost(WatchNext(s).value)
  {
  }

  lemma ListenKeeps(s: State)
    requires NoticeInv(s) && NothingLost(s) && ListenNext(s).Some?
    ensures NoticeInv(ListenNext(s).value) && NothingLost(ListenNext(s).value)
  {
  }

  lemma CallKeeps(s: State, tid: Tid)
    requires NoticeInv(s) && NothingLost(s) && tid in s.calls && CallNext(s, tid).Some?
    ensures NoticeInv(CallNext(s, tid).value) && NothingLost(CallNext(s, tid).value)
  {
    AtUpdate(s.calls, tid, CallPush, CallPush);
    AtUpdate(s.calls, tid, CallReturned, CallPush);
  }

  lemma ResolverKeeps(s: State)
    requires NoticeInv(s) && NothingLost(s) && ResolverNext(s).Some?
    ensures NoticeInv(ResolverNext(s).value) && NothingLost(ResolverNext(s).value)
  {
  }

  lemma ResolverKeepsRate(s: State)
    requires RateInv(s) && ResolverNext(s).Some?
    ensures RateInv(ResolverNext(s).value)
  {
  }

  lemma EnvironmentKeeps(s: State, a: Action)
    requires NoticeInv(s) && NothingLost(s) && RateInv(s) && Step(s, a).Some?
    requires a.NextChange? || a.NextGet? || a.NextError? || a.Enter?
    ensures var t := Step(s, a).value; NoticeInv(t) && NothingLost(t) && RateInv(t)
  {
    if a.Enter? { AtUpdate(s.calls, a.tid, CallDrain, CallPush); }
  }

  lemma TimeKeeps(s: State, a: Action)
    requires NoticeInv(s) && NothingLost(s) && RateInv(s) && Step(s, a).Some?
    requires a.Wake? || a.Tick? || a.ResolverStop? || a.Cancel? || a.CloseApp?
    ensures var t := Step(s, a).value; NoticeInv(t) && NothingLost(t) && RateInv(t)
  {
  }

  lemma RateUntouched(s: State, t: State)
    requires RateInv(s) && t.starts == s.starts && t.resolver == s.resolver && t.now == s.now
    ensures RateInv(t)
  {
  }

  lemma StepKeepsInv(s: State, a: Action)
    requires Inv(s) && Step(s, a).Some?
    ensures Inv(Step(s, a).value)
  {
    match a
    case WatchStep => WatchKeeps(s); RateUntouched(s, Step(s, a).value);
    case ListenStep => ListenKeeps(s); RateUntouched(s, Step(s, a).value);
    case CallStep(tid) => CallKeeps(s, tid); RateUntouched(s, Step(s, a).value);
    case ResolverStep => ResolverKeeps(s); ResolverKeepsRate(s);
    case NextChange => EnvironmentKeeps(s, a);
    case NextGet => EnvironmentKeeps(s, a);
    case NextError => EnvironmentKeeps(s, a);
    case Enter(_) => EnvironmentKeeps(s, a);
    case _ => TimeKeeps(s, a);
  }

  ghost predicate Reaches(acts: seq<Action>, s: State) {
    Exec(Step, BUILT, acts) == Some(s)
  }

  lemma EveryStepKeepsInv()
    ensures Preserved(Step, Inv)
  {
    forall s, a | Inv(s) && Step(s, a).Some? ensures Inv(Step(s, a).value) {
      StepKeepsInv(s, a);
    }
  }

  lemma ReachableInv(acts: seq<Action>, s: State)
    requires Reaches(acts, s)
    ensures Inv(s)
  {
    EveryStepKeepsInv();
    InvariantHolds(Step, Inv, BUILT, acts);
  }

  // ---------- no lost update ----------

  /** In every reachable state the newest change and the newest request precede the start
      of the latest resolution, or something still carries them there, or the resolver
      was told to stop. */
  lemma NoLostUpdate(acts: seq<Action>, s: State)
    requires Reaches(acts, s) && !s.cancelled && !s.appClosed
    ensures s.seenEvents == s.events || NoticeDue(s) || ResolutionDue(s)
    ensures s.seenRequests == s.requests || ResolutionDue(s)
  {
    ReachableInv(acts, s);
  }

  /** Watch never blocks on notice, and never sends on it or closes it once closed. */
  lemma NoticeNeverBlocks(acts: seq<Action>, s: State)
    requires Reaches(acts, s)
    ensures s.watch == Push ==> !s.noticeClosed && Step(s, WatchStep).Some?
    ensures s.watch == Closing ==> !s.noticeClosed
  {
    ReachableInv(acts, s);
  }

  /** The steps that need neither a new event, a new call nor a shutdown. */
  ghost predicate Internal(a: Action) {
    a.WatchStep? || a.ListenStep? || a.CallStep? || a.ResolverStep? || a.Wake?
  }

  /** While the resolver is behind, some step brings it closer. */
  lemma BehindMeansEnabled(s: State) returns (a: Action)
    requires Inv(s) && !Stopped(s)
    requires s.seenEvents < s.events || s.seenRequests < s.requests
    ensures Internal(a) && Step(s, a).Some?
  {
    if s.resolver != Select {
      a := if s.resolver.Sleeping? then Wake(0) else ResolverStep;
    } else if s.rn {
      a := ResolverStep;
    } else if At(s.calls, CallPush) != {} {
      var tid :| tid in At(s.calls, CallPush);
      a := CallStep(tid);
    } else if s.watch == Drain || s.watch == Push {
      a := WatchStep;
    } else {
      a := ListenStep;
    }
  }

  // ---------- the pipeline drains ----------

  ghost function WatchWeight(pc: WatchPc): nat {
    match pc case Drain => 14 case Push => 13 case Poll => 3 case InNext => 2 case Closing => 1 case WatchDone => 0
  }

  ghost function ListenWeight(pc: ListenPc): nat {
    match pc case ListenDrain => 9 case ListenPush => 8 case Range => 1 case ListenDone => 0
  }

  ghost function CallsWeight(calls: map<Tid, CallPc>): nat {
    8 * |At(calls, CallDrain)| + 7 * |At(calls, CallPush)|
  }

  ghost function ResolverWeight(pc: ResolverPc): nat {
    match pc case Took => 5 case Resolving => 4 case Sleeping(_) => 3 case Select => 1 case Exited => 0
  }

  ghost function Measure(s: State): nat {
    WatchWeight(s.watch) + (if s.notice then 9 else 0) + ListenWeight(s.listen) + CallsWeight(s.calls)
    + (if s.rn then 6 else 0) + ResolverWeight(s.resolver)
  }

  lemma CallLowers(s: State, tid: Tid)
    requires tid in s.calls && CallNext(s, tid).Some?
    ensures Measure(CallNext(s, tid).value) < Measure(s)
  {
    if s.calls[tid] == CallDrain {
      AtUpdate(s.calls, tid, CallPush, CallDrain);
      AtUpdate(s.calls, tid, CallPush, CallPush);
    } else {
      AtUpdate(s.calls, tid, CallReturned, CallDrain);
      AtUpdate(s.calls, tid, CallReturned, CallPush);
    }
  }

  lemma ListenLowers(s: State)
    requires ListenNext(s).Some?
    ensures Measure(ListenNext(s).value) < Measure(s)
  {
  }

  lemma WatchLowers(s: State)
    requires WatchNext(s).Some?
    ensures Measure(WatchNext(s).value) < Measure(s)
  {
  }

  lemma ResolverLowers(s: State)
    requires ResolverNext(s).Some?
    ensures Measure(ResolverNext(s).value) < Measure(s)
  {
  }

  lemma MeasureDrops(s: State, a: Action)
    requires Internal(a) && Step(s, a).Some?
    ensures Measure(Step(s, a).value) < Measure(s)
  {
    match a
    case CallStep(tid) => CallLowers(s, tid);
    case ListenStep => ListenLowers(s);
    case WatchStep => WatchLowers(s);
    case ResolverStep => ResolverLowers(s);
    case Wake(_) =>
  }

  /** Without new events and calls the pipeline comes to rest within Measure(s) steps, and
      at rest the latest resolution began after the last event and the last request. */
  lemma EveryChangeIsResolved(acts: seq<Action>, s: State, more: seq<Action>, t: State)
    requires Reaches(acts, s) && !s.cancelled && !s.appClosed
    requires forall i :: 0 <= i < |more| ==> Internal(more[i])
    requires Exec(Step, s, more) == Some(t)
    ensures |more| <= Measure(s)
    ensures || (exists a :: Internal(a) && Step(t, a).Some?)
            || (t.seenEvents == t.events == s.events && t.seenRequests == t.requests >= s.requests)
  {
    ReachableInv(acts, s);
    EveryStepKeepsInv();
    forall u, a | Inv(u) && Internal(a) && Step(u, a).Some?
      ensures Measure(Step(u, a).value) < Measure(u)
    {
      MeasureDrops(u, a);
    }
    MeasureBoundsRun(Step, Inv, Internal, Measure, s, more);
    InvariantHolds(Step, Inv, s, more);
    InternalRunKeeps(s, more);
    if t.seenEvents < t.events || t.seenRequests < t.requests {
      var a := BehindMeansEnabled(t);
    }
  }

  /** A resolver that is not stopped has started a resolution by the time its goroutines can
      go no further, whether or not there has been any event. */
  lemma ResolvesAtStart(acts: seq<Action>, s: State)
    requires Reaches(acts, s) && !s.cancelled && !s.appClosed
    requires forall a :: Internal(a) ==> Step(s, a).None?
    ensures s.starts != []
  {
    ReachableInv(acts, s);
    assert Step(s, CallStep(0)).None?;
    if s.seenRequests < s.requests {
      var a := BehindMeansEnabled(s);
    }
  }

  lemma InternalStepKeeps(s: State, a: Action)
    requires Internal(a) && Step(s, a).Some?
    ensures var t := Step(s, a).value; Stopped(t) == Stopped(s) && t.events == s.events && t.requests >= s.requests
  {
  }

  lemma {:induction false} InternalRunKeeps(s: State, acts: seq<Action>)
    requires forall i :: 0 <= i < |acts| ==> Internal(acts[i])
    ensures Exec(Step, s, acts).Some? ==>
              var t := Exec(Step, s, acts).value;
              Stopped(t) == Stopped(s) && t.events == s.events && t.requests >= s.requests
    decreases |acts|
  {
    if |acts| == 0 {
    } else if Step(s, acts[0]).Some? {
      assert Internal(acts[0]);
      InternalStepKeeps(s, acts[0]);
      InternalRunKeeps(Step(s, acts[0]).value, acts[1..]);
    }
  }

  // ---------- the rate ----------

  ghost function StartsWithin(starts: seq<nat>, from: nat, length: nat): set<nat> {
    set i: nat | i < |starts| && from <= starts[i] <= from + length
  }

  lemma {:induction false} SpacedApart(starts: seq<nat>, i: nat, j: nat)
    requires Spaced(starts) && i <= j < |starts|
    ensures starts[i] + (j - i) * MIN_RESOLVER_RATE <= starts[j]
    decreases j - i
  {
    if i == j {
    } else {
      SpacedApart(starts, i, j - 1);
      assert starts[j - 1] + MIN_RESOLVER_RATE <= starts[(j - 1) + 1];
    }
  }

  lemma {:induction false} IndicesWithin(k: set<nat>, low: nat, n: nat)
    requires forall i :: i in k ==> low <= i < low + n
    ensures |k| <= n
    decreases n
  {
    if n == 0 {
      assert k == {};
    } else {
      IndicesWithin(k - {low}, low + 1, n - 1);
      assert k <= (k - {low}) + {low};
      SubsetSize(k, (k - {low}) + {low});
    }
  }

  /** However often ResolveNow is called, a window of any length sees at most one
      resolution more than the minimum interval fits into it. */
  lemma ResolutionRate(acts: seq<Action>, s: State, from: nat, length: nat)
    requires Reaches(acts, s)
    ensures |StartsWithin(s.starts, from, length)| <= length / 3_000_000_000 + 1
  {
    ReachableInv(acts, s);
    var k := StartsWithin(s.starts, from, length);
    if k != {} {
      var low := Least(k);
      forall i | i in k ensures low <= i < low + length / MIN_RESOLVER_RATE + 1 {
        SpacedApart(s.starts, low, i);
      }
      IndicesWithin(k, low, length / MIN_RESOLVER_RATE + 1);
    }
  }

  lemma {:induction false} Least(k: set<nat>) returns (low: nat)
    requires k != {}
    ensures low in k && forall i :: i in k ==> low <= i
    decreases k
  {
    low :| low in k;
    if k - {low} != {} {
      var rest := k - {low};
      var other := Least(rest);
      assert forall i :: i in k ==> i == low || i in rest;
      if other < low { low := other; }
    } else {
      assert k == {low};
    }
  }

  /** The times i * 3s, for i below k. */
  ghost function Multiples(k: nat): seq<nat> {
    if k == 0 then [] else Multiples(k - 1) + [(k - 1) * 3_000_000_000]
  }

  /** The interval is no longer than needed: some run starts its k resolutions exactly three
      seconds apart. */
  lemma RateIsAttained(k: nat)
    ensures exists acts, s :: Reaches(acts, s) && s.starts == Multiples(k)
  {
    var acts, s := ResolveTimes(k);
  }

  lemma {:induction false} ResolveTimes(k: nat) returns (acts: seq<Action>, s: State)
    ensures Reaches(acts, s) && s.starts == Multiples(k) && s.now == k * 3_000_000_000
    ensures s.resolver == Select && if k == 0 then s == BUILT else forall tid :: tid in s.calls ==> tid < k
  {
    if k == 0 {
      acts, s := [], BUILT;
    } else {
      var before, t := ResolveTimes(k - 1);
      var tid := k - 1;
      var more;
      if k == 1 {
        more, s := ResolveRound(t, tid);
      } else {
        var u := Step(t, Enter(tid)).value;
        more, s := ResolveRound(u, tid);
        ExecCons(Step, t, Enter(tid), more);
        more := [Enter(tid)] + more;
      }
      ExecAppend(Step, BUILT, before, more);
      acts := before + more;
    }
  }

  /** A call, the resolution it leads to, and the sleep after that. */
  lemma ResolveRound(s: State, tid: Tid) returns (acts: seq<Action>, t: State)
    requires s.resolver == Select && tid in s.calls && s.calls[tid] == CallDrain
    ensures Exec(Step, s, acts) == Some(t) && t.resolver == Select
    ensures t.starts == s.starts + [s.now] && t.now == s.now + 3_000_000_000 && t.calls.Keys == s.calls.Keys
  {
    var s1 := Step(s, CallStep(tid)).value;
    var s2 := Step(s1, CallStep(tid)).value;
    var s3 := Step(s2, ResolverStep).value;
    var rest;
    rest, t := Resolves(s3);
    ExecCons(Step, s2, ResolverStep, rest);
    ExecCons(Step, s1, CallStep(tid), [ResolverStep] + rest);
    ExecCons(Step, s, CallStep(tid), [CallStep(tid)] + ([ResolverStep] + rest));
    acts := [CallStep(tid)] + ([CallStep(tid)] + ([ResolverStep] + rest));
  }

  lemma Resolves(s: State) returns (acts: seq<Action>, t: State)
    requires s.resolver == Took
    ensures Exec(Step, s, acts) == Some(t) && t.resolver == Select
    ensures t.starts == s.starts + [s.now] && t.now == s.now + 3_000_000_000 && t.calls == s.calls
  {
    var s1 := Step(s, ResolverStep).value;
    var s2 := Step(s1, ResolverStep).value;
    t := Step(s2, Wake(0)).value;
    ExecCons(Step, s2, Wake(0), []);
    ExecCons(Step, s1, ResolverStep, [Wake(0)] + []);
    ExecCons(Step, s, ResolverStep, [ResolverStep] + ([Wake(0)] + []));
    acts := [ResolverStep] + ([ResolverStep] + ([Wake(0)] + []));
  }

  // ---------- a stop ends the goroutines ----------

  /** The steps after a stop: nothing new is delivered or called. */
  ghost predicate Winding(a: Action) {
    Internal(a) || a.NextError? || a.NextGet? || a.ResolverStop?
  }

  ghost function StopMeasure(s: State): nat {
    Measure(s) + if s.watch == InNext then 2 else 0
  }

  ghost predicate StoppedInv(s: State) {
    Inv(s) && Stopped(s)
  }

  lemma StopMeasureDrops(s: State, a: Action)
    requires Stopped(s) && Winding(a) && Step(s, a).Some?
    ensures StopMeasure(Step(s, a).value) < StopMeasure(s)
  {
    if Internal(a) {
      MeasureDrops(s, a);
      NoNextWhenStopped(s, a);
    }
  }

  lemma NoNextWhenStopped(s: State, a: Action)
    requires Stopped(s) && Internal(a) && Step(s, a).Some?
    ensures Step(s, a).value.watch == InNext ==> s.watch == InNext
  {
  }

  lemma StopStays(s: State, a: Action)
    requires StoppedInv(s) && Step(s, a).Some?
    ensures StoppedInv(Step(s, a).value)
  {
    StepKeepsInv(s, a);
    FlagsStay(s, a);
  }

  lemma FlagsStay(s: State, a: Action)
    requires Step(s, a).Some?
    ensures (s.cancelled ==> Step(s, a).value.cancelled) && (s.appClosed ==> Step(s, a).value.appClosed)
  {
  }

  lemma GoroutineCanEnd(s: State) returns (a: Action)
    requires Inv(s) && Stopped(s)
    requires s.watch != WatchDone || s.listen != ListenDone || s.resolver != Exited ||
             exists tid :: tid in s.calls && s.calls[tid] != CallReturned
    ensures Winding(a) && Step(s, a).Some?
  {
    if s.watch != WatchDone {
      a := if s.watch == InNext then NextError else WatchStep;
    } else if s.listen != ListenDone {
      a := ListenStep;
    } else if s.resolver != Exited {
      a := if s.resolver == Took || s.resolver == Resolving then ResolverStep else ResolverStop;
    } else {
      var tid :| tid in s.calls && s.calls[tid] != CallReturned;
      a := CallStep(tid);
    }
  }

  /** Once the resolver's context or the application is closed, Watch, listenEtcd, the watcher
      and every call of ResolveNow end within a bounded number of steps. */
  lemma StopEndsGoroutines(acts: seq<Action>, s: State, more: seq<Action>, t: State)
    requires Reaches(acts, s) && (s.cancelled || s.appClosed)
    requires forall i :: 0 <= i < |more| ==> Winding(more[i])
    requires Exec(Step, s, more) == Some(t)
    ensures |more| <= StopMeasure(s)
    ensures || (exists a :: Winding(a) && Step(t, a).Some?)
            || (t.watch == WatchDone && t.listen == ListenDone && t.resolver == Exited && t.noticeClosed
                && forall tid :: tid in t.calls ==> t.calls[tid] == CallReturned)
  {
    ReachableInv(acts, s);
    forall u, a | StoppedInv(u) && Step(u, a).Some? ensures StoppedInv(Step(u, a).value) {
      StopStays(u, a);
    }
    forall u, a | StoppedInv(u) && Winding(a) && Step(u, a).Some?
      ensures StopMeasure(Step(u, a).value) < StopMeasure(u)
    {
      StopMeasureDrops(u, a);
    }
    MeasureBoundsRun(Step, StoppedInv, Winding, StopMeasure, s, more);
    InvariantHolds(Step, StoppedInv, s, more);
    if t.watch != WatchDone || t.listen != ListenDone || t.resolver != Exited ||
       exists tid :: tid in t.calls && t.calls[tid] != CallReturned {
      var a := GoroutineCanEnd(t);
    }
  }

  // ---------- what causes a resolution ----------

  ghost function One(b: bool): nat { if b then 1 else 0 }

  /** What the goroutines have spent, or hold ready to spend, of the requests; and of the events. */
  ghost function Used(s: State): int {
    |s.starts| + One(s.resolver == Took) + One(s.rn) + One(s.listen == ListenPush) - s.requests
  }

  ghost function Carried(s: State): int {
    s.requests + One(s.listen == ListenDrain) + One(s.notice) + One(s.watch == Drain || s.watch == Push) - s.events
  }

  ghost predicate Spent(s: State) {
    Used(s) + |At(s.calls, CallPush)| <= 0
  }

  ghost predicate Asked(s: State) {
    Carried(s) + |At(s.calls, CallDrain)| <= |s.calls|
  }

  lemma CallCaused(s: State, tid: Tid)
    requires Spent(s) && Asked(s) && tid in s.calls && CallNext(s, tid).Some?
    ensures Spent(CallNext(s, tid).value) && Asked(CallNext(s, tid).value)
  {
    var to := if s.calls[tid] == CallDrain then CallPush else CallReturned;
    AtUpdate(s.calls, tid, to, CallDrain);
    AtUpdate(s.calls, tid, to, CallPush);
    assert s.calls[tid := to].Keys == s.calls.Keys;
    assert |s.calls[tid := to].Keys| == |s.calls[tid := to]|;
  }

  lemma EnterCaused(s: State, tid: Tid)
    requires Spent(s) && Asked(s) && tid !in s.calls
    ensures Spent(s.(calls := s.calls[tid := CallDrain])) && Asked(s.(calls := s.calls[tid := CallDrain]))
  {
    AtUpdate(s.calls, tid, CallDrain, CallDrain);
    AtUpdate(s.calls, tid, CallDrain, CallPush);
    assert |s.calls[tid := CallDrain]| == |s.calls| + 1;
  }

  lemma WatchCaused(s: State)
    requires NoticeInv(s) && WatchNext(s).Some?
    ensures WatchNext(s).value.calls == s.calls
    ensures Used(WatchNext(s).value) <= Used(s) && Carried(WatchNext(s).value) <= Carried(s)
  {
  }

  lemma ListenCaused(s: State)
    requires NoticeInv(s) && ListenNext(s).Some?
    ensures ListenNext(s).value.calls == s.calls
    ensures Used(ListenNext(s).value) <= Used(s) && Carried(ListenNext(s).value) <= Carried(s)
  {
  }

  lemma ResolverCaused(s: State)
    requires NoticeInv(s) && ResolverNext(s).Some?
    ensures ResolverNext(s).value.calls == s.calls
    ensures Used(ResolverNext(s).value) <= Used(s) && Carried(ResolverNext(s).value) <= Carried(s)
  {
  }

  lemma NextCaused(s: State, a: Action)
    requires Step(s, a).Some?
    requires a.NextChange? || a.NextGet? || a.NextError?
    ensures Step(s, a).value.calls == s.calls
    ensures Used(Step(s, a).value) <= Used(s) && Carried(Step(s, a).value) <= Carried(s)
  {
  }

  lemma TimeCaused(s: State, a: Action)
    requires Step(s, a).Some?
    requires a.Wake? || a.Tick? || a.ResolverStop? || a.Cancel? || a.CloseApp?
    ensures Step(s, a).value.calls == s.calls
    ensures Used(Step(s, a).value) <= Used(s) && Carried(Step(s, a).value) <= Carried(s)
  {
  }

  lemma {:induction false} CausedAlong(s: State, acts: seq<Action>)
    requires Inv(s) && Spent(s) && Asked(s)
    ensures Exec(Step, s, acts).Some? ==> Spent(Exec(Step, s, acts).value) && Asked(Exec(Step, s, acts).value)
    decreases |acts|
  {
    if |acts| == 0 {
    } else if Step(s, acts[0]).Some? {
      StepKeepsInv(s, acts[0]);
      match acts[0] {
        case Enter(tid) => EnterCaused(s, tid);
        case CallStep(tid) => CallCaused(s, tid);
        case WatchStep => WatchCaused(s);
        case ListenStep => ListenCaused(s);
        case ResolverStep => ResolverCaused(s);
        case NextChange => NextCaused(s, acts[0]);
        case NextGet => NextCaused(s, acts[0]);
        case NextError => NextCaused(s, acts[0]);
        case _ => TimeCaused(s, acts[0]);
      }
      CausedAlong(Step(s, acts[0]).value, acts[1..]);
    }
  }

  /** Resolutions have causes: there are never more of them than calls of ResolveNow have gone
      past their drain, and never more of these than events and outside calls together. */
  lemma ResolutionsAreCaused(acts: seq<Action>, s: State)
    requires Reaches(acts, s)
    ensures |s.starts| <= s.requests <= s.events + |s.calls|
  {
    assert At(BUILT.calls, CallPush) == {} && At(BUILT.calls, CallDrain) == {0};
    assert BUILT.calls.Keys == {0} && |BUILT.calls| == |BUILT.calls.Keys|;
    ReachableInv([], BUILT);
    CausedAlong(BUILT, acts);
  }

  /** ResolveNow empties the slot and then fills it: a resolution that starts after the drain
      of a call starts from a token pushed after that drain. */
  lemma ResolveNowRefreshes(s: State, a: Action)
    requires Step(s, a).Some?
    requires a == ListenStep || (a.CallStep? && s.calls[a.tid] != CallReturned)
    requires a == ListenStep ==> s.listen == ListenDrain || s.listen == ListenPush
    ensures var t := Step(s, a).value;
            var draining := if a == ListenStep then s.listen == ListenDrain else s.calls[a.tid] == CallDrain;
            && t.rn == !draining
            && (draining ==> t.resolver == Select ==> Step(t, ResolverStep).None?)
            && (!draining ==> t.resolver == Select ==> Step(t, ResolverStep).Some?)
  {
  }

  /** What may happen at any time: etcd answers a waiting watcher in any of three ways, anyone
      calls ResolveNow, the timer fires as late as it likes, time passes, and either of the
      two shutdowns comes. */
  lemma EnvironmentIsFree(s: State, tid: Tid, late: nat)
    ensures s.watch == InNext ==>
              Step(s, NextChange).Some? && Step(s, NextGet).Some? && Step(s, NextError).Some? &&
              Step(s, NextChange).value.events == s.events + 1 && Step(s, NextError).value == Step(s, NextGet).value
    ensures tid !in s.calls ==> Step(s, Enter(tid)) == Some(s.(calls := s.calls[tid := CallDrain]))
    ensures s.resolver.Sleeping? ==>
              && Step(s, Wake(late)).Some? && Step(s, Wake(late)).value.resolver == Select
              && Step(s, Wake(late)).value.now == (if s.resolver.due <= s.now then s.now else s.resolver.due) + late
    ensures Step(s, Tick(late)) == Some(s.(now := s.now + late))
    ensures Step(s, Cancel) == Some(s.(cancelled := true)) && Step(s, CloseApp) == Some(s.(appClosed := true))
  {
  }
}
