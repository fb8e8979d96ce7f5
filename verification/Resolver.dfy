/** The path from an etcd change to a new resolution, as a transition system:
    the Watch goroutine (internal/service/slb/etcdconfig/service_config.go) puts a token
    in notice, listenEtcd turns each token into a ResolveNow, ResolveNow puts a token in
    rn, and the watcher goroutine (util/client_conn/resolver.go) resolves once per token
    and then sleeps. Both channels hold one token, and a producer first drains the slot.
    Any number of other goroutines call ResolveNow. Time is in nanoseconds. */
module Resolver {
  import opened Prelude

  const MIN_RESOLVER_RATE: nat := 3_000_000_000

  type Tid = nat

  datatype WatchPc =
    | Poll      // the select over ctx.Done and AppCloseCh
    | InNext    // watcher.Next
    | Drain     // <-notice or default
    | Push      // notice <- struct{}{}, which would block on a full slot
    | Closing   // the deferred close(notice)
    | WatchDone

  datatype ListenPc = Range | ListenDrain | ListenPush | ListenDone

  datatype CallPc = CallDrain | CallPush | CallReturned

  datatype ResolverPc =
    | Select
    | Took               // received from rn, resolverServiceConfig not yet started
    | Resolving
    | Sleeping(due: nat)
    | Exited

  datatype State = State(
    watch: WatchPc,
    notice: bool, noticeClosed: bool,
    listen: ListenPc,
    calls: map<Tid, CallPc>,   // calls of ResolveNow other than listenEtcd's
    rn: bool,
    resolver: ResolverPc,
    cancelled: bool,           // the resolver's context
    appClosed: bool,           // AppCloseCh
    now: nat,
    // history
    events: nat,               // change events delivered to Watch
    seenEvents: nat,           // of these, before the start of the latest resolution
    requests: nat,             // calls of ResolveNow that have passed their drain
    seenRequests: nat,         // of these, before the start of the latest resolution
    starts: seq<nat>)          // when each resolution started

  datatype Action =
    | NextChange | NextGet | NextError
    | WatchStep
    | ListenStep
    | Enter(tid: Tid)
    | CallStep(tid: Tid)
    | ResolverStep
    | Wake(late: nat)          // the timer fires, at its due time or later
    | ResolverStop
    | Cancel | CloseApp
    | Tick(d: nat)

  /** Build starts both goroutines and then calls ResolveNow itself. */
  const BUILT: State :=
    State(Poll, false, false, Range, map[0 := CallDrain], false, Select, false, false, 0, 0, 0, 0, 0, [])

  predicate Stopped(s: State) {
    s.cancelled || s.appClosed
  }

  function WatchNext(s: State): Option<State> {
    match s.watch
    case Poll => Some(s.(watch := if Stopped(s) then Closing else InNext))
    case InNext => None
    case Drain => Some(s.(watch := Push, notice := false))
    case Push => if s.notice || s.noticeClosed then None else Some(s.(watch := Poll, notice := true))
    case Closing => Some(s.(watch := WatchDone, noticeClosed := true))
    case WatchDone => None
  }

  function ListenNext(s: State): Option<State> {
    match s.listen
    case Range =>
      if s.notice then Some(s.(listen := ListenDrain, notice := false))
      else if s.noticeClosed then Some(s.(listen := ListenDone))
      else None
    case ListenDrain => Some(s.(listen := ListenPush, rn := false, requests := s.requests + 1))
    case ListenPush => Some(s.(listen := Range, rn := true))
    case ListenDone => None
  }

  function CallNext(s: State, tid: Tid): Option<State>
    requires tid in s.calls
  {
    match s.calls[tid]
    case CallDrain => Some(s.(calls := s.calls[tid := CallPush], rn := false, requests := s.requests + 1))
    case CallPush => Some(s.(calls := s.calls[tid := CallReturned], rn := true))
    case CallReturned => None
  }

  function ResolverNext(s: State): Option<State> {
    match s.resolver
    case Select => if s.rn then Some(s.(resolver := Took, rn := false)) else None
    case Took =>
      Some(s.(resolver := Resolving, seenEvents := s.events, seenRequests := s.requests, starts := s.starts + [s.now]))
    case Resolving => Some(s.(resolver := Sleeping(s.now + MIN_RESOLVER_RATE)))
    case Sleeping(_) => None
    case Exited => None
  }

  function Step(s: State, a: Action): Option<State> {
    match a
    case NextChange => if s.watch != InNext then None else Some(s.(watch := Drain, events := s.events + 1))
    case NextGet => if s.watch != InNext then None else Some(s.(watch := Poll))
    case NextError => if s.watch != InNext then None else Some(s.(watch := Poll))
    case WatchStep => WatchNext(s)
    case ListenStep => ListenNext(s)
    case Enter(tid) => if tid in s.calls then None else Some(s.(calls := s.calls[tid := CallDrain]))
    case CallStep(tid) => if tid !in s.calls then None else CallNext(s, tid)
    case ResolverStep => ResolverNext(s)
    case Wake(late) =>
      if !s.resolver.Sleeping? then None
      else Some(s.(resolver := Select, now := (if s.now < s.resolver.due then s.resolver.due else s.now) + late))
    case ResolverStop =>
      if !Stopped(s) || !(s.resolver.Select? || s.resolver.Sleeping?) then None
      else Some(s.(resolver := Exited))
    case Cancel => Some(s.(cancelled := true))
    case CloseApp => Some(s.(appClosed := true))
    case Tick(d) => Some(s.(now := s.now + d))
  }
}
