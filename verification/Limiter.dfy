/** The concurrency limiter of util/middleware/rate_limit.go, shared by the unary and
    stream interceptors of rpc_ratelimit.go, as a transition system.

    Each request loads ticketsState, then selects; a handler that returns or panics
    runs the deferred ReturnTicket. The load, the select, the store and the close are
    separate steps, before and after shutdown. A panic inside Limit unwinds to the
    recovery interceptor before the defer is installed. The source makes the channel only
    for a limit above zero. */
module Limiter {
  import opened Prelude

  type Rid = nat

  datatype Pc =
    | Entered    // before the load of ticketsState
    | Loaded     // loaded 0, before the select
    | Storing    // took the AppCloseCh case, before the store
    | Closing    // before close(tickets)
    | Handling   // admitted, in the handler
    | Returning  // the handler has ended, before ReturnTicket
    | Rejected
    | Panicked   // sent on, or closed, a closed channel
    | Finished

  datatype Case = SendTicket | AppClose | Default

  datatype State = State(
    maxConcurrent: nat,
    tickets: nat,        // tokens in the channel, of capacity maxConcurrent + 1
    closed: bool,        // close(tickets) has run
    ticketsState: bool,  // the atomic flag is 1
    appClosed: bool,     // AppCloseCh is closed
    requests: map<Rid, Pc>,
    defaults: nat)       // how often ReturnTicket took its default branch

  datatype Action =
    | Arrive(rid: Rid)
    | Load(rid: Rid)
    | Select(rid: Rid, which: Case)
    | StoreState(rid: Rid)
    | CloseTickets(rid: Rid)
    | HandlerEnds(rid: Rid, panicked: bool)
    | ReturnTicket(rid: Rid)
    | CloseApp

  predicate RequestAt(s: State, r: Rid, pc: Pc) {
    r in s.requests && s.requests[r] == pc
  }

  function Goto(s: State, r: Rid, pc: Pc): State {
    s.(requests := s.requests[r := pc])
  }

  function SelectStep(s: State, r: Rid, which: Case): Option<State> {
    match which
    case SendTicket =>
      if s.closed then Some(Goto(s, r, Panicked))
      else if s.tickets <= s.maxConcurrent then Some(Goto(s.(tickets := s.tickets + 1), r, Handling))
      else None
    case AppClose => if s.appClosed then Some(Goto(s, r, Storing)) else None
    case Default =>
      if s.closed || s.appClosed || s.tickets <= s.maxConcurrent then None else Some(Goto(s, r, Rejected))
  }

  function Step(s: State, a: Action): Option<State> {
    match a
    case Arrive(r) => if r in s.requests then None else Some(Goto(s, r, Entered))
    case Load(r) =>
      if !RequestAt(s, r, Entered) then None else Some(Goto(s, r, if s.ticketsState then Rejected else Loaded))
    case Select(r, which) => if !RequestAt(s, r, Loaded) then None else SelectStep(s, r, which)
    case StoreState(r) =>
      if !RequestAt(s, r, Storing) then None else Some(Goto(s.(ticketsState := true), r, Closing))
    case CloseTickets(r) =>
      if !RequestAt(s, r, Closing) then None
      else if s.closed then Some(Goto(s, r, Panicked))
      else Some(Goto(s.(closed := true), r, Rejected))
    case HandlerEnds(r, _) => if !RequestAt(s, r, Handling) then None else Some(Goto(s, r, Returning))
    case ReturnTicket(r) =>
      if !RequestAt(s, r, Returning) then None
      else if s.tickets > 0 then Some(Goto(s.(tickets := s.tickets - 1), r, Finished))
      else if s.closed then Some(Goto(s, r, Finished))
      else Some(Goto(s.(defaults := s.defaults + 1), r, Finished))
    case CloseApp => Some(s.(appClosed := true))
  }

  function NewLimiter(maxConcurrent: nat): State {
    State(maxConcurrent, 0, false, false, false, map[], 0)
  }
}
