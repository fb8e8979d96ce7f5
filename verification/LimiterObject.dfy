/** The limiter object of util/middleware/rate_limit.go and the interceptors around it:
    the ticket channel and the flag are fields updated in place. Every method is one
    access to them and is proved against Limiter.Step. */
module LimiterObject {
  import opened Prelude
  import opened Limiter
  import opened LimiterProofs

  lemma TicketHeld(s: State, r: Rid)
    requires Inv(s) && RequestAt(s, r, Returning)
    ensures s.tickets > 0
  {
    assert r in At(s.requests, Returning);
  }

  class KelvinsRateLimit {
    const maxConcurrent: nat
    var tickets: nat
    var closed: bool
    var ticketsState: bool
    var appClosed: bool
    var requests: map<Rid, Pc>
    ghost var defaults: nat

    ghost function Abstract(): State
      reads this
    {
      State(maxConcurrent, tickets, closed, ticketsState, appClosed, requests, defaults)
    }

    ghost predicate Valid()
      reads this
    {
      Inv(Abstract())
    }

    twostate predicate Performed(a: Action, done: bool)
      reads this
    {
      var next := Step(old(Abstract()), a);
      done == next.Some? && Abstract() == if done then next.value else old(Abstract())
    }

    constructor (maxConcurrent: nat)
      requires maxConcurrent > 0
      ensures Valid() && Abstract() == NewLimiter(maxConcurrent)
    {
      this.maxConcurrent := maxConcurrent;
      tickets, closed, ticketsState, appClosed, requests, defaults := 0, false, false, false, map[], 0;
      new;
      assert At(requests, Handling) == {} && At(requests, Returning) == {};
    }

    /** takeTicket's load of the flag. */
    method LoadState(r: Rid) returns (done: bool)
      requires RequestAt(Abstract(), r, Entered)
      modifies this
      ensures Performed(Load(r), done)
    {
      requests := requests[r := if ticketsState then Rejected else Loaded];
      done := true;
    }

    /** takeTicket's select: which says what the runtime chose among the ready cases. */
    method SelectTicket(r: Rid, which: Case) returns (done: bool)
      requires RequestAt(Abstract(), r, Loaded)
      modifies this
      ensures Performed(Select(r, which), done)
    {
      done := false;
      match which
      case SendTicket =>
        if closed {
          requests, done := requests[r := Panicked], true;
        } else if tickets < maxConcurrent + 1 {
          tickets, requests, done := tickets + 1, requests[r := Handling], true;
        }
      case AppClose =>
        if appClosed {
          requests, done := requests[r := Storing], true;
        }
      case Default =>
        if !closed && !appClosed && tickets >= maxConcurrent + 1 {
          requests, done := requests[r := Rejected], true;
        }
    }

    /** The AppCloseCh case: store the flag, then close the channel. */
    method ShutDown(r: Rid) returns (done: bool)
      requires RequestAt(Abstract(), r, Storing) || RequestAt(Abstract(), r, Closing)
      modifies this`ticketsState, this`closed, this`requests
      ensures Performed(if old(requests[r]) == Storing then StoreState(r) else CloseTickets(r), done)
    {
      if requests[r] == Storing {
        ticketsState := true;
        requests := requests[r := Closing];
      } else if closed {
        requests := requests[r := Panicked];
      } else {
        closed := true;
        requests := requests[r := Rejected];
      }
      done := true;
    }

    /** The interceptor after Limit: the handler ends, then the deferred ReturnTicket. */
    method Finish(r: Rid, panicked: bool) returns (done: bool)
      requires RequestAt(Abstract(), r, Handling) || RequestAt(Abstract(), r, Returning)
      modifies this`tickets, this`requests, this`defaults
      ensures Performed(if old(requests[r]) == Handling then HandlerEnds(r, panicked) else ReturnTicket(r), done)
    {
      if requests[r] == Handling {
        requests := requests[r := Returning];
      } else {
        if tickets > 0 {
          tickets := tickets - 1;
        } else if !closed {
          defaults := defaults + 1;
        }
        requests := requests[r := Finished];
      }
      done := true;
    }

    /** An interceptor around one request while no other moves, whatever the limiter has been
        through before: closeFirst is the choice of the select when both a ticket and the
        shutdown are there. The handler is run exactly when the flag is not stored, the
        channel has room and the shutdown was not chosen. The ticket is back at the end,
        also when the handler panics; the limiter does not panic; and the shutdown case is
        taken at most once in the life of the limiter. */
    method Intercept(r: Rid, closeFirst: bool, panicked: bool) returns (handled: bool)
      requires Valid() && r !in requests
      modifies this
      ensures Valid() && tickets == old(tickets) && appClosed == old(appClosed)
      ensures handled <==> !old(ticketsState) && old(tickets) <= maxConcurrent && !(appClosed && closeFirst)
      ensures requests == old(requests)[r := if handled then Finished else Rejected]
      ensures ticketsState == (old(ticketsState) || (appClosed && !handled))
      ensures closed == (old(closed) || (!old(ticketsState) && appClosed && !handled))
    {
      StepKeepsInv(Abstract(), Arrive(r));
      requests := requests[r := Entered];
      handled := TakeTicket(r, closeFirst);
      if handled {
        Handle(r, panicked);
      }
      assert requests == old(requests)[r := requests[r]];
    }

    /** takeTicket, while no other request moves. */
    method TakeTicket(r: Rid, closeFirst: bool) returns (taken: bool)
      requires Valid() && RequestAt(Abstract(), r, Entered)
      modifies this
      ensures Valid() && appClosed == old(appClosed)
      ensures taken <==> !old(ticketsState) && old(tickets) <= maxConcurrent && !(appClosed && closeFirst)
      ensures tickets == old(tickets) + if taken then 1 else 0
      ensures requests == old(requests)[r := if taken then Handling else Rejected]
      ensures ticketsState == (old(ticketsState) || (appClosed && !taken))
      ensures closed == (old(closed) || (!old(ticketsState) && appClosed && !taken))
    {
      ghost var entered := Abstract();
      var _ := LoadState(r);
      StepKeepsInv(entered, Load(r));
      taken := false;
      if requests[r] == Loaded {
        taken := tickets <= maxConcurrent && !(appClosed && closeFirst);
        var which := if taken then SendTicket else if appClosed then AppClose else Default;
        ghost var loaded := Abstract();
        var _ := SelectTicket(r, which);
        StepKeepsInv(loaded, Select(r, which));
        if which == AppClose {
          Close(r);
        }
      }
    }

    /** The handler and the deferred ReturnTicket. */
    method Handle(r: Rid, panicked: bool)
      requires Valid() && RequestAt(Abstract(), r, Handling)
      modifies this`tickets, this`requests, this`defaults
      ensures Valid() && tickets == old(tickets) - 1
      ensures requests == old(requests)[r := Finished]
    {
      ghost var before := Abstract();
      var _ := Finish(r, panicked);
      StepKeepsInv(before, HandlerEnds(r, panicked));
      ghost var ended := Abstract();
      TicketHeld(ended, r);
      var _ := Finish(r, panicked);
      StepKeepsInv(ended, ReturnTicket(r));
    }

    /** The shutdown case of takeTicket, by the first request that takes it. */
    method Close(r: Rid)
      requires Valid() && RequestAt(Abstract(), r, Storing) && !closed
      modifies this`ticketsState, this`closed, this`requests
      ensures Valid() && ticketsState && closed
      ensures requests == old(requests)[r := Rejected]
    {
      ghost var before := Abstract();
      var _ := ShutDown(r);
      StepKeepsInv(before, StoreState(r));
      ghost var stored := Abstract();
      var _ := ShutDown(r);
      StepKeepsInv(stored, CloseTickets(r));
    }
  }
}
