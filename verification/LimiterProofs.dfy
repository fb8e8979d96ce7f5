/** Conservation of tickets over every run, across shutdown. */
module LimiterProofs {
  import opened Prelude
  import opened Runs
  import opened Limiter

  /** Requests that were admitted and have not yet given their ticket back. */
  ghost function InFlight(s: State): set<Rid> {
    At(s.requests, Handling) + At(s.requests, Returning)
  }

  ghost predicate TicketInv(s: State) {
    && s.tickets == |At(s.requests, Handling)| + |At(s.requests, Returning)|
    && s.tickets <= s.maxConcurrent + 1
    && s.defaults == 0
  }

  ghost predicate ShutdownInv(s: State) {
    && (s.closed ==> s.ticketsState)
    && (s.ticketsState ==> s.appClosed)
    && forall r :: r in s.requests ==>
         (s.requests[r] == Closing ==> s.ticketsState) && (s.requests[r] == Storing ==> s.appClosed) &&
         (s.requests[r] == Panicked ==> s.closed)
  }

  ghost predicate Inv(s: State) {
    TicketInv(s) && ShutdownInv(s)
  }

  lemma GotoCounts(s: State, r: Rid, pc: Pc)
    ensures forall v :: |At(s.requests[r := pc], v)| ==
                        |At(s.requests, v)| + (if pc == v && r !in At(s.requests, v) then 1 else 0)
                                            - (if pc != v && r in At(s.requests, v) then 1 else 0)
  {
    forall v ensures |At(s.requests[r := pc], v)| ==
                     |At(s.requests, v)| + (if pc == v && r !in At(s.requests, v) then 1 else 0)
                                         - (if pc != v && r in At(s.requests, v) then 1 else 0)
    {
      AtUpdate(s.requests, r, pc, v);
    }
  }

  lemma TicketStep(s: State, a: Action)
    requires TicketInv(s) && Step(s, a).Some?
    ensures TicketInv(Step(s, a).value)
  {
    var t := Step(s, a).value;
    if !a.CloseApp? {
      GotoCounts(s, a.rid, t.requests[a.rid]);
      assert a.ReturnTicket? ==> a.rid in At(s.requests, Returning);
      assert At(s.requests, Returning) != {} ==> |At(s.requests, Returning)| > 0;
    }
  }

  lemma StepKeepsInv(s: State, a: Action)
    requires Inv(s) && Step(s, a).Some?
    ensures Inv(Step(s, a).value)
  {
    TicketStep(s, a);
  }

  ghost predicate Reaches(maxConcurrent: nat, acts: seq<Action>, s: State) {
    Exec(Step, NewLimiter(maxConcurrent), acts) == Some(s)
  }

  lemma ReachableInv(maxConcurrent: nat, acts: seq<Action>, s: State)
    requires Reaches(maxConcurrent, acts, s)
    ensures Inv(s) && s.maxConcurrent == maxConcurrent
  {
    assert At(NewLimiter(maxConcurrent).requests, Handling) == {};
    assert At(NewLimiter(maxConcurrent).requests, Returning) == {};
    forall t, a | Inv(t) && Step(t, a).Some? ensures Inv(Step(t, a).value) {
      StepKeepsInv(t, a);
    }
    InvariantHolds(Step, Inv, NewLimiter(maxConcurrent), acts);
    CapacityIsFixed(NewLimiter(maxConcurrent), acts);
  }

  lemma {:induction false} CapacityIsFixed(s: State, acts: seq<Action>)
    ensures Exec(Step, s, acts).Some? ==> Exec(Step, s, acts).value.maxConcurrent == s.maxConcurrent
    decreases |acts|
  {
    if |acts| == 0 {
    } else if Step(s, acts[0]).Some? {
      CapacityIsFixed(Step(s, acts[0]).value, acts[1..]);
    }
  }

  /** The tickets in the channel are the requests in flight, before and after shutdown:
      never more than maxConcurrent + 1; and ReturnTicket always finds a ticket. */
  lemma TicketsAreRequestsInFlight(maxConcurrent: nat, acts: seq<Action>, s: State)
    requires Reaches(maxConcurrent, acts, s)
    ensures s.tickets == |InFlight(s)| <= maxConcurrent + 1
    ensures s.defaults == 0
    ensures forall r :: RequestAt(s, r, Returning) ==> s.tickets > 0
  {
    ReachableInv(maxConcurrent, acts, s);
    assert At(s.requests, Handling) * At(s.requests, Returning) == {};
    forall r | RequestAt(s, r, Returning) ensures s.tickets > 0 {
      assert r in At(s.requests, Returning);
    }
  }

  /** Some choice of the select takes the request to pc. */
  ghost predicate CanSelect(s: State, r: Rid, pc: Pc) {
    exists c :: SelectsTo(s, r, c, pc)
  }

  ghost predicate SelectsTo(s: State, r: Rid, c: Case, pc: Pc) {
    var next := Step(s, Select(r, c)); next.Some? && RequestAt(next.value, r, pc)
  }

  lemma SelectCases(s: State, r: Rid, pc: Pc)
    ensures CanSelect(s, r, pc) <==>
            SelectsTo(s, r, SendTicket, pc) || SelectsTo(s, r, AppClose, pc) || SelectsTo(s, r, Default, pc)
  {
    if c :| SelectsTo(s, r, c, pc) {
      assert c in {SendTicket, AppClose, Default};
    }
  }

  /** What the select of a request can do in a reachable state: take a ticket exactly when the
      channel is open and no more than maxConcurrent requests are in flight; panic exactly
      when it is closed; go for the shutdown exactly when the application closes; and turn
      the request away only when maxConcurrent + 1 requests are in flight and neither the
      application nor the channel is closed. */
  lemma SelectIff(maxConcurrent: nat, acts: seq<Action>, s: State, r: Rid)
    requires Reaches(maxConcurrent, acts, s) && RequestAt(s, r, Loaded)
    ensures CanSelect(s, r, Handling) <==> !s.closed && |InFlight(s)| <= maxConcurrent
    ensures CanSelect(s, r, Panicked) <==> s.closed
    ensures CanSelect(s, r, Storing) <==> s.appClosed
    ensures CanSelect(s, r, Rejected) <==> !s.closed && !s.appClosed && |InFlight(s)| == maxConcurrent + 1
  {
    TicketsAreRequestsInFlight(maxConcurrent, acts, s);
    ReachableInv(maxConcurrent, acts, s);
    SelectCases(s, r, Handling);
    SelectCases(s, r, Panicked);
    SelectCases(s, r, Storing);
    SelectCases(s, r, Rejected);
  }

  /** A handler can return or panic, a request that ends gives its ticket back, and requests
      and the end of the application can come at any time. */
  lemma EnvironmentIsFree(maxConcurrent: nat, acts: seq<Action>, s: State, r: Rid, panicked: bool)
    requires Reaches(maxConcurrent, acts, s)
    ensures r !in s.requests ==> Step(s, Arrive(r)) == Some(s.(requests := s.requests[r := Entered]))
    ensures Step(s, CloseApp) == Some(s.(appClosed := true))
    ensures RequestAt(s, r, Handling) ==>
              Step(s, HandlerEnds(r, panicked)) == Some(s.(requests := s.requests[r := Returning]))
    ensures RequestAt(s, r, Returning) ==>
              var next := Step(s, ReturnTicket(r));
              next.Some? && next.value.tickets == s.tickets - 1 && next.value.requests == s.requests[r := Finished]
  {
    TicketsAreRequestsInFlight(maxConcurrent, acts, s);
  }

  /** The count of default branches does count: a ReturnTicket on an empty open channel, which
      no run meets, would raise it. */
  lemma DefaultsAreCounted(s: State, r: Rid)
    requires RequestAt(s, r, Returning) && s.tickets == 0 && !s.closed
    ensures Step(s, ReturnTicket(r)).Some? && Step(s, ReturnTicket(r)).value.defaults == s.defaults + 1
  {
  }

  // ---------- the bound is attained ----------

  /** The first n requests arrive and are admitted. */
  ghost function Admitted(n: nat): map<Rid, Pc> {
    if n == 0 then map[] else Admitted(n - 1)[n - 1 := Handling]
  }

  lemma {:induction false} AdmittedKeys(n: nat)
    ensures forall r: Rid :: r in Admitted(n) <==> r < n
    ensures forall r: Rid :: r < n ==> Admitted(n)[r] == Handling
  {
    if n == 0 {
    } else {
      AdmittedKeys(n - 1);
    }
  }

  lemma {:induction false} AdmitMany(maxConcurrent: nat, n: nat) returns (acts: seq<Action>)
    requires n <= maxConcurrent + 1
    ensures Reaches(maxConcurrent, acts, NewLimiter(maxConcurrent).(tickets := n, requests := Admitted(n)))
  {
    if n == 0 {
      acts := [];
    } else {
      var before := AdmitMany(maxConcurrent, n - 1);
      AdmittedKeys(n - 1);
      var r := n - 1;
      var s := NewLimiter(maxConcurrent).(tickets := n - 1, requests := Admitted(n - 1));
      var more := AdmitRun(r);
      acts := before + more;
      ExecAppend(Step, NewLimiter(maxConcurrent), before, more);
      AdmitOne(s, r);
    }
  }

  ghost function AdmitRun(r: Rid): seq<Action> {
    [Arrive(r)] + ([Load(r)] + ([Select(r, SendTicket)] + []))
  }

  lemma AdmitOne(s: State, r: Rid)
    requires r !in s.requests && !s.ticketsState && !s.closed && s.tickets <= s.maxConcurrent
    ensures Exec(Step, s, AdmitRun(r)) == Some(s.(tickets := s.tickets + 1, requests := s.requests[r := Handling]))
  {
    var s1 := Step(s, Arrive(r)).value;
    var s2 := Step(s1, Load(r)).value;
    var s3 := Step(s2, Select(r, SendTicket)).value;
    ExecCons(Step, s2, Select(r, SendTicket), []);
    ExecCons(Step, s1, Load(r), [Select(r, SendTicket)] + []);
    ExecCons(Step, s, Arrive(r), [Load(r)] + ([Select(r, SendTicket)] + []));
    assert s3.requests == s.requests[r := Handling];
  }

  /** For every limit there is a run with maxConcurrent + 1 requests in flight. */
  lemma BoundIsAttained(maxConcurrent: nat)
    ensures exists acts, s :: Reaches(maxConcurrent, acts, s) && |InFlight(s)| == maxConcurrent + 1
  {
    var acts := AdmitMany(maxConcurrent, maxConcurrent + 1);
    var s := NewLimiter(maxConcurrent).(tickets := maxConcurrent + 1, requests := Admitted(maxConcurrent + 1));
    TicketsAreRequestsInFlight(maxConcurrent, acts, s);
  }

  // ---------- shutdown ----------

  /** Neither admitted nor past a load of 0. */
  ghost predicate NotLoaded(s: State, r: Rid) {
    r in s.requests ==> s.requests[r] == Entered || s.requests[r] == Rejected
  }

  /** Once the flag is stored, a request that has not loaded it yet is never admitted. */
  lemma {:induction false} NoAdmissionAfterStore(s: State, r: Rid, more: seq<Action>)
    requires s.ticketsState && NotLoaded(s, r)
    ensures Exec(Step, s, more).Some? ==> NotLoaded(Exec(Step, s, more).value, r)
    decreases |more|
  {
    if |more| == 0 {
    } else if Step(s, more[0]).Some? {
      NoAdmissionAfterStore(Step(s, more[0]).value, r, more[1..]);
    }
  }

  /** Once the channel is closed, no request at all is admitted. */
  lemma {:induction false} NoAdmissionAfterClose(s: State, more: seq<Action>)
    requires s.closed
    ensures Exec(Step, s, more).Some? ==>
              InFlight(Exec(Step, s, more).value) <= InFlight(s) && Exec(Step, s, more).value.closed
    decreases |more|
  {
    if |more| == 0 {
    } else if Step(s, more[0]).Some? {
      var t := Step(s, more[0]).value;
      assert InFlight(t) <= InFlight(s);
      NoAdmissionAfterClose(t, more[1..]);
    }
  }

  /** The limiter itself panics (on a closed channel) only once shutdown has closed it, and
      a request that does so holds no ticket. */
  lemma PanicsOnlyAfterClose(maxConcurrent: nat, acts: seq<Action>, s: State, r: Rid)
    requires Reaches(maxConcurrent, acts, s) && RequestAt(s, r, Panicked)
    ensures s.closed && s.ticketsState && s.appClosed && r !in InFlight(s)
  {
    ReachableInv(maxConcurrent, acts, s);
  }

  /** Not yet past its select, or not yet arrived. */
  ghost predicate BeforeSelect(s: State, r: Rid) {
    r in s.requests ==> s.requests[r] == Entered || s.requests[r] == Loaded
  }

  ghost predicate CanAdmit(s: State) {
    exists more, t, r :: Exec(Step, s, more) == Some(t) && BeforeSelect(s, r) && RequestAt(t, r, Handling)
  }

  lemma FreshRequest(s: State) returns (r: Rid)
    ensures r !in s.requests
  {
    var n := |s.requests.Keys| + 1;
    if Below(n) <= s.requests.Keys {
      SubsetSize(Below(n), s.requests.Keys);
    }
    r :| r in Below(n) && r !in s.requests.Keys;
  }

  /** A full channel can be relieved of a ticket while the requests before their select
      stay where they are. */
  lemma MakeRoom(s: State) returns (acts: seq<Action>, t: State)
    requires Inv(s)
    ensures Exec(Step, s, acts) == Some(t) && t.tickets <= t.maxConcurrent
    ensures t.closed == s.closed && t.ticketsState == s.ticketsState
    ensures forall r :: RequestAt(s, r, Loaded) ==> RequestAt(t, r, Loaded)
    ensures forall r :: r !in s.requests ==> r !in t.requests
  {
    acts, t := [], s;
    if s.tickets > s.maxConcurrent {
      assert InFlight(s) != {} by {
        assert At(s.requests, Handling) != {} || At(s.requests, Returning) != {};
      }
      var q :| q in InFlight(s);
      var u := s;
      if RequestAt(s, q, Handling) {
        u := Step(s, HandlerEnds(q, false)).value;
        ExecCons(Step, s, HandlerEnds(q, false), [ReturnTicket(q)] + []);
        acts := [HandlerEnds(q, false)];
      }
      ExecCons(Step, u, ReturnTicket(q), []);
      acts, t := acts + ([ReturnTicket(q)] + []), Step(u, ReturnTicket(q)).value;
    }
  }

  lemma AdmitLoaded(s: State, r: Rid)
    requires RequestAt(s, r, Loaded) && !s.closed && s.tickets <= s.maxConcurrent
    ensures var t := Exec(Step, s, [Select(r, SendTicket)] + []); t.Some? && RequestAt(t.value, r, Handling)
  {
    ExecCons(Step, s, Select(r, SendTicket), []);
  }

  lemma CanAdmitLoaded(s: State, r: Rid)
    requires Inv(s) && RequestAt(s, r, Loaded) && !s.closed
    ensures CanAdmit(s)
  {
    var first, u := MakeRoom(s);
    AdmitLoaded(u, r);
    ExecAppend(Step, s, first, [Select(r, SendTicket)] + []);
    assert BeforeSelect(s, r);
  }

  lemma CanAdmitNew(s: State)
    requires Inv(s) && !s.ticketsState
    ensures CanAdmit(s)
  {
    var r := FreshRequest(s);
    var first, u := MakeRoom(s);
    AdmitOne(u, r);
    ExecAppend(Step, s, first, AdmitRun(r));
    assert BeforeSelect(s, r);
  }

  /** When a request that has not selected yet can still be admitted: as long as the flag is
      not stored; and after that, for whatever limit and however full the channel is, until
      the close, if and only if some request loaded the flag before. */
  lemma LateAdmissionIff(maxConcurrent: nat, acts: seq<Action>, s: State)
    requires Reaches(maxConcurrent, acts, s)
    ensures CanAdmit(s) <==> !s.ticketsState || (!s.closed && exists r :: RequestAt(s, r, Loaded))
  {
    ReachableInv(maxConcurrent, acts, s);
    if !s.ticketsState {
      CanAdmitNew(s);
    } else if CanAdmit(s) {
      var more, t, r :| Exec(Step, s, more) == Some(t) && BeforeSelect(s, r) && RequestAt(t, r, Handling);
      assert r in InFlight(t) && r !in InFlight(s);
      if !RequestAt(s, r, Loaded) {
        NoAdmissionAfterStore(s, r, more);
      }
      if s.closed {
        NoAdmissionAfterClose(s, more);
      }
    } else if r :| RequestAt(s, r, Loaded) && !s.closed {
      CanAdmitLoaded(s, r);
    }
  }

  /** Under every limit a request can be admitted after another took the shutdown case and
      stored the flag. */
  lemma LateAdmission(maxConcurrent: nat)
    ensures exists acts, s, r :: Reaches(maxConcurrent, acts, s) && s.ticketsState && RequestAt(s, r, Loaded) &&
                                 Step(s, Select(r, SendTicket)).Some? &&
                                 RequestAt(Step(s, Select(r, SendTicket)).value, r, Handling)
  {
    var s0 := NewLimiter(maxConcurrent);
    var loaded := s0.(requests := map[0 := Loaded, 1 := Loaded]);
    var stored := loaded.(appClosed := true, ticketsState := true, requests := map[0 := Loaded, 1 := Closing]);
    TwoLoad(maxConcurrent, s0, loaded);
    OneStores(loaded, stored);
    ExecAppend(Step, s0, TwoLoadRun(), OneStoresRun());
    assert Reaches(maxConcurrent, TwoLoadRun() + OneStoresRun(), stored);
    assert RequestAt(stored, 0, Loaded);
  }

  ghost function TwoLoadRun(): seq<Action> {
    [Arrive(0)] + ([Arrive(1)] + ([Load(0)] + ([Load(1)] + [])))
  }

  ghost function OneStoresRun(): seq<Action> {
    [CloseApp] + ([Select(1, AppClose)] + ([StoreState(1)] + []))
  }

  lemma TwoLoad(maxConcurrent: nat, s: State, t: State)
    requires s == NewLimiter(maxConcurrent) && t == s.(requests := map[0 := Loaded, 1 := Loaded])
    ensures Exec(Step, s, TwoLoadRun()) == Some(t)
  {
    var s1 := Step(s, Arrive(0)).value;
    var s2 := Step(s1, Arrive(1)).value;
    var s3 := Step(s2, Load(0)).value;
    var s4 := Step(s3, Load(1)).value;
    ExecCons(Step, s3, Load(1), []);
    ExecCons(Step, s2, Load(0), [Load(1)] + []);
    ExecCons(Step, s1, Arrive(1), [Load(0)] + ([Load(1)] + []));
    ExecCons(Step, s, Arrive(0), [Arrive(1)] + ([Load(0)] + ([Load(1)] + [])));
    assert s4.requests == t.requests;
  }

  lemma OneStores(s: State, t: State)
    requires s.requests == map[0 := Loaded, 1 := Loaded]
    requires t == s.(appClosed := true, ticketsState := true, requests := map[0 := Loaded, 1 := Closing])
    ensures Exec(Step, s, OneStoresRun()) == Some(t)
  {
    var s1 := Step(s, CloseApp).value;
    var s2 := Step(s1, Select(1, AppClose)).value;
    var s3 := Step(s2, StoreState(1)).value;
    ExecCons(Step, s2, StoreState(1), []);
    ExecCons(Step, s1, Select(1, AppClose), [StoreState(1)] + []);
    ExecCons(Step, s, CloseApp, [Select(1, AppClose)] + ([StoreState(1)] + []));
    assert s3.requests == t.requests;
  }

  // ---------- when the limiter panics ----------

  /** Past a load of 0 and not yet past its part of the shutdown. */
  ghost predicate Armed(s: State, r: Rid) {
    RequestAt(s, r, Loaded) || RequestAt(s, r, Storing) || RequestAt(s, r, Closing)
  }

  /** Some continuation in which a request panics that has not done so yet. */
  ghost predicate CanPanic(s: State) {
    exists more, t, r :: Exec(Step, s, more) == Some(t) && RequestAt(t, r, Panicked) && !RequestAt(s, r, Panicked)
  }

  /** An armed request goes through with the shutdown: it closes the channel, or panics
      because the channel is closed. */
  lemma {:induction false} Closes(s: State, r: Rid) returns (acts: seq<Action>, t: State)
    requires Armed(s, r)
    ensures Exec(Step, s, acts) == Some(t) && t.closed
    ensures t.requests == s.requests[r := if s.closed then Panicked else Rejected]
    decreases match s.requests[r] case Loaded => 2 case Storing => 1 case _ => 0, !s.appClosed
  {
    var a := match s.requests[r]
      case Loaded => if s.appClosed then Select(r, AppClose) else CloseApp
      case Storing => StoreState(r)
      case _ => CloseTickets(r);
    t := Step(s, a).value;
    var rest: seq<Action> := [];
    if a.CloseTickets? {
    } else {
      rest, t := Closes(t, r);
    }
    ExecCons(Step, s, a, rest);
    acts := [a] + rest;
  }

  lemma PanicsArmed(s: State, q: Rid, r: Rid)
    requires Armed(s, q) && Armed(s, r) && (s.closed || q != r)
    ensures CanPanic(s)
  {
    var first, t := Closes(s, q);
    if !s.closed {
      var second, u := Closes(t, r);
      ExecAppend(Step, s, first, second);
      assert RequestAt(u, r, Panicked) && !RequestAt(s, r, Panicked);
    } else {
      assert RequestAt(t, q, Panicked) && !RequestAt(s, q, Panicked);
    }
  }

  /** While the flag is not stored, a new request can load it. */
  lemma NewArmed(s: State) returns (acts: seq<Action>, t: State, r: Rid)
    requires !s.ticketsState
    ensures Exec(Step, s, acts) == Some(t) && !t.ticketsState && t.closed == s.closed
    ensures r !in s.requests && t.requests == s.requests[r := Loaded]
  {
    r := FreshRequest(s);
    var u := Step(s, Arrive(r)).value;
    t := Step(u, Load(r)).value;
    ExecCons(Step, u, Load(r), []);
    ExecCons(Step, s, Arrive(r), [Load(r)] + []);
    acts := [Arrive(r)] + ([Load(r)] + []);
  }

  lemma PanicsBeforeStore(s: State)
    requires Inv(s) && !s.ticketsState
    ensures CanPanic(s)
  {
    var first, t, q := NewArmed(s);
    var second, u, r := NewArmed(t);
    PanicsArmed(u, q, r);
    var more, v, p :| Exec(Step, u, more) == Some(v) && RequestAt(v, p, Panicked) && !RequestAt(u, p, Panicked);
    ExecAppend(Step, s, first, second);
    ExecAppend(Step, s, first + second, more);
    assert !RequestAt(s, p, Panicked);
  }

  /** The flag is stored, and at most one request is still to close the channel. */
  ghost predicate Settled(s: State) {
    && s.ticketsState
    && (s.closed ==> forall r :: !Armed(s, r))
    && (forall q, r :: Armed(s, q) && Armed(s, r) ==> q == r)
  }

  lemma SettledStep(s: State, a: Action)
    requires Settled(s) && Step(s, a).Some?
    ensures var t := Step(s, a).value;
            Settled(t) && forall r :: RequestAt(t, r, Panicked) ==> RequestAt(s, r, Panicked)
  {
    var t := Step(s, a).value;
    assert !a.CloseApp? ==> t.requests == s.requests[a.rid := t.requests[a.rid]];
    forall r | Armed(t, r) ensures Armed(s, r) {
      assert a.CloseApp? || r == a.rid || t.requests[r] == s.requests[r];
    }
    if !a.CloseApp? && (a.Select? || a.CloseTickets?) {
      assert Armed(s, a.rid) && !s.closed;
    }
  }

  lemma {:induction false} SettledRun(s: State, more: seq<Action>)
    requires Settled(s)
    ensures Exec(Step, s, more).Some? ==>
              forall r :: RequestAt(Exec(Step, s, more).value, r, Panicked) ==> RequestAt(s, r, Panicked)
    decreases |more|
  {
    if |more| == 0 {
    } else if Step(s, more[0]).Some? {
      SettledStep(s, more[0]);
      SettledRun(Step(s, more[0]).value, more[1..]);
    }
  }

  /** In every reachable state a further panic is possible if and only if the flag is not
      stored yet, or some request that loaded 0 is not past its select and shutdown while
      the channel is closed, or two such requests are left. */
  lemma PanicIff(maxConcurrent: nat, acts: seq<Action>, s: State)
    requires Reaches(maxConcurrent, acts, s)
    ensures CanPanic(s) <==>
            || !s.ticketsState
            || (s.closed && exists r :: Armed(s, r))
            || exists q, r :: q != r && Armed(s, q) && Armed(s, r)
  {
    ReachableInv(maxConcurrent, acts, s);
    if !s.ticketsState {
      PanicsBeforeStore(s);
    } else if r :| s.closed && Armed(s, r) {
      PanicsArmed(s, r, r);
    } else if q, r :| q != r && Armed(s, q) && Armed(s, r) {
      PanicsArmed(s, q, r);
    } else if CanPanic(s) {
      var more, t, r :| Exec(Step, s, more) == Some(t) && RequestAt(t, r, Panicked) && !RequestAt(s, r, Panicked);
      SettledRun(s, more);
    }
  }

  /** So under every limit the limiter can panic. */
  lemma LimiterCanPanic(maxConcurrent: nat)
    ensures exists acts, s, r :: Reaches(maxConcurrent, acts, s) && RequestAt(s, r, Panicked)
  {
    var s0 := NewLimiter(maxConcurrent);
    PanicIff(maxConcurrent, [], s0);
    var more, t, r :| Exec(Step, s0, more) == Some(t) && RequestAt(t, r, Panicked) && !RequestAt(s0, r, Panicked);
    assert Reaches(maxConcurrent, more, t);
  }
}
