/** Who owns an etcd key, in every run with crashes and ambiguous writes. */
module RegistrationProofs {
  import opened Prelude
  import opened Runs
  import opened Keys
  import opened Text
  import opened Registration

  /** The instance's create took effect and its delete has not. */
  ghost predicate Owns(i: Instance) {
    i.write == Applied && i.delete != Applied
  }

  ghost predicate PhaseInv(i: Instance) {
    && i.ip.V4?
    && (i.pc == Looking || i.pc == Writing ==> i.write == NotSent)
    && (i.pc == Registered || i.pc == DeleteSent || i.pc == Finished || i.delete != NotSent ==> i.write == Applied)
    && (i.pc == Looking || i.pc == Writing || i.pc == WriteSent || i.pc == Registered || i.pc == Failed ==>
          i.delete == NotSent)
  }

  ghost predicate PhasesInv(s: State) {
    forall id :: id in s.instances ==> PhaseInv(s.instances[id])
  }

  ghost predicate OwnedIn(s: State, id: Id)
    requires id in s.instances
  {
    KeyOf(s.instances[id]) in s.store && s.store[KeyOf(s.instances[id])] == Encoded(ConfigOf(s.instances[id]))
  }

  ghost predicate SoleOwner(s: State, id: Id)
    requires id in s.instances
  {
    forall other :: other in s.instances && Owns(s.instances[other]) && other != id ==>
      KeyOf(s.instances[other]) != KeyOf(s.instances[id])
  }

  /** An owner's key holds its own configuration. */
  ghost predicate StoreInv(s: State) {
    forall id :: id in s.instances && Owns(s.instances[id]) ==> OwnedIn(s, id)
  }

  ghost predicate OwnerInv(s: State) {
    forall id :: id in s.instances && Owns(s.instances[id]) ==> SoleOwner(s, id)
  }

  ghost predicate Inv(s: State) {
    PhasesInv(s) && StoreInv(s) && OwnerInv(s)
  }

  /** A step changes one instance, and of it neither the key nor the configuration. */
  lemma StepChangesOne(s: State, a: Action)
    requires Step(s, a).Some?
    ensures var t := Step(s, a).value;
            && a.id in t.instances && t.instances == s.instances[a.id := t.instances[a.id]]
            && (a.id in s.instances ==>
                  KeyOf(t.instances[a.id]) == KeyOf(s.instances[a.id]) &&
                  ConfigOf(t.instances[a.id]) == ConfigOf(s.instances[a.id]))
            && (a.id !in s.instances ==> a.Start? && !Owns(t.instances[a.id]))
  {
  }

  /** Only two steps touch the store: an owner appears with a create of an absent key, or
      a delete removes the key. */
  lemma StepAndStore(s: State, a: Action)
    requires PhasesInv(s) && Step(s, a).Some?
    ensures var t := Step(s, a).value;
            var key := KeyOf(t.instances[a.id]);
            || (t.store == s.store &&
                (a.id in s.instances ==> (Owns(t.instances[a.id]) <==> Owns(s.instances[a.id]))))
            || (a.ApplyWrite? && key !in s.store && t.store == s.store[key := Encoded(ConfigOf(t.instances[a.id]))])
            || (a.ApplyDelete? && s.instances[a.id].delete == InFlight && t.store == s.store - {key}
                && t.instances[a.id].delete == Applied)
  {
    if a.id in s.instances {
      assert PhaseInv(s.instances[a.id]);
    }
  }

  lemma PhasesStep(s: State, a: Action)
    requires PhasesInv(s) && Step(s, a).Some?
    ensures PhasesInv(Step(s, a).value)
  {
    StepChangesOne(s, a);
    if a.id in s.instances {
      assert PhaseInv(s.instances[a.id]);
    }
  }

  lemma OwnersStep(s: State, a: Action)
    requires Inv(s) && Step(s, a).Some?
    ensures StoreInv(Step(s, a).value) && OwnerInv(Step(s, a).value)
  {
    var t := Step(s, a).value;
    StepChangesOne(s, a);
    StepAndStore(s, a);
    forall id | id in t.instances && Owns(t.instances[id])
      ensures OwnedIn(t, id) && SoleOwner(t, id)
    {
      if id == a.id && a.id in s.instances { ActorOwns(s, a); } else { BystanderOwns(s, a, id); }
    }
  }

  lemma ActorOwns(s: State, a: Action)
    requires Inv(s) && Step(s, a).Some? && a.id in s.instances && Owns(Step(s, a).value.instances[a.id])
    ensures var t := Step(s, a).value;
            OwnedIn(t, a.id) && SoleOwner(t, a.id)
  {
    var t := Step(s, a).value;
    StepChangesOne(s, a);
    StepAndStore(s, a);
    assert PhaseInv(s.instances[a.id]);
    if Owns(s.instances[a.id]) {
      assert OwnedIn(s, a.id) && SoleOwner(s, a.id);
    } else {
      assert a.ApplyWrite? && KeyOf(s.instances[a.id]) !in s.store;
      forall other | other in s.instances && Owns(s.instances[other]) ensures OwnedIn(s, other) {
      }
    }
  }

  lemma BystanderOwns(s: State, a: Action, id: Id)
    requires Inv(s) && Step(s, a).Some? && id != a.id && id in s.instances && Owns(s.instances[id])
    ensures var t := Step(s, a).value;
            id in t.instances && OwnedIn(t, id) && SoleOwner(t, id)
  {
    StepChangesOne(s, a);
    StepAndStore(s, a);
    assert OwnedIn(s, id) && SoleOwner(s, id);
    if a.id in s.instances {
      assert PhaseInv(s.instances[a.id]);
    }
  }

  lemma StepKeepsInv(s: State, a: Action)
    requires Inv(s) && Step(s, a).Some?
    ensures Inv(Step(s, a).value)
  {
    PhasesStep(s, a);
    OwnersStep(s, a);
  }

  ghost predicate Reaches(store: map<string, Value>, dirs: set<string>, acts: seq<Action>, s: State) {
    Exec(Step, Begin(store, dirs), acts) == Some(s)
  }

  lemma EveryStepKeepsInv()
    ensures Preserved(Step, Inv)
  {
    forall s, a | Inv(s) && Step(s, a).Some? ensures Inv(Step(s, a).value) {
      StepKeepsInv(s, a);
    }
  }

  lemma ReachableInv(store: map<string, Value>, dirs: set<string>, acts: seq<Action>, s: State)
    requires Reaches(store, dirs, acts, s)
    ensures Inv(s)
  {
    EveryStepKeepsInv();
    InvariantHolds(Step, Inv, Begin(store, dirs), acts);
  }

  // ---------- main results ----------

  /** A process without a port of its own asks for the one it draws, and then different draws
      give different keys; with a port of its own the draw does not matter. */
  lemma DrawnPort(initialPort: int, drawn: nat, other: nat, name: string, ip: Host)
    requires 50000 <= drawn < 60000 && 50000 <= other < 60000 && ip.V4?
    ensures initialPort <= 0 ==> 50000 <= StartPort(initialPort, drawn) < 60000
    ensures initialPort <= 0 ==>
              (InstanceKey(name, ip, StartPort(initialPort, drawn)) == InstanceKey(name, ip, StartPort(initialPort, other))
               <==> drawn == other)
    ensures initialPort <= 0 ==> InstanceKey(name, ip, StartPort(initialPort, drawn)) == InstanceKey(name, ip, drawn)
    ensures initialPort > 0 ==> StartPort(initialPort, drawn) == initialPort
  {
    if initialPort <= 0 && InstanceKey(name, ip, drawn) == InstanceKey(name, ip, other) {
      InstanceKeyInjective(name, ip, drawn, name, ip, other);
    }
  }

  /** After its lookup an instance goes on to write exactly when the key is absent, or holds
      a readable configuration of another address number or port. */
  lemma LookupDecides(s: State, id: Id, clientError: bool)
    requires Step(s, Get(id, clientError)).Some?
    ensures var i, t := s.instances[id], Step(s, Get(id, clientError)).value;
            && t == s.(instances := t.instances)
            && t.instances[id].pc in {Writing, Failed}
            && (t.instances[id].pc == Writing <==>
                  !clientError &&
                  (KeyOf(i) in s.store ==>
                     var value := s.store[KeyOf(i)];
                     && value.Encoded? && value.config.port != ""
                     && (HostNumber(value.config.ip) != HostNumber(i.ip) || value.config.port != Decimal(i.port))))
  {
    var i := s.instances[id];
    if KeyOf(i) in s.store && s.store[KeyOf(i)].Encoded? {
      var config := s.store[KeyOf(i)].config;
      SequenceInjective(config.ip, config.port, i.ip, Decimal(i.port));
    }
  }

  ghost predicate Serving(s: State, id: Id) {
    id in s.instances && s.instances[id].pc == Registered
  }

  /** At most one instance is registered for a name, address and port; its key holds its
      own configuration; and no step of another instance changes that. */
  lemma RegistrationOwnership(store: map<string, Value>, dirs: set<string>, acts: seq<Action>, s: State, id: Id)
    requires Reaches(store, dirs, acts, s) && Serving(s, id)
    ensures forall other :: Serving(s, other) && other != id ==>
              var i, j := s.instances[id], s.instances[other];
              i.name != j.name || i.ip != j.ip || i.port != j.port
    ensures KeyOf(s.instances[id]) in s.store && s.store[KeyOf(s.instances[id])] == 
            Encoded(Config(s.instances[id].ip, Decimal(s.instances[id].port), s.instances[id].payload))
    ensures forall a :: Step(s, a).Some? && a.id != id ==>
              var t := Step(s, a).value;
              Serving(t, id) && t.instances[id] == s.instances[id] &&
              KeyOf(s.instances[id]) in t.store && t.store[KeyOf(s.instances[id])] == s.store[KeyOf(s.instances[id])]
  {
    ReachableInv(store, dirs, acts, s);
    assert PhaseInv(s.instances[id]);
    assert Owns(s.instances[id]) && OwnedIn(s, id) && SoleOwner(s, id);
    forall a | Step(s, a).Some? && a.id != id
      ensures var t := Step(s, a).value;
              Serving(t, id) && t.instances[id] == s.instances[id] &&
              KeyOf(s.instances[id]) in t.store && t.store[KeyOf(s.instances[id])] == s.store[KeyOf(s.instances[id])]
    {
      StepChangesOne(s, a);
      BystanderOwns(s, a, id);
    }
    forall other | Serving(s, other) && other != id
      ensures var i, j := s.instances[id], s.instances[other];
              i.name != j.name || i.ip != j.ip || i.port != j.port
    {
      assert PhaseInv(s.instances[other]);
      assert Owns(s.instances[other]);
    }
  }

  /** From the moment an instance is registered until its own delete takes effect, through
      an unregistration on its way, a delete never sent or lost, and a crash, the key holds
      its configuration and nobody else is registered under it. */
  lemma RegistrationLasts(
    store: map<string, Value>, dirs: set<string>, acts: seq<Action>, s: State, id: Id, more: seq<Action>, t: State)
    requires Reaches(store, dirs, acts, s) && Serving(s, id)
    requires Exec(Step, s, more) == Some(t)
    ensures id in t.instances
    ensures t.instances[id].delete != Applied ==>
              && KeyOf(s.instances[id]) in t.store
              && t.store[KeyOf(s.instances[id])] ==
                 Encoded(Config(s.instances[id].ip, Decimal(s.instances[id].port), s.instances[id].payload))
              && forall other :: Serving(t, other) && KeyOf(t.instances[other]) == KeyOf(s.instances[id]) ==> other == id
  {
    ReachableInv(store, dirs, acts, s);
    EveryStepKeepsInv();
    InvariantHolds(Step, Inv, s, more);
    assert PhaseInv(s.instances[id]);
    AppliedStays(s, id, more);
    if t.instances[id].delete != Applied {
      KeyIsHeld(t, id);
    }
  }

  lemma KeyIsHeld(s: State, id: Id)
    requires Inv(s) && id in s.instances && Owns(s.instances[id])
    ensures OwnedIn(s, id)
    ensures forall other :: Serving(s, other) && other != id ==> KeyOf(s.instances[other]) != KeyOf(s.instances[id])
  {
    assert SoleOwner(s, id);
    forall other | Serving(s, other) && other != id ensures KeyOf(s.instances[other]) != KeyOf(s.instances[id]) {
      assert PhaseInv(s.instances[other]);
      assert Owns(s.instances[other]);
    }
  }

  /** Whatever happens later, an instance whose registration returned an error never
      sends a delete. */
  lemma {:induction false} FailedNeverDeletes(s: State, id: Id, more: seq<Action>)
    requires Inv(s) && id in s.instances && s.instances[id].pc == Failed
    ensures Exec(Step, s, more).Some? ==>
              var t := Exec(Step, s, more).value;
              id in t.instances && t.instances[id].pc == Failed && t.instances[id].delete == NotSent
    decreases |more|
  {
    assert PhaseInv(s.instances[id]);
    if |more| == 0 {
    } else if Step(s, more[0]).Some? {
      StepKeepsInv(s, more[0]);
      StepChangesOne(s, more[0]);
      FailedNeverDeletes(Step(s, more[0]).value, id, more[1..]);
    }
  }

  // ---------- keys that stay behind ----------

  /** An owner that neither serves nor can come to serve, and whose delete is not on its
      way: it failed after its create took effect, it crashed, or its delete was never
      sent or got lost. */
  ghost predicate Abandoned(i: Instance) {
    Owns(i) && i.pc != WriteSent && i.pc != Registered && i.delete != InFlight
  }

  /** The key of such an instance keeps its configuration for ever, and nobody is ever
      registered under it again. */
  lemma AbandonedKeyIsBlocked(
    store: map<string, Value>, dirs: set<string>, acts: seq<Action>, s: State, id: Id, more: seq<Action>, t: State)
    requires Reaches(store, dirs, acts, s) && id in s.instances && Abandoned(s.instances[id])
    requires Exec(Step, s, more) == Some(t)
    ensures KeyOf(s.instances[id]) in t.store &&
            t.store[KeyOf(s.instances[id])] ==
            Encoded(Config(s.instances[id].ip, Decimal(s.instances[id].port), s.instances[id].payload))
    ensures forall other :: Serving(t, other) ==> KeyOf(t.instances[other]) != KeyOf(s.instances[id])
  {
    ReachableInv(store, dirs, acts, s);
    EveryStepKeepsInv();
    InvariantHolds(Step, Inv, s, more);
    AppliedStays(s, id, more);
    StaysAbandoned(s, id, more);
    KeyIsHeld(t, id);
    assert !Serving(t, id);
  }

  lemma {:induction false} StaysAbandoned(s: State, id: Id, more: seq<Action>)
    requires Inv(s) && id in s.instances && Abandoned(s.instances[id])
    ensures Exec(Step, s, more).Some? ==>
              id in Exec(Step, s, more).value.instances && Abandoned(Exec(Step, s, more).value.instances[id])
    decreases |more|
  {
    if |more| == 0 {
    } else if Step(s, more[0]).Some? {
      assert PhaseInv(s.instances[id]);
      StepKeepsInv(s, more[0]);
      StepChangesOne(s, more[0]);
      StaysAbandoned(Step(s, more[0]).value, id, more[1..]);
    }
  }

  /** A registered instance is abandoned by a crash, by an unregistration that fails before
      it sends its delete, and by a delete that gets lost. */
  lemma RegisteredCanBeAbandoned(s: State, id: Id)
    requires Inv(s) && Serving(s, id)
    ensures forall more :: more in [[Crash(id)], [SkipDelete(id)], [SendDelete(id)] + [LoseDelete(id)]] ==>
              Exec(Step, s, more).Some? && id in Exec(Step, s, more).value.instances &&
              Abandoned(Exec(Step, s, more).value.instances[id])
  {
    assert PhaseInv(s.instances[id]);
    var sent := Step(s, SendDelete(id)).value;
    ExecCons(Step, s, Crash(id), []);
    ExecCons(Step, s, SkipDelete(id), []);
    ExecCons(Step, sent, LoseDelete(id), []);
    ExecCons(Step, s, SendDelete(id), [LoseDelete(id)]);
    assert [Crash(id)] + [] == [Crash(id)];
    assert [SkipDelete(id)] + [] == [SkipDelete(id)];
    assert [LoseDelete(id)] + [] == [LoseDelete(id)];
  }

  /** What may happen at any time, whatever else has happened to the instance: a process starts
      under any name, address and port; a request on its way takes effect or gets lost, also
      after its sender has given up or crashed; a client that waits for an answer sees an
      error; and a process that has not ended crashes. */
  lemma EnvironmentIsFree(s: State, id: Id, name: string, ip: Host, port: nat, payload: string)
    ensures id !in s.instances && ip.V4? ==> Step(s, Start(id, name, ip, port, payload)).Some?
    ensures id in s.instances ==>
              var i := s.instances[id];
              && (i.write == InFlight ==> Step(s, ApplyWrite(id)).Some? && Step(s, LoseWrite(id)).Some?)
              && (i.delete == InFlight ==> Step(s, ApplyDelete(id)).Some? && Step(s, LoseDelete(id)).Some?)
              && (i.pc == WriteSent ==> Step(s, WriteReturns(id, true)).Some?)
              && (i.pc == Registered ==> Step(s, SendDelete(id)).Some? && Step(s, SkipDelete(id)).Some?)
              && (i.pc == DeleteSent ==> Step(s, DeleteReturns(id)).Some?)
              && (i.pc !in {Finished, Failed, Crashed} ==> Step(s, Crash(id)).Some?)
  {
  }

  ghost function GiveUpRun(id: Id, name: string, ip: Host, port: nat): seq<Action> {
    [Start(id, name, ip, port, [])] + ([Get(id, false)] + ([SendWrite(id)] + ([WriteReturns(id, true)] + [])))
  }

  lemma GivesUp(s: State, id: Id, name: string, ip: Host, port: nat)
    requires id !in s.instances && ip.V4? && InstanceKey(name, ip, port) !in s.store
    ensures Exec(Step, s, GiveUpRun(id, name, ip, port)) ==
            Some(s.(instances := s.instances[id := Instance(name, ip, port, [], Failed, InFlight, NotSent)]))
  {
    var s1 := Step(s, Start(id, name, ip, port, [])).value;
    var s2 := Step(s1, Get(id, false)).value;
    var s3 := Step(s2, SendWrite(id)).value;
    var s4 := Step(s3, WriteReturns(id, true)).value;
    var r3 := [WriteReturns(id, true)] + [];
    var r2 := [SendWrite(id)] + r3;
    ExecCons(Step, s3, WriteReturns(id, true), []);
    ExecCons(Step, s2, SendWrite(id), r3);
    ExecCons(Step, s1, Get(id, false), r2);
    ExecCons(Step, s, Start(id, name, ip, port, []), [Get(id, false)] + r2);
    assert s4.instances == s.instances[id := Instance(name, ip, port, [], Failed, InFlight, NotSent)];
  }

  /** A create can even take effect after its client has given up: from any state without the
      key, a new instance can end up failed, its key absent, its request still on the way;
      and when that arrives the key is abandoned. */
  lemma LateCreateHappens(s: State, id: Id, name: string, ip: Host, port: nat)
    requires id !in s.instances && ip.V4? && InstanceKey(name, ip, port) !in s.store
    ensures exists acts, t ::
              && Exec(Step, s, acts) == Some(t) && t.store == s.store && id in t.instances
              && t.instances[id].pc == Failed && KeyOf(t.instances[id]) == InstanceKey(name, ip, port)
              && Step(t, ApplyWrite(id)).Some? && Abandoned(Step(t, ApplyWrite(id)).value.instances[id])
              && InstanceKey(name, ip, port) in Step(t, ApplyWrite(id)).value.store
  {
    GivesUp(s, id, name, ip, port);
    var t := s.(instances := s.instances[id := Instance(name, ip, port, [], Failed, InFlight, NotSent)]);
    ArrivesLate(t, id);
    assert Exec(Step, s, GiveUpRun(id, name, ip, port)) == Some(t);
  }

  lemma ArrivesLate(s: State, id: Id)
    requires id in s.instances && s.instances[id].pc == Failed && s.instances[id].write == InFlight
    requires s.instances[id].delete == NotSent && KeyOf(s.instances[id]) !in s.store
    ensures var next := Step(s, ApplyWrite(id));
            && next.Some? && Abandoned(next.value.instances[id])
            && KeyOf(s.instances[id]) in next.value.store
  {
  }

  // ---------- when a key can be registered ----------

  ghost predicate ServesKey(s: State, id: Id, key: string) {
    Serving(s, id) && KeyOf(s.instances[id]) == key
  }

  /** Some continuation, the empty one included, has an instance registered under the key. */
  ghost predicate CanServe(s: State, key: string) {
    exists more, t, id :: Exec(Step, s, more) == Some(t) && ServesKey(t, id, key)
  }

  /** An owner of the key that may yet serve, or whose delete is on its way. */
  ghost predicate Lively(s: State, id: Id, key: string) {
    && id in s.instances && KeyOf(s.instances[id]) == key && Owns(s.instances[id])
    && (s.instances[id].pc == WriteSent || s.instances[id].pc == Registered || s.instances[id].delete == InFlight)
  }

  lemma FreshId(s: State) returns (id: Id)
    ensures id !in s.instances
  {
    var n := |s.instances.Keys| + 1;
    if Below(n) <= s.instances.Keys {
      SubsetSize(Below(n), s.instances.Keys);
    }
    id :| id in Below(n) && id !in s.instances.Keys;
  }

  ghost function RegisterRun(id: Id, name: string, ip: Host, port: nat, clientError: bool): seq<Action> {
    [Start(id, name, ip, port, [])]
    + ([Get(id, false)] + ([SendWrite(id)] + ([ApplyWrite(id)] + ([WriteReturns(id, clientError)] + []))))
  }

  /** The create of a new instance under an absent key takes effect; the answer makes it
      registered, or an error makes its registration fail. */
  lemma CreatesAbsent(s: State, id: Id, name: string, ip: Host, port: nat, clientError: bool)
    requires id !in s.instances && ip.V4? && InstanceKey(name, ip, port) !in s.store
    ensures var t := Exec(Step, s, RegisterRun(id, name, ip, port, clientError));
            && t.Some? && id in t.value.instances
            && t.value.instances[id] ==
               Instance(name, ip, port, [], if clientError then Failed else Registered, Applied, NotSent)
  {
    var s1 := Step(s, Start(id, name, ip, port, [])).value;
    var s2 := Step(s1, Get(id, false)).value;
    var s3 := Step(s2, SendWrite(id)).value;
    var s4 := Step(s3, ApplyWrite(id)).value;
    var r4 := [WriteReturns(id, clientError)] + [];
    var r3 := [ApplyWrite(id)] + r4;
    var r2 := [SendWrite(id)] + r3;
    ExecCons(Step, s4, WriteReturns(id, clientError), []);
    ExecCons(Step, s3, ApplyWrite(id), r4);
    ExecCons(Step, s2, SendWrite(id), r3);
    ExecCons(Step, s1, Get(id, false), r2);
    ExecCons(Step, s, Start(id, name, ip, port, []), [Get(id, false)] + r2);
  }

  lemma RegistersAbsent(s: State, id: Id, name: string, ip: Host, port: nat)
    requires id !in s.instances && ip.V4? && InstanceKey(name, ip, port) !in s.store
    ensures var t := Exec(Step, s, RegisterRun(id, name, ip, port, false));
            t.Some? && ServesKey(t.value, id, InstanceKey(name, ip, port))
  {
    CreatesAbsent(s, id, name, ip, port, false);
  }

  /** The run in which the create takes effect and its client sees an error. */
  lemma AmbiguousWriteHappens(store: map<string, Value>, dirs: set<string>, name: string, ip: Host, port: nat)
    requires ip.V4? && InstanceKey(name, ip, port) !in store
    ensures exists acts, s :: Reaches(store, dirs, acts, s) && 0 in s.instances && s.instances[0].pc == Failed &&
                              Abandoned(s.instances[0]) && KeyOf(s.instances[0]) == InstanceKey(name, ip, port)
  {
    CreatesAbsent(Begin(store, dirs), 0, name, ip, port, true);
    var s := Exec(Step, Begin(store, dirs), RegisterRun(0, name, ip, port, true)).value;
    assert Reaches(store, dirs, RegisterRun(0, name, ip, port, true), s);
  }

  lemma AbsentCanServe(s: State, name: string, ip: Host, port: nat)
    requires ip.V4? && InstanceKey(name, ip, port) !in s.store
    ensures CanServe(s, InstanceKey(name, ip, port))
  {
    var id := FreshId(s);
    RegistersAbsent(s, id, name, ip, port);
  }

  lemma CanServeAfter(s: State, a: Action, key: string)
    requires Step(s, a).Some? && CanServe(Step(s, a).value, key)
    ensures CanServe(s, key)
  {
    var more, t, id :| Exec(Step, Step(s, a).value, more) == Some(t) && ServesKey(t, id, key);
    ExecCons(Step, s, a, more);
  }

  lemma LivelyCanServe(s: State, id: Id, name: string, ip: Host, port: nat)
    requires Inv(s) && ip.V4? && Lively(s, id, InstanceKey(name, ip, port))
    ensures CanServe(s, InstanceKey(name, ip, port))
  {
    var key := InstanceKey(name, ip, port);
    var i := s.instances[id];
    if i.pc == Registered {
      assert Exec(Step, s, []) == Some(s) && ServesKey(s, id, key);
    } else if i.pc == WriteSent {
      var t := Step(s, WriteReturns(id, false)).value;
      assert Exec(Step, t, []) == Some(t) && ServesKey(t, id, key);
      CanServeAfter(s, WriteReturns(id, false), key);
    } else {
      assert OwnedIn(s, id);
      AbsentCanServe(Step(s, ApplyDelete(id)).value, name, ip, port);
      CanServeAfter(s, ApplyDelete(id), key);
    }
  }

  /** The key is taken and no owner of it is lively. */
  ghost predicate Blocked(s: State, key: string) {
    key in s.store && forall id :: !Lively(s, id, key)
  }

  lemma BlockedStep(s: State, a: Action, key: string)
    requires PhasesInv(s) && Blocked(s, key) && Step(s, a).Some?
    ensures Blocked(Step(s, a).value, key)
  {
    StepChangesOne(s, a);
    StepAndStore(s, a);
    if a.id in s.instances {
      assert PhaseInv(s.instances[a.id]);
      assert !Lively(s, a.id, key);
    }
    forall id ensures !Lively(Step(s, a).value, id, key) {
      assert !Lively(s, id, key);
    }
  }

  lemma {:induction false} BlockedRun(s: State, more: seq<Action>, key: string)
    requires Inv(s) && Blocked(s, key)
    ensures Exec(Step, s, more).Some? ==>
              Inv(Exec(Step, s, more).value) && Blocked(Exec(Step, s, more).value, key)
    decreases |more|
  {
    if |more| == 0 {
    } else if Step(s, more[0]).Some? {
      StepKeepsInv(s, more[0]);
      BlockedStep(s, more[0], key);
      BlockedRun(Step(s, more[0]).value, more[1..], key);
    }
  }

  /** In every reachable state a name, IPv4 address and port is registered, or can be again,
      if and only if its key is absent, or is owned by an instance that awaits the answer to
      its create, is registered, or has its delete on the way. */
  lemma KeyCanServeIff(
    store: map<string, Value>, dirs: set<string>, acts: seq<Action>, s: State, name: string, ip: Host, port: nat)
    requires Reaches(store, dirs, acts, s) && ip.V4?
    ensures var key := InstanceKey(name, ip, port);
            CanServe(s, key) <==> key !in s.store || exists id :: Lively(s, id, key)
  {
    ReachableInv(store, dirs, acts, s);
    var key := InstanceKey(name, ip, port);
    if key !in s.store {
      AbsentCanServe(s, name, ip, port);
    } else if id :| Lively(s, id, key) {
      LivelyCanServe(s, id, name, ip, port);
    } else if CanServe(s, key) {
      var more, t, id :| Exec(Step, s, more) == Some(t) && ServesKey(t, id, key);
      BlockedRun(s, more, key);
      assert PhaseInv(t.instances[id]);
      assert Lively(t, id, key);
    }
  }

  lemma {:induction false} AppliedStays(s: State, id: Id, more: seq<Action>)
    requires Inv(s) && id in s.instances && s.instances[id].write == Applied
    ensures Exec(Step, s, more).Some? ==>
              var t := Exec(Step, s, more).value;
              id in t.instances && t.instances[id].write == Applied &&
              KeyOf(t.instances[id]) == KeyOf(s.instances[id]) && ConfigOf(t.instances[id]) == ConfigOf(s.instances[id])
    decreases |more|
  {
    if |more| == 0 {
    } else if Step(s, more[0]).Some? {
      assert PhaseInv(s.instances[id]);
      StepKeepsInv(s, more[0]);
      StepChangesOne(s, more[0]);
      AppliedStays(Step(s, more[0]).value, id, more[1..]);
    }
  }
}
