/** From the registered instances to the addresses that gRPC is given: listConfigs in
    internal/service/slb/etcdconfig/service_config.go, resolverServiceConfig in
    util/client_conn/resolver.go and GetEndpoints in util/client_conn/client_conn.go. */
module Discovery {
  import opened Prelude
  import opened Runs
  import opened Text
  import opened Keys
  import opened Registration
  import opened RegistrationProofs

  type Configs = map<string, Config>

  /** A key directly under the directory of a service. */
  predicate IsChild(name: string, key: string) {
    var dir := Directory(name);
    |key| > |dir| && key[..|dir|] == dir && key[|dir|] == '/' && '/' !in key[|dir| + 1..]
  }

  /** What GetConfigs returns: configurations, ErrServiceConfigKeyNotExist, or another error. */
  datatype Listing = Listed(configs: Configs) | KeyNotExist | ListError

  ghost predicate IsGarbage(store: map<string, Value>, name: string, key: string) {
    key in store && IsChild(name, key) && store[key].Garbage?
  }

  ghost function ConfigsOf(store: map<string, Value>, name: string): Configs {
    map key | key in store && IsChild(name, key) && store[key].Encoded? :: store[key].config
  }

  /** What a listing that reaches etcd returns: an error when the directory does not exist
      or some child does not decode, and otherwise all decodable children. */
  ghost function ListingOf(s: State, name: string): Listing {
    if Directory(name) !in s.dirs && Directory(name) !in s.store then KeyNotExist
    else if exists key :: IsGarbage(s.store, name, key) then ListError
    else Listed(ConfigsOf(s.store, name))
  }

  /** How etcd answers the Get of a directory. */
  datatype Reply = Node(nodes: seq<(string, Value)>) | KeyNotFound | RequestFailed

  /** The nodes of an etcd answer are the children of the directory, in any order. */
  ghost predicate Answers(reply: Reply, s: State, name: string) {
    match reply
    case RequestFailed => true
    case KeyNotFound => Directory(name) !in s.dirs && Directory(name) !in s.store
    case Node(nodes) =>
      && (Directory(name) in s.dirs || Directory(name) in s.store)
      && (forall i :: 0 <= i < |nodes| ==>
            nodes[i].0 in s.store && s.store[nodes[i].0] == nodes[i].1 && IsChild(name, nodes[i].0))
      && (forall key :: key in s.store && IsChild(name, key) ==> exists i :: 0 <= i < |nodes| && nodes[i].0 == key)
  }

  predicate HasPrefix(s: string, prefix: string) {
    |prefix| <= |s| && s[..|prefix|] == prefix
  }

  lemma ChildHasPrefix(name: string, key: string)
    requires IsChild(name, key)
    ensures HasPrefix(key, SERVICE)
  {
    var dir := Directory(name);
    assert dir[..|SERVICE|] == SERVICE;
    assert key[..|SERVICE|] == dir[..|SERVICE|];
  }

  method ListConfigs(reply: Reply, ghost s: State, ghost name: string) returns (listing: Listing)
    requires Answers(reply, s, name)
    ensures listing == if reply.RequestFailed? then ListError else ListingOf(s, name)
  {
    if !reply.Node? {
      return if reply.KeyNotFound? then KeyNotExist else ListError;
    }
    var nodes, found: Configs := reply.nodes, map[];
    for i := 0 to |nodes|
      invariant forall key :: key in found <==> exists j :: 0 <= j < i && nodes[j].0 == key && nodes[j].1.Encoded?
      invariant forall key :: key in found ==> key in s.store && s.store[key] == Encoded(found[key])
      invariant forall j :: 0 <= j < i ==> !nodes[j].1.Garbage?
    {
      var (key, value) := nodes[i];
      ChildHasPrefix(name, key);
      if value != Empty && HasPrefix(key, SERVICE) {
        match value {
          case Garbage =>
            assert IsGarbage(s.store, name, key);
            return ListError;
          case Encoded(config) => found := found[key := config];
        }
      }
    }
    listing := Listed(found);
    assert forall key :: key in s.store && IsChild(name, key) ==> !s.store[key].Garbage?;
    assert forall key :: key in found <==> key in s.store && IsChild(name, key) && s.store[key].Encoded?;
    assert found == ConfigsOf(s.store, name);
  }

  /** resolverServiceConfig asks up to three times and takes the first listing, or the last
      error. */
  function FirstAnswer(replies: seq<Listing>): Listing
    requires |replies| > 0
  {
    if replies[0].Listed? || |replies| == 1 then replies[0] else FirstAnswer(replies[1..])
  }

  method AskWithRetry(replies: seq<Listing>) returns (answer: Listing, asked: nat)
    requires |replies| >= 3
    ensures 0 < asked <= 3 && answer == replies[asked - 1] == FirstAnswer(replies[..3])
    ensures forall i :: 0 <= i < asked - 1 ==> !replies[i].Listed?
    ensures !answer.Listed? ==> asked == 3
  {
    answer, asked := replies[0], 1;
    assert replies[..3][0] == replies[0];
    while asked < 3 && !answer.Listed?
      invariant 0 < asked <= 3 && answer == replies[asked - 1]
      invariant forall i :: 0 <= i < asked - 1 ==> !replies[i].Listed?
      invariant FirstAnswer(replies[..3]) == FirstAnswer(replies[asked - 1..3])
    {
      assert replies[asked - 1..3][1..] == replies[asked..3];
      answer, asked := replies[asked], asked + 1;
    }
  }

  function Address(serviceName: string, config: Config): string {
    if HostText(config.ip) != "" then HostText(config.ip) + ":" + config.port
    else serviceName + ":" + config.port
  }

  /** The address is the ip of the configuration, whatever it is, and its port; only an empty
      ip is replaced by the service name. */
  lemma AddressText(serviceName: string, ip: Host, port: string, payload: string)
    ensures var address := Address(serviceName, Config(ip, port, payload));
            && (ip.V4? ==>
                  address ==
                  Decimal(ip.a) + "." + (Decimal(ip.b) + "." + (Decimal(ip.c) + "." + Decimal(ip.d))) + ":" + port)
            && (ip.Other? && ip.text != "" ==> address == ip.text + ":" + port)
            && (ip == Other("") ==> address == serviceName + ":" + port)
  {
    if ip.V4? {
      HostTextDotted(ip.a, ip.b, ip.c, ip.d);
    }
  }

  /** The addresses are those of the configurations, one for each key, in some order. */
  ghost predicate AddressesOf(addresses: seq<string>, order: seq<string>, serviceName: string, configs: Configs) {
    && |addresses| == |order| == |configs|
    && Distinct(order)
    && (forall key :: key in order <==> key in configs)
    && forall i :: 0 <= i < |order| ==> order[i] in configs && addresses[i] == Address(serviceName, configs[order[i]])
  }

  method BuildAddresses(serviceName: string, configs: Configs) returns (addresses: seq<string>, order: seq<string>)
    ensures AddressesOf(addresses, order, serviceName, configs)
  {
    addresses, order := [], [];
    var left := configs.Keys;
    while left != {}
      invariant left <= configs.Keys && |addresses| == |order| && |left| + |order| == |configs|
      invariant Distinct(order) && forall key :: key in order <==> key in configs && key !in left
      invariant forall i :: 0 <= i < |order| ==> order[i] in configs && addresses[i] == Address(serviceName, configs[order[i]])
      decreases left
    {
      var key :| key in left;
      left := left - {key};
      addresses := addresses + [Address(serviceName, configs[key])];
      DistinctPush(order, key);
      order := order + [key];
    }
  }

  /** What the resolver hands to gRPC: nothing when the listing failed three times or was
      empty, and otherwise one address for each listed configuration. */
  method ResolverServiceConfig(serviceName: string, replies: seq<Listing>)
    returns (pushed: Option<seq<string>>, ghost order: seq<string>)
    requires |replies| >= 3
    ensures pushed.Some? <==> FirstAnswer(replies[..3]).Listed? && FirstAnswer(replies[..3]).configs != map[]
    ensures pushed.Some? ==> pushed.value != [] &&
                             AddressesOf(pushed.value, order, serviceName, FirstAnswer(replies[..3]).configs)
  {
    var answer, _ := AskWithRetry(replies);
    pushed, order := None, [];
    if answer.Listed? && |answer.configs| != 0 {
      var addresses, keys := BuildAddresses(serviceName, answer.configs);
      if |addresses| > 0 {
        pushed, order := Some(addresses), keys;
      }
    }
  }

  method GetEndpoints(serverName: string, reply: Listing)
    returns (endpoints: seq<string>, failed: bool, ghost order: seq<string>)
    ensures failed == !reply.Listed? && (failed ==> endpoints == [])
    ensures !failed ==> AddressesOf(endpoints, order, serverName, reply.configs)
  {
    endpoints, failed, order := [], !reply.Listed?, [];
    if !failed {
      var addresses, keys := BuildAddresses(serverName, reply.configs);
      endpoints, order := addresses, keys;
    }
  }

  // ---------- from registration to discovery ----------

  lemma InstanceKeyIsChild(name: string, ip: Host, port: nat)
    ensures IsChild(name, InstanceKey(name, ip, port))
  {
    InstanceKeyParts(name, ip, port);
    var sequence := ServiceSequence(ip, Decimal(port));
    var key := InstanceKey(name, ip, port);
    assert key == Directory(name) + ['/'] + sequence;
    assert key[|Directory(name)| + 1..] == sequence;
  }

  lemma ChildNames(name: string, i: Instance)
    requires IsChild(name, KeyOf(i))
    ensures name == i.name
  {
    InstanceKeyParts(i.name, i.ip, i.port);
    var key, dir := KeyOf(i), Directory(name);
    var rest := key[|dir| + 1..];
    assert key == dir + ['/'] + rest;
    ChildOfOneDirectory(name, rest, i.name, ServiceSequence(i.ip, Decimal(i.port)));
  }

  /** Nothing that the store began with was changed or is owned by an instance, whatever
      else it holds is owned, and so is the directory above what was created. */
  ghost predicate SinceStart(store: map<string, Value>, s: State) {
    && (forall key :: key in store ==> key in s.store && s.store[key] == store[key])
    && (forall id :: id in s.instances && Owns(s.instances[id]) ==> KeyOf(s.instances[id]) !in store)
    && (forall id :: id in s.instances && Owns(s.instances[id]) ==> Directory(s.instances[id].name) in s.dirs)
    && (forall key :: key in s.store && key !in store ==> HasOwner(s, key))
  }

  ghost predicate HasOwner(s: State, key: string) {
    exists id :: id in s.instances && Owns(s.instances[id]) && KeyOf(s.instances[id]) == key
  }

  lemma DirectoryIsParent(i: Instance)
    ensures Directory(i.name) in Parents(KeyOf(i))
  {
    InstanceKeyParts(i.name, i.ip, i.port);
    var k := |Directory(i.name)|;
    assert KeyOf(i)[..k] == Directory(i.name) && KeyOf(i)[k] == '/';
  }

  lemma StepKeepsDirectories(s: State, a: Action)
    requires Step(s, a).Some?
    ensures s.dirs <= Step(s, a).value.dirs
    ensures a.ApplyWrite? ==>
              var i := Step(s, a).value.instances[a.id];
              i.write == Applied ==> Directory(i.name) in Step(s, a).value.dirs
  {
    if a.ApplyWrite? {
      DirectoryIsParent(s.instances[a.id]);
    }
  }

  lemma StepKeepsStart(store: map<string, Value>, s: State, a: Action)
    requires Inv(s) && SinceStart(store, s) && Step(s, a).Some?
    ensures SinceStart(store, Step(s, a).value)
  {
    var t := Step(s, a).value;
    StepChangesOne(s, a);
    StepAndStore(s, a);
    StepKeepsDirectories(s, a);
    if a.id in s.instances {
      assert PhaseInv(s.instances[a.id]);
    }
    forall key | key in t.store && key !in store ensures HasOwner(t, key) {
      if key in s.store {
        assert HasOwner(s, key);
        var id :| id in s.instances && Owns(s.instances[id]) && KeyOf(s.instances[id]) == key;
        assert id in t.instances && Owns(t.instances[id]) && KeyOf(t.instances[id]) == key;
      } else {
        assert a.id in t.instances && Owns(t.instances[a.id]) && KeyOf(t.instances[a.id]) == key;
      }
    }
  }

  lemma {:induction false} RunKeepsStart(store: map<string, Value>, s: State, acts: seq<Action>)
    requires Inv(s) && SinceStart(store, s)
    ensures Exec(Step, s, acts).Some? ==>
              Inv(Exec(Step, s, acts).value) && SinceStart(store, Exec(Step, s, acts).value)
    decreases |acts|
  {
    if |acts| == 0 {
    } else if Step(s, acts[0]).Some? {
      StepKeepsInv(s, acts[0]);
      StepKeepsStart(store, s, acts[0]);
      RunKeepsStart(store, Step(s, acts[0]).value, acts[1..]);
    }
  }

  // ---------- what a listing gives, whoever is registered ----------

  /** An instance whose create took effect has its key below the directory. */
  ghost predicate CreatedBelow(s: State, id: Id, name: string) {
    id in s.instances && s.instances[id].write == Applied && Directory(name) + ['/'] <= KeyOf(s.instances[id])
  }

  ghost predicate DirsSince(dirs: set<string>, s: State) {
    forall name :: Directory(name) in s.dirs <==> Directory(name) in dirs || exists id :: CreatedBelow(s, id, name)
  }

  lemma ParentIsPrefix(key: string, dir: string)
    ensures dir in Parents(key) <==> dir + ['/'] <= key
  {
    if dir + ['/'] <= key {
      assert key[..|dir| + 1] == dir + ['/'];
      assert key[..|dir|] == dir && key[|dir|] == '/';
    }
    if k :| 0 <= k < |key| && key[k] == '/' && key[..k] == dir {
      assert key[..k + 1] == key[..k] + [key[k]];
    }
  }

  lemma StepAndDirectory(s: State, a: Action, name: string)
    requires PhasesInv(s) && Step(s, a).Some?
    ensures var t := Step(s, a).value;
            && (forall id :: CreatedBelow(s, id, name) ==> CreatedBelow(t, id, name))
            && (forall id :: CreatedBelow(t, id, name) && id != a.id ==> CreatedBelow(s, id, name))
            && (Directory(name) in t.dirs && Directory(name) !in s.dirs ==> CreatedBelow(t, a.id, name))
            && (CreatedBelow(t, a.id, name) && !CreatedBelow(s, a.id, name) ==> Directory(name) in t.dirs)
  {
    StepChangesOne(s, a);
    if a.id in s.instances {
      assert PhaseInv(s.instances[a.id]);
      ParentIsPrefix(KeyOf(s.instances[a.id]), Directory(name));
    }
  }

  lemma StepKeepsDirs(dirs: set<string>, s: State, a: Action)
    requires PhasesInv(s) && DirsSince(dirs, s) && Step(s, a).Some?
    ensures DirsSince(dirs, Step(s, a).value)
  {
    var t := Step(s, a).value;
    StepKeepsDirectories(s, a);
    forall name
      ensures Directory(name) in t.dirs <==> Directory(name) in dirs || exists id :: CreatedBelow(t, id, name)
    {
      StepAndDirectory(s, a, name);
    }
  }

  lemma {:induction false} RunKeepsDirs(dirs: set<string>, s: State, acts: seq<Action>)
    requires Inv(s) && DirsSince(dirs, s)
    ensures Exec(Step, s, acts).Some? ==> DirsSince(dirs, Exec(Step, s, acts).value)
    decreases |acts|
  {
    if |acts| == 0 {
    } else if Step(s, acts[0]).Some? {
      StepKeepsInv(s, acts[0]);
      StepKeepsDirs(dirs, s, acts[0]);
      RunKeepsDirs(dirs, Step(s, acts[0]).value, acts[1..]);
    }
  }

  lemma GarbageIsForeign(store: map<string, Value>, s: State, name: string, key: string)
    requires Inv(s) && SinceStart(store, s)
    ensures IsGarbage(s.store, name, key) <==> IsGarbage(store, name, key)
  {
    if key in s.store && key !in store {
      HasOwnerEncoded(s, key);
    }
  }

  lemma DirectoryIsNoInstance(store: map<string, Value>, s: State, name: string)
    requires Inv(s) && SinceStart(store, s)
    ensures Directory(name) in s.store <==> Directory(name) in store
  {
    assert Directory(name)[|Directory(name)| - 1] == 'r';
    if Directory(name) in s.store && Directory(name) !in store {
      assert HasOwner(s, Directory(name));
      var id :| id in s.instances && Owns(s.instances[id]) && KeyOf(s.instances[id]) == Directory(name);
      var i := s.instances[id];
      InstanceKeyEndsWithDigit(i.name, i.ip, i.port);
    }
  }

  ghost predicate NeverThere(store: map<string, Value>, dirs: set<string>, s: State, name: string) {
    Directory(name) !in dirs && Directory(name) !in store && forall id :: !CreatedBelow(s, id, name)
  }

  /** What a listing gives in every reachable state, for every service: key-not-exist as long as
      the directory was not there from the start and no create below it has taken effect;
      otherwise an error exactly when a value that was there from the start, directly below
      the directory, is undecodable; and otherwise every decodable value directly below it. */
  lemma ListingIs(store: map<string, Value>, dirs: set<string>, acts: seq<Action>, s: State, name: string)
    requires Reaches(store, dirs, acts, s)
    ensures ListingOf(s, name) == KeyNotExist <==> NeverThere(store, dirs, s, name)
    ensures ListingOf(s, name) == ListError <==>
            !NeverThere(store, dirs, s, name) && exists key :: IsGarbage(store, name, key)
    ensures ListingOf(s, name).Listed? ==>
              forall key, config ::
                (key in ListingOf(s, name).configs && ListingOf(s, name).configs[key] == config) <==>
                (key in s.store && s.store[key] == Encoded(config) && IsChild(name, key))
  {
    RunKeepsStart(store, Begin(store, dirs), acts);
    RunKeepsDirs(dirs, Begin(store, dirs), acts);
    DirectoryIsNoInstance(store, s, name);
    forall key ensures IsGarbage(s.store, name, key) <==> IsGarbage(store, name, key) {
      GarbageIsForeign(store, s, name, key);
    }
  }

  /** A child is a key with one more part, and nothing below it. */
  lemma ChildIff(name: string, key: string)
    ensures IsChild(name, key) <==> exists rest :: key == Directory(name) + ['/'] + rest && '/' !in rest
  {
    var dir := Directory(name);
    if IsChild(name, key) {
      assert key == dir + ['/'] + key[|dir| + 1..];
    }
    if rest :| key == dir + ['/'] + rest && '/' !in rest {
      assert key[|dir| + 1..] == rest && key[..|dir|] == dir;
    }
  }

  ghost predicate Once(addresses: seq<string>, address: string) {
    exists k :: 0 <= k < |addresses| && addresses[k] == address &&
                forall j :: 0 <= j < |addresses| && addresses[j] == address ==> j == k
  }

  /** A key of the service, there before any instance started, that carries the address. */
  ghost predicate Foreign(store: map<string, Value>, name: string, key: string, address: string) {
    key in store && IsChild(name, key) && store[key].Encoded? && Address(name, store[key].config) == address
  }

  /** While an instance is registered, a listing of its service succeeds if and only if no
      value that was there from the start is undecodable. The addresses made from it
      contain the ip:port of the instance, and contain it exactly once if and only if no
      entry that was there from the start carries the same address. */
  lemma RegisteredIsDiscovered(
    store: map<string, Value>, dirs: set<string>, acts: seq<Action>, s: State, id: Id,
    addresses: seq<string>, order: seq<string>)
    requires Reaches(store, dirs, acts, s) && Serving(s, id)
    requires ListingOf(s, s.instances[id].name).Listed? ==>
               AddressesOf(addresses, order, s.instances[id].name, ListingOf(s, s.instances[id].name).configs)
    ensures var i := s.instances[id];
            var address := HostText(i.ip) + ":" + Decimal(i.port);
            && (ListingOf(s, i.name).Listed? <==> !exists key :: IsGarbage(store, i.name, key))
            && (ListingOf(s, i.name).Listed? ==>
                  && address in addresses
                  && (Once(addresses, address) <==> !exists key :: Foreign(store, i.name, key, address)))
  {
    RunKeepsStart(store, Begin(store, dirs), acts);
    ListingSucceeds(store, s, id);
    if ListingOf(s, s.instances[id].name).Listed? {
      OwnConfigIsListed(s, id);
      var i := s.instances[id];
      AppearsOnceIff(addresses, order, i.name, ConfigsOf(s.store, i.name), KeyOf(i));
      SharersAreForeign(store, s, id);
    }
  }

  lemma ListingSucceeds(store: map<string, Value>, s: State, id: Id)
    requires Inv(s) && SinceStart(store, s) && Serving(s, id)
    ensures ListingOf(s, s.instances[id].name).Listed? <==>
            !exists key :: IsGarbage(store, s.instances[id].name, key)
  {
    var name := s.instances[id].name;
    assert PhaseInv(s.instances[id]);
    forall key ensures IsGarbage(s.store, name, key) <==> IsGarbage(store, name, key) {
      GarbageIsForeign(store, s, name, key);
    }
  }

  lemma HasOwnerEncoded(s: State, key: string)
    requires Inv(s) && HasOwner(s, key)
    ensures key in s.store && s.store[key].Encoded?
  {
    var id :| id in s.instances && Owns(s.instances[id]) && KeyOf(s.instances[id]) == key;
    assert OwnedIn(s, id);
  }

  lemma OwnConfigIsListed(s: State, id: Id)
    requires Inv(s) && Serving(s, id)
    ensures var i := s.instances[id];
            var configs := ConfigsOf(s.store, i.name);
            && i.ip.V4? && KeyOf(i) in configs && configs[KeyOf(i)] == ConfigOf(i)
            && Address(i.name, ConfigOf(i)) == HostText(i.ip) + ":" + Decimal(i.port)
  {
    var i := s.instances[id];
    assert PhaseInv(i);
    assert Owns(i) && OwnedIn(s, id);
    InstanceKeyIsChild(i.name, i.ip, i.port);
  }

  lemma PlaceOf<K, V>(values: seq<V>, order: seq<K>, at: map<K, V>, key: K) returns (k: nat)
    requires |values| == |order| && forall k :: k in order <==> k in at
    requires forall i :: 0 <= i < |order| ==> values[i] == at[order[i]]
    requires key in at
    ensures k < |order| && order[k] == key && values[k] == at[key]
  {
    assert key in order;
    k :| k < |order| && order[k] == key;
  }

  /** Listed in some order, the value of a key occurs once exactly when no other key has it. */
  lemma OccursOnceIff<K>(values: seq<string>, order: seq<K>, at: map<K, string>, key: K)
    requires |values| == |order| && Distinct(order) && forall k :: k in order <==> k in at
    requires forall i :: 0 <= i < |order| ==> values[i] == at[order[i]]
    requires key in at
    ensures at[key] in values
    ensures Once(values, at[key]) <==> forall other :: other in at && at[other] == at[key] ==> other == key
  {
    var k := PlaceOf(values, order, at, key);
    if Once(values, at[key]) {
      forall other | other in at && at[other] == at[key] ensures other == key {
        var j := PlaceOf(values, order, at, other);
      }
    } else {
      var j :| 0 <= j < |values| && values[j] == at[key] && j != k;
      assert order[j] != key;
    }
  }

  /** The address of a key occurs once exactly when no other key has the same address. */
  lemma AppearsOnceIff(
    addresses: seq<string>, order: seq<string>, name: string, configs: Configs, key: string)
    requires AddressesOf(addresses, order, name, configs) && key in configs
    ensures var address := Address(name, configs[key]);
            && address in addresses
            && (Once(addresses, address) <==>
                  forall other :: other in configs && Address(name, configs[other]) == address ==> other == key)
  {
    var at := map k | k in configs :: Address(name, configs[k]);
    OccursOnceIff(addresses, order, at, key);
    assert forall other :: other in configs <==> other in at;
  }

  /** Another key with the address of a registered instance was there from the start. */
  lemma SharersAreForeign(store: map<string, Value>, s: State, id: Id)
    requires Inv(s) && SinceStart(store, s) && Serving(s, id)
    ensures var i := s.instances[id];
            var address := Address(i.name, ConfigOf(i));
            var configs := ConfigsOf(s.store, i.name);
            (forall other :: other in configs && Address(i.name, configs[other]) == address ==> other == KeyOf(i))
            <==> !exists key :: Foreign(store, i.name, key, address)
  {
    var i := s.instances[id];
    assert PhaseInv(i);
    assert Owns(i);
    var address := Address(i.name, ConfigOf(i));
    var configs := ConfigsOf(s.store, i.name);
    forall other | other in configs && Address(i.name, configs[other]) == address && other != KeyOf(i)
      ensures Foreign(store, i.name, other, address)
    {
      if other !in store {
        SameAddressSameKey(store, s, i, other);
      }
    }
    forall key | Foreign(store, i.name, key, address)
      ensures key in configs && Address(i.name, configs[key]) == address && key != KeyOf(i)
    {
    }
  }

  lemma SameAddressSameKey(store: map<string, Value>, s: State, i: Instance, key: string)
    requires Inv(s) && SinceStart(store, s)
    requires i.ip.V4? && key in s.store && key !in store && IsChild(i.name, key) && s.store[key].Encoded?
    requires Address(i.name, s.store[key].config) == Address(i.name, ConfigOf(i))
    ensures key == KeyOf(i)
  {
    assert HasOwner(s, key);
    var other :| other in s.instances && Owns(s.instances[other]) && KeyOf(s.instances[other]) == key;
    var o := s.instances[other];
    assert OwnedIn(s, other) && PhaseInv(o);
    ChildNames(i.name, o);
    AddressInjective(o.ip, Decimal(o.port), i.ip, Decimal(i.port));
    DecimalInjective(o.port, i.port);
  }
}
