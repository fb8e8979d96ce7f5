/** Registration of service instances in etcd, over all instances at once, as a transition
    system (app/app.go appRegisterServiceToEtcd and appUnRegisterServiceToEtcd, app/grpc.go
    runGRPC, internal/service/slb/etcdconfig/service_config.go).

    An instance reads its key, creates it if it is absent, serves, and deletes it from a
    defer that is installed only after the registration succeeded. It may crash anywhere.
    A write request reaches the store at any time after it was sent, once or never; the
    client may see an error whether or not the request takes effect. */
module Registration {
  import opened Prelude
  import opened Keys
  import opened Text

  datatype Config = Config(ip: Host, port: string, payload: string)

  /** A node's value: the JSON of a Config, some other text, or none. */
  datatype Value = Encoded(config: Config) | Garbage | Empty

  type Id = nat

  datatype Pc =
    | Looking       // before GetConfig
    | Writing       // before WriteConfig
    | WriteSent
    | Registered    // the defer is installed
    | DeleteSent
    | Finished      // the deferred unregistration has returned
    | Failed        // the registration returned an error
    | Crashed

  /** A request on its way to the store. */
  datatype Request = NotSent | InFlight | Applied | Refused | Lost

  datatype Instance = Instance(name: string, ip: Host, port: nat, payload: string,
                               pc: Pc, write: Request, delete: Request)

  /** The store has values and directories; etcd makes the directories above a key when it
      creates the key, and leaves them when it deletes it. */
  datatype State = State(store: map<string, Value>, dirs: set<string>, instances: map<Id, Instance>)

  datatype Action =
    | Start(id: Id, name: string, ip: Host, port: nat, payload: string)
    | Get(id: Id, clientError: bool)
    | SendWrite(id: Id)
    | ApplyWrite(id: Id)
    | LoseWrite(id: Id)
    | WriteReturns(id: Id, clientError: bool)
    | SendDelete(id: Id)
    | SkipDelete(id: Id)         // ClearConfig fails before it sends
    | ApplyDelete(id: Id)
    | LoseDelete(id: Id)
    | DeleteReturns(id: Id)
    | Crash(id: Id)

  function KeyOf(i: Instance): string {
    InstanceKey(i.name, i.ip, i.port)
  }

  function Parents(key: string): set<string> {
    set k | 0 <= k < |key| && key[k] == '/' :: key[..k]
  }

  function ConfigOf(i: Instance): Config {
    Config(i.ip, Decimal(i.port), i.payload)
  }

  /** The port a process asks for: its own, or one drawn from [50000, 60000). */
  function StartPort(initialPort: int, drawn: nat): (port: nat)
    requires 50000 <= drawn < 60000
    ensures port > 0 && (initialPort > 0 ==> port == initialPort)
  {
    if initialPort > 0 then initialPort else drawn
  }

  datatype Lookup = Found(config: Config) | NotExist | LookupError

  /** GetConfig: an empty value unmarshals to nothing, so its port is empty. */
  function GetConfig(store: map<string, Value>, key: string, clientError: bool): Lookup {
    if clientError then LookupError
    else if key !in store then NotExist
    else
      match store[key]
      case Encoded(config) => if config.port == "" then LookupError else Found(config)
      case Garbage => LookupError
      case Empty => LookupError
  }

  /** Whether the registration goes on to WriteConfig after the lookup: it does when the
      key is absent, and also when the key holds another sequence's configuration. */
  function GoesOn(i: Instance, found: Lookup): bool {
    match found
    case NotExist => true
    case LookupError => false
    case Found(config) => ServiceSequence(config.ip, config.port) != ServiceSequence(i.ip, Decimal(i.port))
  }

  function Put(s: State, id: Id, i: Instance): State {
    s.(instances := s.instances[id := i])
  }

  function StepOf(s: State, a: Action): Option<State>
    requires !a.Start? && a.id in s.instances
  {
    var id := a.id;
    var i := s.instances[id];
    match a
    case Get(_, clientError) =>
      if i.pc != Looking then None
      else Some(Put(s, id, i.(pc := if GoesOn(i, GetConfig(s.store, KeyOf(i), clientError)) then Writing else Failed)))
    case SendWrite(_) =>
      if i.pc != Writing then None else Some(Put(s, id, i.(pc := WriteSent, write := InFlight)))
    case ApplyWrite(_) =>
      // PrevNoExist: the store creates the key only if it is absent
      if i.write != InFlight then None
      else if KeyOf(i) in s.store then Some(Put(s, id, i.(write := Refused)))
      else Some(Put(s.(store := s.store[KeyOf(i) := Encoded(ConfigOf(i))], dirs := s.dirs + Parents(KeyOf(i))),
                    id, i.(write := Applied)))
    case LoseWrite(_) =>
      if i.write != InFlight then None else Some(Put(s, id, i.(write := Lost)))
    case WriteReturns(_, clientError) =>
      if i.pc != WriteSent || (!clientError && i.write != Applied) then None
      else Some(Put(s, id, i.(pc := if clientError then Failed else Registered)))
    case SendDelete(_) =>
      if i.pc != Registered then None else Some(Put(s, id, i.(pc := DeleteSent, delete := InFlight)))
    case SkipDelete(_) =>
      if i.pc != Registered then None else Some(Put(s, id, i.(pc := Finished)))
    case ApplyDelete(_) =>
      // the delete is unconditional
      if i.delete != InFlight then None
      else if KeyOf(i) in s.store then Some(Put(s.(store := s.store - {KeyOf(i)}), id, i.(delete := Applied)))
      else Some(Put(s, id, i.(delete := Refused)))
    case LoseDelete(_) =>
      if i.delete != InFlight then None else Some(Put(s, id, i.(delete := Lost)))
    case DeleteReturns(_) =>
      if i.pc != DeleteSent then None else Some(Put(s, id, i.(pc := Finished)))
    case Crash(_) =>
      if i.pc == Finished || i.pc == Failed || i.pc == Crashed then None
      else Some(Put(s, id, i.(pc := Crashed)))
  }

  function Step(s: State, a: Action): Option<State> {
    match a
    case Start(id, name, ip, port, payload) =>
      if id in s.instances || !ip.V4? then None
      else Some(Put(s, id, Instance(name, ip, port, payload, Looking, NotSent, NotSent)))
    case _ =>
      if a.id !in s.instances then None else StepOf(s, a)
  }

  /** Before any instance starts, the store may hold anything. */
  function Begin(store: map<string, Value>, dirs: set<string>): State {
    State(store, dirs, map[])
  }
}
