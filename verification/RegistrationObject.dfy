/** One process of app/app.go and app/grpc.go, run on its own against an etcd it updates:
    the registration keeps the address in a global and the port in the application, and
    the deferred unregistration computes the key again from those. */
module RegistrationObject {
  import opened Prelude
  import opened Text
  import opened Keys
  import opened Registration

  /** What becomes of a request: whether it takes effect, and whether the client sees an error. */
  datatype Fate = Fate(arrives: bool, error: bool)

  /** How a registration ends: the three errors have texts of their own. */
  datatype RegisterResult = Succeeded | LookupException | SequenceExists | WriteException

  datatype ClearResult = Cleared | KeyNotExist | ClearError

  class Etcd {
    var nodes: map<string, Value>

    constructor (nodes: map<string, Value>)
      ensures this.nodes == nodes
    {
      this.nodes := nodes;
    }

    /** WriteConfig: Set with PrevNoExist. */
    method WriteConfig(key: string, config: Config, fate: Fate) returns (ok: bool)
      modifies this
      ensures ok == (fate.arrives && !fate.error && key !in old(nodes))
      ensures nodes == if fate.arrives && key !in old(nodes) then old(nodes)[key := Encoded(config)] else old(nodes)
    {
      ok := false;
      if fate.arrives && key !in nodes {
        nodes := nodes[key := Encoded(config)];
        ok := !fate.error;
      }
    }

    /** ClearConfig: an unconditional Delete. etcd answers that there is no such key when
        there is none. */
    method ClearConfig(key: string, fate: Fate) returns (result: ClearResult)
      modifies this
      ensures nodes == if fate.arrives then old(nodes) - {key} else old(nodes)
      ensures result == Cleared <==> fate.arrives && !fate.error && key in old(nodes)
      ensures result == KeyNotExist <==> fate.arrives && !fate.error && key !in old(nodes)
    {
      var present := key in nodes;
      if fate.arrives {
        nodes := nodes - {key};
      }
      result := if !fate.arrives || fate.error then ClearError else if present then Cleared else KeyNotExist;
    }
  }

  class Process {
    const name: string
    var initialPort: int          // grpcApp.Port
    var serviceIP: Option<Host>   // the global set by the registration

    constructor (name: string, initialPort: int)
      ensures this.name == name && this.initialPort == initialPort && serviceIP == None
    {
      this.name, this.initialPort, serviceIP := name, initialPort, None;
    }

    /** The port of one's own, or the one drawn. */
    ghost function Port(drawn: nat): nat
      reads this
    {
      if initialPort > 0 then initialPort else drawn
    }

    ghost function Key(drawn: nat, ip: Host): string
      reads this
    {
      InstanceKey(name, ip, Port(drawn))
    }

    /** appRegisterServiceToEtcd, once the outbound address ip is known. It succeeds only
        if the key was absent, and then the key holds this process's configuration. A key
        that cannot be looked up or read, a key with this very address and port, and a
        create that is not confirmed each give their own error. */
    method Register(etcd: Etcd, drawn: nat, ip: Host, payload: string, lookupError: bool, fate: Fate)
      returns (port: nat, result: RegisterResult)
      requires 50000 <= drawn < 60000
      modifies this`serviceIP, etcd
      ensures port == (if initialPort > 0 then initialPort else drawn) && serviceIP == Some(ip)
      ensures var key, config := Key(drawn, ip), Config(ip, Decimal(port), payload);
              && (result == Succeeded ==>
                    key !in old(etcd.nodes) && etcd.nodes == old(etcd.nodes)[key := Encoded(config)])
              && (result != Succeeded ==>
                    || etcd.nodes == old(etcd.nodes)
                    || (result == WriteException && fate.error && key !in old(etcd.nodes) &&
                        etcd.nodes == old(etcd.nodes)[key := Encoded(config)]))
      ensures result == Succeeded <==> !lookupError && fate.arrives && !fate.error && Key(drawn, ip) !in old(etcd.nodes)
      ensures result == LookupException <==>
                lookupError ||
                (Key(drawn, ip) in old(etcd.nodes) &&
                 var value := old(etcd.nodes)[Key(drawn, ip)]; !value.Encoded? || value.config.port == "")
      ensures result == SequenceExists <==>
                !lookupError && Key(drawn, ip) in old(etcd.nodes) &&
                var value := old(etcd.nodes)[Key(drawn, ip)];
                value.Encoded? && value.config.port == Decimal(port) && HostNumber(value.config.ip) == HostNumber(ip)
    {
      port := StartPort(initialPort, drawn);
      serviceIP := Some(ip);
      var currentPort := Decimal(port);
      var key := GetKeyName(name, [ServiceSequence(ip, currentPort)]);
      match GetConfig(etcd.nodes, key, lookupError) {
        case LookupError => return port, LookupException;
        case Found(config) =>
          SequenceInjective(config.ip, config.port, ip, currentPort);
          if ServiceSequence(config.ip, config.port) == ServiceSequence(ip, currentPort) {
            return port, SequenceExists;
          }
        case NotExist =>
      }
      var ok := etcd.WriteConfig(key, Config(ip, currentPort, payload), fate);
      result := if ok then Succeeded else WriteException;
    }

    /** appUnRegisterServiceToEtcd: the key is computed again from the global and the port;
        a key that is already gone is no error. */
    method Unregister(etcd: Etcd, port: nat, fate: Fate) returns (ok: bool)
      requires serviceIP.Some?
      modifies etcd
      ensures etcd.nodes == if fate.arrives then old(etcd.nodes) - {InstanceKey(name, serviceIP.value, port)}
                            else old(etcd.nodes)
      ensures ok <==> fate.arrives && !fate.error
    {
      var key := GetKeyName(name, [ServiceSequence(serviceIP.value, Decimal(port))]);
      var result := etcd.ClearConfig(key, fate);
      ok := result == Cleared || result == KeyNotExist;
    }

    /** runGRPC from the registration on. The unregistration is deferred only after a
        successful registration: then a delete that arrives puts the store back exactly
        as it was, and after a failed registration nothing is ever deleted. */
    method RunGRPC(etcd: Etcd, drawn: nat, ip: Host, payload: string, lookupError: bool, write: Fate, delete: Fate)
      returns (served: bool)
      requires 50000 <= drawn < 60000
      modifies this, etcd
      ensures served <==> !lookupError && write.arrives && !write.error && old(Key(drawn, ip)) !in old(etcd.nodes)
      ensures served && delete.arrives ==> etcd.nodes == old(etcd.nodes)
      ensures served && !delete.arrives ==> etcd.nodes.Keys == old(etcd.nodes).Keys + {old(Key(drawn, ip))}
      ensures forall key :: key in old(etcd.nodes) ==> key in etcd.nodes && etcd.nodes[key] == old(etcd.nodes)[key]
    {
      var port, result := Register(etcd, drawn, ip, payload, lookupError, write);
      if result != Succeeded {
        return false;
      }
      initialPort := port;
      var _ := Unregister(etcd, initialPort, delete);
      served := true;
    }
  }
}
