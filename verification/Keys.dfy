/** The etcd key of a service instance (app/app.go getServiceSequence,
    internal/service/slb/etcdconfig/service_config.go GetKeyName). */
module Keys {
  import opened Text

  /** The text of an address: a dotted IPv4 address, or anything else that
      net.ParseIP(text).To4() turns into nil. */
  datatype Host = V4(a: byte, b: byte, c: byte, d: byte) | Other(text: string)

  function HostText(host: Host): string {
    match host
    case V4(a, b, c, d) => Dotted([a, b, c, d])
    case Other(text) => text
  }

  function Dotted(fields: seq<nat>): (s: string)
    requires |fields| > 0
    ensures ':' !in s
  {
    if |fields| == 1 then Decimal(fields[0]) else Decimal(fields[0]) + "." + Dotted(fields[1..])
  }

  /** big.Int.SetBytes of the four bytes, or of nil. */
  function HostNumber(host: Host): nat {
    match host
    case V4(a, b, c, d) => ((a * 256 + b) * 256 + c) * 256 + d
    case Other(_) => 0
  }

  function ServiceSequence(host: Host, port: string): string {
    Decimal(HostNumber(host)) + "_" + port
  }

  const SERVICE := "/kelvins-service"
  const DEFAULT_CLUSTER := "cluster"

  function KeyName(serverName: string, sequences: seq<string>): string {
    if |sequences| == 0 then SERVICE + "." + serverName + "." + DEFAULT_CLUSTER
    else
      var last := |sequences| - 1;
      KeyName(serverName, sequences[..last]) + ("/" + sequences[last])
  }

  method GetKeyName(serverName: string, sequences: seq<string>) returns (key: string)
    ensures key == KeyName(serverName, sequences)
  {
    key := SERVICE + "." + serverName + "." + DEFAULT_CLUSTER;
    for i := 0 to |sequences|
      invariant key == KeyName(serverName, sequences[..i])
    {
      assert sequences[..i + 1][..i] == sequences[..i];
      key := key + ("/" + sequences[i]);
    }
    assert sequences[..|sequences|] == sequences;
  }

  /** The directory of a service, and the key of one of its instances. */
  function Directory(name: string): string {
    KeyName(name, [])
  }

  function InstanceKey(name: string, host: Host, port: nat): string {
    KeyName(name, [ServiceSequence(host, Decimal(port))])
  }

  lemma InstanceKeyParts(name: string, host: Host, port: nat)
    ensures InstanceKey(name, host, port) == Directory(name) + ['/'] + ServiceSequence(host, Decimal(port))
    ensures '/' !in ServiceSequence(host, Decimal(port))
  {
    var sequence := ServiceSequence(host, Decimal(port));
    assert [sequence][..0] == [];
    assert KeyName(name, [sequence]) == Directory(name) + ("/" + sequence);
    assert "/" == ['/'];
  }

  /** The text of a key: the service directory, the IPv4 address as one number with its first
      byte highest, and the port. */
  lemma InstanceKeyText(name: string, a: byte, b: byte, c: byte, d: byte, port: nat)
    ensures InstanceKey(name, V4(a, b, c, d), port) ==
            "/kelvins-service." + name + ".cluster" + "/"
            + Decimal(a * 0x100_0000 + b * 0x1_0000 + c * 0x100 + d) + "_" + Decimal(port)
    ensures Directory(name) == "/kelvins-service." + name + ".cluster"
  {
    var number := a * 0x100_0000 + b * 0x1_0000 + c * 0x100 + d;
    assert HostNumber(V4(a, b, c, d)) == number;
    InstanceKeyParts(name, V4(a, b, c, d), port);
    assert Directory(name) == "/kelvins-service." + name + ".cluster";
    assert "/" == ['/'];
    assert ServiceSequence(V4(a, b, c, d), Decimal(port)) == Decimal(number) + "_" + Decimal(port);
  }

  /** The sequences follow the directory in their order. */
  lemma KeyNameText(name: string, first: string, second: string)
    ensures KeyName(name, [first, second]) == "/kelvins-service." + name + ".cluster" + ("/" + first) + ("/" + second)
  {
    assert [first, second][..1] == [first] && [first][..0] == [];
    assert KeyName(name, [first]) == KeyName(name, []) + ("/" + first);
    assert KeyName(name, []) == "/kelvins-service." + name + ".cluster";
  }

  /** The text of an IPv4 address. */
  lemma HostTextDotted(a: byte, b: byte, c: byte, d: byte)
    ensures HostText(V4(a, b, c, d)) == Decimal(a) + "." + (Decimal(b) + "." + (Decimal(c) + "." + Decimal(d)))
  {
    assert [a, b, c, d][1..] == [b, c, d] && [b, c, d][1..] == [c, d] && [c, d][1..] == [d];
    assert Dotted([a, b, c, d]) == Decimal(a) + "." + Dotted([b, c, d]);
    assert Dotted([b, c, d]) == Decimal(b) + "." + Dotted([c, d]);
    assert Dotted([c, d]) == Decimal(c) + "." + Dotted([d]);
  }

  /** The key of an instance always ends with a digit of its port. */
  lemma InstanceKeyEndsWithDigit(name: string, host: Host, port: nat)
    ensures var key := InstanceKey(name, host, port); |key| > 0 && IsDigit(key[|key| - 1])
  {
    InstanceKeyParts(name, host, port);
    var text, sequence := Decimal(port), ServiceSequence(host, Decimal(port));
    assert text[|text| - 1] in text;
    assert sequence[|sequence| - 1] == text[|text| - 1];
  }

  /** A sequence determines the number of the address and the port text, whatever it is. */
  lemma SequenceInjective(h1: Host, p1: string, h2: Host, p2: string)
    ensures ServiceSequence(h1, p1) == ServiceSequence(h2, p2) <==> HostNumber(h1) == HostNumber(h2) && p1 == p2
  {
    if ServiceSequence(h1, p1) == ServiceSequence(h2, p2) {
      assert "_" == ['_'];
      SplitAtFirst(Decimal(HostNumber(h1)), p1, Decimal(HostNumber(h2)), p2, '_');
      DecimalInjective(HostNumber(h1), HostNumber(h2));
    }
  }

  lemma HostNumberInjective(h1: Host, h2: Host)
    requires h1.V4? && h2.V4? && HostNumber(h1) == HostNumber(h2)
    ensures h1 == h2
  {
    LastByte((h1.a * 256 + h1.b) * 256 + h1.c, h1.d, (h2.a * 256 + h2.b) * 256 + h2.c, h2.d);
    LastByte(h1.a * 256 + h1.b, h1.c, h2.a * 256 + h2.b, h2.c);
    LastByte(h1.a, h1.b, h2.a, h2.b);
  }

  lemma LastByte(x: nat, d: byte, y: nat, e: byte)
    requires x * 256 + d == y * 256 + e
    ensures x == y && d == e
  {
  }

  lemma DirectoryInjective(n1: string, n2: string)
    requires Directory(n1) == Directory(n2)
    ensures n1 == n2
  {
    var before := |SERVICE| + 1;
    assert Directory(n1)[before..|Directory(n1)| - 8] == n1;
    assert Directory(n2)[before..|Directory(n2)| - 8] == n2;
  }

  /** A child of a service's directory belongs to no other directory. */
  lemma ChildOfOneDirectory(n1: string, rest1: string, n2: string, rest2: string)
    requires '/' !in rest1 && '/' !in rest2
    requires Directory(n1) + ['/'] + rest1 == Directory(n2) + ['/'] + rest2
    ensures n1 == n2 && rest1 == rest2
  {
    SplitAtLast(Directory(n1), rest1, Directory(n2), rest2, '/');
    DirectoryInjective(n1, n2);
  }

  /** The key is injective over service name (even one with slashes), IPv4 address and port. */
  lemma InstanceKeyInjective(n1: string, h1: Host, p1: nat, n2: string, h2: Host, p2: nat)
    requires h1.V4? && h2.V4? && InstanceKey(n1, h1, p1) == InstanceKey(n2, h2, p2)
    ensures n1 == n2 && h1 == h2 && p1 == p2
  {
    InstanceKeyParts(n1, h1, p1);
    InstanceKeyParts(n2, h2, p2);
    ChildOfOneDirectory(n1, ServiceSequence(h1, Decimal(p1)), n2, ServiceSequence(h2, Decimal(p2)));
    SequenceInjective(h1, Decimal(p1), h2, Decimal(p2));
    HostNumberInjective(h1, h2);
    DecimalInjective(p1, p2);
  }

  /** The addresses that count as number 0: 0.0.0.0, and whatever is no IPv4 address. */
  predicate CountsAsZero(h: Host) {
    h.Other? || h == V4(0, 0, 0, 0)
  }

  lemma NumberZeroIff(h: Host)
    ensures HostNumber(h) == 0 <==> CountsAsZero(h)
  {
    match h
    case V4(a, b, c, d) => BytesZeroIff(a, b, c, d);
    case Other(_) =>
  }

  lemma BytesZeroIff(a: nat, b: nat, c: nat, d: nat)
    ensures ((a * 256 + b) * 256 + c) * 256 + d == 0 <==> a == 0 && b == 0 && c == 0 && d == 0
  {
  }

  lemma SameNumberIff(h1: Host, h2: Host)
    ensures HostNumber(h1) == HostNumber(h2) <==> h1 == h2 || (CountsAsZero(h1) && CountsAsZero(h2))
  {
    NumberZeroIff(h1);
    NumberZeroIff(h2);
    if h1.V4? && h2.V4? {
      BothNumbers(h1, h2);
    }
  }

  lemma BothNumbers(h1: Host, h2: Host)
    requires h1.V4? && h2.V4?
    ensures HostNumber(h1) == HostNumber(h2) <==> h1 == h2
  {
    if HostNumber(h1) == HostNumber(h2) {
      HostNumberInjective(h1, h2);
    }
  }

  lemma SequenceEqualIff(h1: Host, p1: nat, h2: Host, p2: nat)
    ensures ServiceSequence(h1, Decimal(p1)) == ServiceSequence(h2, Decimal(p2)) <==>
            p1 == p2 && (h1 == h2 || (CountsAsZero(h1) && CountsAsZero(h2)))
  {
    SequenceInjective(h1, Decimal(p1), h2, Decimal(p2));
    SameNumberIff(h1, h2);
    if Decimal(p1) == Decimal(p2) {
      DecimalInjective(p1, p2);
    }
  }

  /** Two keys are equal exactly when the service name and the port are, and the addresses are,
      or both count as number 0. */
  lemma InstanceKeyEqualIff(n1: string, h1: Host, p1: nat, n2: string, h2: Host, p2: nat)
    ensures InstanceKey(n1, h1, p1) == InstanceKey(n2, h2, p2) <==>
            n1 == n2 && p1 == p2 && (h1 == h2 || (CountsAsZero(h1) && CountsAsZero(h2)))
  {
    InstanceKeyParts(n1, h1, p1);
    InstanceKeyParts(n2, h2, p2);
    SequenceEqualIff(h1, p1, h2, p2);
    if InstanceKey(n1, h1, p1) == InstanceKey(n2, h2, p2) {
      ChildOfOneDirectory(n1, ServiceSequence(h1, Decimal(p1)), n2, ServiceSequence(h2, Decimal(p2)));
    }
  }

  /** An address ip:port determines the IPv4 address and the port. */
  lemma AddressInjective(h1: Host, p1: string, h2: Host, p2: string)
    requires h1.V4? && h2.V4? && HostText(h1) + ":" + p1 == HostText(h2) + ":" + p2
    ensures h1 == h2 && p1 == p2
  {
    assert ":" == [':'];
    SplitAtFirst(HostText(h1), p1, HostText(h2), p2, ':');
    HostTextInjective(h1, h2);
  }

  lemma HostTextInjective(h1: Host, h2: Host)
    requires h1.V4? && h2.V4? && HostText(h1) == HostText(h2)
    ensures h1 == h2
  {
    DottedInjective([h1.a, h1.b, h1.c, h1.d], [h2.a, h2.b, h2.c, h2.d]);
  }

  lemma {:induction false} DottedInjective(f1: seq<nat>, f2: seq<nat>)
    requires |f1| == |f2| > 0 && Dotted(f1) == Dotted(f2)
    ensures f1 == f2
  {
    if |f1| == 1 {
      DecimalInjective(f1[0], f2[0]);
    } else {
      SplitAtFirst(Decimal(f1[0]), Dotted(f1[1..]), Decimal(f2[0]), Dotted(f2[1..]), '.');
      DecimalInjective(f1[0], f2[0]);
      DottedInjective(f1[1..], f2[1..]);
      assert f1 == [f1[0]] + f1[1..] && f2 == [f2[0]] + f2[1..];
    }
  }
}
