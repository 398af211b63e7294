/**
 The service map's indexes as values, and why they always agree with the services that are live:
 the port index lists every live port in order and nothing else, and the ClusterIP index never
 points at a service that is gone.
 */
module ServiceIndex {
  import opened Kube
  import opened Decimal

  datatype PortSpec = PortSpec(port: int, name: string, protocol: string)

  datatype Service = Service(namespace: string, name: string, clusterIP: string, ports: seq<PortSpec>)

  datatype ServiceInfo = ServiceInfo(
    name: string, namespace: string, port: int, portName: string, protocol: string, clusterIP: string)

  datatype Entry = Entry(name: string, namespace: string, clusterIP: string, ports: seq<ServiceInfo>)

  type PortIndex = map<string, map<int, seq<ServiceInfo>>>

  datatype Maps = Maps(
    services: map<string, map<string, Entry>>,
    ports: PortIndex,
    ips: map<string, ServiceInfo>)

  datatype Change = Upsert(svc: Service) | Delete(namespace: string, name: string)

  // ---------------------------------------------------------------- lookups

  predicate Routable(ip: string) {
    ip != "" && ip != "None"
  }

  /** The lookup key of an address. */
  function Key(ip: string, port: int): string {
    ip + ":" + Itoa(port)
  }

  /** Keys of different addresses differ, also for addresses that contain colons and for negative numbers. */
  lemma KeyInjective(ip: string, port: int, ip': string, port': int)
    requires Key(ip, port) == Key(ip', port')
    ensures ip == ip' && port == port'
  {
    ItoaHasNo(port, ':');
    ItoaHasNo(port', ':');
    assert Key(ip, port) == ip + [':'] + Itoa(port);
    assert Key(ip', port') == ip' + [':'] + Itoa(port');
    SplitsAtLast(ip, Itoa(port), ip', Itoa(port'), ':');
    ItoaInjective(port, port');
  }

  function PortList(ports: PortIndex, ns: string, p: int): seq<ServiceInfo> {
    if ns in ports && p in ports[ns] then ports[ns][p] else []
  }

  function Live(m: Maps, ns: string, name: string): Option<Entry> {
    if ns in m.services && name in m.services[ns] then Some(m.services[ns][name]) else None
  }

  function LivePorts(m: Maps, ns: string, name: string): seq<ServiceInfo> {
    if Live(m, ns, name).Some? then Live(m, ns, name).value.ports else []
  }

  function OnPort(infos: seq<ServiceInfo>, p: int): seq<ServiceInfo> {
    if infos == [] then []
    else
      var rest := OnPort(infos[..|infos| - 1], p);
      if infos[|infos| - 1].port == p then rest + [infos[|infos| - 1]] else rest
  }

  /** The last of several ports with the same number. */
  function LastOn(infos: seq<ServiceInfo>, p: int): Option<ServiceInfo> {
    if infos == [] then None
    else if infos[|infos| - 1].port == p then Some(infos[|infos| - 1])
    else LastOn(infos[..|infos| - 1], p)
  }

  function Named(infos: seq<ServiceInfo>, name: string): seq<ServiceInfo> {
    if infos == [] then []
    else
      var rest := Named(infos[..|infos| - 1], name);
      if infos[|infos| - 1].name == name then rest + [infos[|infos| - 1]] else rest
  }

  function Without(infos: seq<ServiceInfo>, name: string): seq<ServiceInfo> {
    if infos == [] then []
    else
      var rest := Without(infos[..|infos| - 1], name);
      if infos[|infos| - 1].name != name then rest + [infos[|infos| - 1]] else rest
  }

  // ---------------------------------------------------------------- the operations on values

  function Info(svc: Service, p: PortSpec): ServiceInfo {
    ServiceInfo(svc.name, svc.namespace, p.port, p.name, p.protocol, svc.clusterIP)
  }

  function Infos(svc: Service): seq<ServiceInfo> {
    seq(|svc.ports|, i requires 0 <= i < |svc.ports| => Info(svc, svc.ports[i]))
  }

  /** The ports of a service with a number, in order. */
  function SpecsOn(specs: seq<PortSpec>, p: int): seq<PortSpec> {
    if specs == [] then []
    else
      var rest := SpecsOn(specs[..|specs| - 1], p);
      if specs[|specs| - 1].port == p then rest + [specs[|specs| - 1]] else rest
  }

  /** The position is that of the service's last port with the number. */
  ghost predicate IsLastOn(svc: Service, p: int, k: nat) {
    k < |svc.ports| && svc.ports[k].port == p && forall j | k < j < |svc.ports| :: svc.ports[j].port != p
  }

  lemma {:induction false} LastOnSpec(svc: Service, infos: seq<ServiceInfo>, p: int, k: nat)
    requires IsLastOn(svc, p, k) && k < |infos| <= |svc.ports| && infos == Infos(svc)[..|infos|]
    ensures LastOn(infos, p) ==
            Some(ServiceInfo(svc.name, svc.namespace, p, svc.ports[k].name, svc.ports[k].protocol, svc.clusterIP))
    decreases |infos|
  {
    var last := |infos| - 1;
    assert infos[last] == Infos(svc)[last];
    if k < last {
      LastOnSpec(svc, infos[..last], p, k);
    }
  }

  /** What the ports with a number are filed as, field by field. */
  lemma {:induction false} OnPortSpecs(svc: Service, infos: seq<ServiceInfo>, p: int)
    requires |infos| <= |svc.ports| && infos == Infos(svc)[..|infos|]
    ensures var specs, on := SpecsOn(svc.ports[..|infos|], p), OnPort(infos, p);
            |on| == |specs| && forall i | 0 <= i < |specs| ::
              on[i] == ServiceInfo(svc.name, svc.namespace, p, specs[i].name, specs[i].protocol, svc.clusterIP)
    decreases |infos|
  {
    if infos != [] {
      var last := |infos| - 1;
      assert infos[last] == Infos(svc)[last] && svc.ports[..|infos|][..last] == svc.ports[..last];
      OnPortSpecs(svc, infos[..last], p);
    }
  }

  /** Files one port of a service under its number and, if it has a routable address, under that. */
  function IndexPort(m: Maps, info: ServiceInfo): Maps
    requires info.namespace in m.ports
  {
    var list := PortList(m.ports, info.namespace, info.port) + [info];
    m.(ports := m.ports[info.namespace := m.ports[info.namespace][info.port := list]],
       ips := if Routable(info.clusterIP) then m.ips[Key(info.clusterIP, info.port) := info] else m.ips)
  }

  function IndexPorts(m: Maps, ns: string, infos: seq<ServiceInfo>): (r: Maps)
    requires ns in m.ports && forall i | i in infos :: i.namespace == ns
    ensures r.ports.Keys == m.ports.Keys && r.services == m.services
  {
    if infos == [] then m
    else
      var last := infos[|infos| - 1];
      assert last in infos;
      assert forall i | i in infos[..|infos| - 1] :: i in infos;
      IndexPort(IndexPorts(m, ns, infos[..|infos| - 1]), last)
  }

  /** Takes a service out of the list of one port number and out of one address. */
  function UnindexPort(m: Maps, e: Entry, p: int): Maps {
    var list := PortList(m.ports, e.namespace, p);
    var rest := Without(list, e.name);
    m.(ports := if list == [] then m.ports
                else if rest != [] then m.ports[e.namespace := m.ports[e.namespace][p := rest]]
                else m.ports[e.namespace := m.ports[e.namespace] - {p}],
       ips := if Routable(e.clusterIP) then m.ips - {Key(e.clusterIP, p)} else m.ips)
  }

  function UnindexPorts(m: Maps, e: Entry, infos: seq<ServiceInfo>): (r: Maps)
    ensures r.services == m.services && r.ports.Keys == m.ports.Keys
  {
    if infos == [] then m
    else UnindexPort(UnindexPorts(m, e, infos[..|infos| - 1]), e, infos[|infos| - 1].port)
  }

  function Unindexed(m: Maps, ns: string, name: string): (r: Maps)
    ensures r.services == m.services && r.ports.Keys == m.ports.Keys
  {
    match Live(m, ns, name)
    case Some(e) => UnindexPorts(m, e, e.ports)
    case None => m
  }

  function EntryOf(svc: Service): Entry {
    Entry(svc.name, svc.namespace, svc.clusterIP, Infos(svc))
  }

  function WithNamespace(m: Maps, ns: string): Maps {
    m.(services := if ns in m.services then m.services else m.services[ns := map[]],
       ports := if ns in m.ports then m.ports else m.ports[ns := map[]])
  }

  function Upserted(m: Maps, svc: Service): Maps {
    var ns := svc.namespace;
    var cleaned := Unindexed(WithNamespace(m, ns), ns, svc.name);
    var indexed := IndexPorts(cleaned, ns, Infos(svc));
    indexed.(services := indexed.services[ns := indexed.services[ns][svc.name := EntryOf(svc)]])
  }

  function Deleted(m: Maps, ns: string, name: string): Maps {
    if Live(m, ns, name).Some?
    then
      var cleaned := Unindexed(m, ns, name);
      cleaned.(services := cleaned.services[ns := cleaned.services[ns] - {name}])
    else m
  }

  function Applied(m: Maps, c: Change): Maps {
    match c
    case Upsert(svc) => Upserted(m, svc)
    case Delete(ns, name) => Deleted(m, ns, name)
  }

  const EMPTY := Maps(map[], map[], map[])

  function After(changes: seq<Change>): Maps {
    if changes == [] then EMPTY else Applied(After(changes[..|changes| - 1]), changes[|changes| - 1])
  }

  // ---------------------------------------------------------------- the simple meaning

  /** The live services, kept the obvious way. */
  function LiveAfter(changes: seq<Change>): map<(string, string), Service> {
    if changes == [] then map[]
    else
      var before := LiveAfter(changes[..|changes| - 1]);
      match changes[|changes| - 1]
      case Upsert(svc) => before[(svc.namespace, svc.name) := svc]
      case Delete(ns, name) => before - {(ns, name)}
  }

  // ---------------------------------------------------------------- filters

  lemma {:induction false} NamedWithout(infos: seq<ServiceInfo>, name: string, other: string)
    ensures Named(Without(infos, name), other) == if other == name then [] else Named(infos, other)
  {
    if infos != [] {
      var init, last := infos[..|infos| - 1], infos[|infos| - 1];
      NamedWithout(init, name, other);
      if last.name != name {
        assert (Without(init, name) + [last])[..|Without(init, name)|] == Without(init, name);
      }
    }
  }

  lemma {:induction false} NamedConcat(a: seq<ServiceInfo>, b: seq<ServiceInfo>, name: string)
    ensures Named(a + b, name) == Named(a, name) + Named(b, name)
  {
    if b == [] {
      assert a + b == a;
    } else {
      NamedConcat(a, b[..|b| - 1], name);
      assert (a + b)[..|a + b| - 1] == a + b[..|b| - 1];
    }
  }

  lemma {:induction false} NamedAll(infos: seq<ServiceInfo>, name: string, other: string)
    requires forall i | i in infos :: i.name == name
    ensures Named(infos, other) == if other == name then infos else []
  {
    if infos != [] {
      assert infos[|infos| - 1] in infos;
      assert forall i | i in infos[..|infos| - 1] :: i in infos;
      NamedAll(infos[..|infos| - 1], name, other);
      assert infos == infos[..|infos| - 1] + [infos[|infos| - 1]];
    }
  }

  lemma {:induction false} NamedMember(infos: seq<ServiceInfo>, i: ServiceInfo)
    requires i in infos
    ensures i in Named(infos, i.name)
  {
    if i != infos[|infos| - 1] {
      assert i in infos[..|infos| - 1];
      NamedMember(infos[..|infos| - 1], i);
    }
  }

  lemma {:induction false} OnPortMembers(infos: seq<ServiceInfo>, p: int)
    ensures forall i :: i in OnPort(infos, p) <==> i in infos && i.port == p
  {
    if infos != [] {
      OnPortMembers(infos[..|infos| - 1], p);
      assert forall i :: i in infos <==> i in infos[..|infos| - 1] || i == infos[|infos| - 1];
    }
  }

  lemma {:induction false} LastOnIsLast(infos: seq<ServiceInfo>, p: int)
    ensures LastOn(infos, p).Some? <==> OnPort(infos, p) != []
    ensures LastOn(infos, p).Some? <==> UsesPort(infos, p)
    ensures OnPort(infos, p) != [] ==> LastOn(infos, p) == Some(OnPort(infos, p)[|OnPort(infos, p)| - 1])
    ensures LastOn(infos, p).Some? ==> LastOn(infos, p).value in infos && LastOn(infos, p).value.port == p
  {
    if infos != [] {
      LastOnIsLast(infos[..|infos| - 1], p);
      UsesPortLast(infos, p);
      assert forall i | i in infos[..|infos| - 1] :: i in infos;
    }
  }

  // ---------------------------------------------------------------- what indexing and unindexing do

  ghost predicate UsesPort(infos: seq<ServiceInfo>, p: int) {
    exists i | i in infos :: i.port == p
  }

  ghost predicate NoEmptyLists(ports: PortIndex) {
    forall ns, p | ns in ports && p in ports[ns] :: ports[ns][p] != []
  }

  lemma WithoutNothing(infos: seq<ServiceInfo>, name: string)
    ensures Without(Without(infos, name), name) == Without(infos, name)
  {
  }

  lemma UnindexOneList(m: Maps, e: Entry, q: int, ns: string, p: int)
    requires NoEmptyLists(m.ports)
    ensures NoEmptyLists(UnindexPort(m, e, q).ports)
    ensures PortList(UnindexPort(m, e, q).ports, ns, p) ==
            if ns == e.namespace && p == q then Without(PortList(m.ports, ns, p), e.name)
            else PortList(m.ports, ns, p)
  {
  }

  lemma UsesPortLast(infos: seq<ServiceInfo>, p: int)
    requires infos != []
    ensures UsesPort(infos, p) <==> UsesPort(infos[..|infos| - 1], p) || infos[|infos| - 1].port == p
  {
  }

  lemma {:induction false} UnindexLists(m: Maps, e: Entry, infos: seq<ServiceInfo>, ns: string, p: int)
    requires NoEmptyLists(m.ports)
    ensures NoEmptyLists(UnindexPorts(m, e, infos).ports)
    ensures PortList(UnindexPorts(m, e, infos).ports, ns, p) ==
            if ns == e.namespace && UsesPort(infos, p) then Without(PortList(m.ports, ns, p), e.name)
            else PortList(m.ports, ns, p)
  {
    if infos != [] {
      var init, last := infos[..|infos| - 1], infos[|infos| - 1];
      UnindexLists(m, e, init, ns, p);
      UnindexOneList(UnindexPorts(m, e, init), e, last.port, ns, p);
      UsesPortLast(infos, p);
      WithoutNothing(PortList(m.ports, ns, p), e.name);
    }
  }

  lemma {:induction false} UnindexAddresses(m: Maps, e: Entry, infos: seq<ServiceInfo>, key: string)
    ensures var gone := Routable(e.clusterIP) && exists i | i in infos :: key == Key(e.clusterIP, i.port);
            var ips := UnindexPorts(m, e, infos).ips;
            (key in ips <==> key in m.ips && !gone) && (key in ips ==> ips[key] == m.ips[key])
  {
    if infos != [] {
      var init, last := infos[..|infos| - 1], infos[|infos| - 1];
      UnindexAddresses(m, e, init, key);
      assert last in infos;
      assert forall i :: i in infos <==> i in init || i == last;
    }
  }

  lemma {:induction false} IndexLists(m: Maps, at: string, infos: seq<ServiceInfo>, ns: string, p: int)
    requires at in m.ports && (forall i | i in infos :: i.namespace == at) && NoEmptyLists(m.ports)
    ensures NoEmptyLists(IndexPorts(m, at, infos).ports)
    ensures PortList(IndexPorts(m, at, infos).ports, ns, p) ==
            PortList(m.ports, ns, p) + (if ns == at then OnPort(infos, p) else [])
  {
    if infos != [] {
      var init, last := infos[..|infos| - 1], infos[|infos| - 1];
      assert last in infos;
      assert forall i | i in init :: i in infos;
      IndexLists(m, at, init, ns, p);
    }
  }

  /** After indexing, an address of the service resolves to its last port with that number. */
  lemma {:induction false} IndexAddress(m: Maps, at: string, ip: string, infos: seq<ServiceInfo>, p: int)
    requires at in m.ports && forall i | i in infos :: i.namespace == at && i.clusterIP == ip
    requires Routable(ip) && LastOn(infos, p).Some?
    ensures Key(ip, p) in IndexPorts(m, at, infos).ips
    ensures IndexPorts(m, at, infos).ips[Key(ip, p)] == LastOn(infos, p).value
  {
    var init, last := infos[..|infos| - 1], infos[|infos| - 1];
    assert last in infos;
    assert forall i | i in init :: i in infos;
    if last.port != p {
      IndexAddress(m, at, ip, init, p);
      if Key(ip, last.port) == Key(ip, p) {
        KeyInjective(ip, last.port, ip, p);
      }
    }
  }

  /** Indexing leaves every other address alone. */
  lemma {:induction false} IndexOtherAddress(m: Maps, at: string, ip: string, infos: seq<ServiceInfo>, key: string)
    requires at in m.ports && forall i | i in infos :: i.namespace == at && i.clusterIP == ip
    requires Routable(ip) ==> forall i | i in infos :: key != Key(ip, i.port)
    ensures key in IndexPorts(m, at, infos).ips <==> key in m.ips
    ensures key in m.ips ==> IndexPorts(m, at, infos).ips[key] == m.ips[key]
  {
    if infos != [] {
      var init, last := infos[..|infos| - 1], infos[|infos| - 1];
      assert last in infos;
      assert forall i | i in init :: i in infos;
      IndexOtherAddress(m, at, ip, init, key);
    }
  }
}
