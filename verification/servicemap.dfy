/**
 The service map as its code runs: nested maps and lists changed in place by watch events. The
 methods compute exactly the value-level operations whose runs are studied in ServiceAgreement.
 */
module ServiceMapping {
  import opened Kube
  import opened ServiceIndex
  import opened ServiceAgreement

  datatype EndpointPort = EndpointPort(name: string, port: int)
  datatype Subset = Subset(addresses: seq<string>, ports: seq<EndpointPort>)
  datatype Endpoints = Endpoints(namespace: string, name: string, subsets: seq<Subset>)

  /** The names of the live services. */
  ghost function LiveNames(services: map<string, map<string, Entry>>): set<(string, string)> {
    set ns, name | ns in services && name in services[ns] :: (ns, name)
  }

  lemma {:induction false} PairsCount(ns: string, names: set<string>)
    ensures |set name | name in names :: (ns, name)| == |names|
  {
    var pairs := set name | name in names :: (ns, name);
    if names != {} {
      var n :| n in names;
      PairsCount(ns, names - {n});
      assert pairs == (set name | name in names - {n} :: (ns, name)) + {(ns, n)};
    }
  }

  /** How many services the given namespaces have. */
  ghost function CountIn(services: map<string, map<string, Entry>>, seen: set<string>): nat
    requires seen <= services.Keys
  {
    |LiveNames(map n | n in seen :: services[n])|
  }

  lemma CountInAll(services: map<string, map<string, Entry>>)
    ensures CountIn(services, services.Keys) == |LiveNames(services)| && CountIn(services, {}) == 0
  {
    assert (map n | n in services.Keys :: services[n]) == services;
  }

  /** Adding the namespaces one by one adds up the sizes of their maps. */
  lemma CountGrows(services: map<string, map<string, Entry>>, seen: set<string>, ns: string)
    requires seen <= services.Keys && ns in services && ns !in seen
    ensures CountIn(services, seen + {ns}) == CountIn(services, seen) + |services[ns]|
  {
    var before := LiveNames(map n | n in seen :: services[n]);
    var added := set name | name in services[ns].Keys :: (ns, name);
    assert LiveNames(map n | n in seen + {ns} :: services[n]) == before + added;
    assert before !! added;
    PairsCount(ns, services[ns].Keys);
  }

  /** The loop over the namespaces. */
  method CountServices(services: map<string, map<string, Entry>>) returns (count: nat)
    ensures count == |LiveNames(services)|
  {
    count := 0;
    var todo := services.Keys;
    ghost var seen: set<string> := {};
    CountInAll(services);
    while todo != {}
      invariant todo <= services.Keys && seen == services.Keys - todo
      invariant count == CountIn(services, seen)
      decreases todo
    {
      var ns :| ns in todo;
      CountGrows(services, seen, ns);
      todo, seen := todo - {ns}, seen + {ns};
      count := count + |services[ns]|;
    }
    assert seen == services.Keys;
  }

  /** The maps once the first i ports of a service are filed. */
  ghost function PortsFiled(m: Maps, svc: Service, i: nat): (r: Maps)
    requires svc.namespace in m.ports && i <= |svc.ports|
    ensures svc.namespace in r.ports
  {
    IndexPorts(m, svc.namespace, Infos(svc)[..i])
  }

  lemma OnePortMore(m: Maps, svc: Service, i: nat)
    requires svc.namespace in m.ports && i < |svc.ports|
    ensures PortsFiled(m, svc, i + 1) == IndexPort(PortsFiled(m, svc, i), Infos(svc)[i])
  {
    assert Infos(svc)[..i + 1][..i] == Infos(svc)[..i];
  }

  predicate Backs(info: ServiceInfo, q: EndpointPort) {
    info.portName == q.name || info.port == q.port
  }

  /** The last port of the service that an endpoint port backs, by name or by number. */
  function LastBacked(infos: seq<ServiceInfo>, q: EndpointPort): (r: Option<ServiceInfo>)
    ensures r.None? <==> forall i | i in infos :: !Backs(i, q)
    ensures r.Some? ==> exists k | 0 <= k < |infos| ::
              infos[k] == r.value && Backs(infos[k], q) && forall j | k < j < |infos| :: !Backs(infos[j], q)
  {
    if infos == [] then None
    else if Backs(infos[|infos| - 1], q) then Some(infos[|infos| - 1])
    else LastBacked(infos[..|infos| - 1], q)
  }

  /** Addresses are never dropped, and what is overwritten is overwritten by a port of the service. */
  ghost predicate Kept(infos: seq<ServiceInfo>, was: map<string, ServiceInfo>, now: map<string, ServiceInfo>) {
    && was.Keys <= now.Keys
    && forall key | key in now :: (key in was && now[key] == was[key]) || now[key] in infos
  }

  function FileOne(eps: map<string, ServiceInfo>, a: string, q: EndpointPort, infos: seq<ServiceInfo>)
    : (r: map<string, ServiceInfo>)
    ensures Kept(infos, eps, r)
  {
    match LastBacked(infos, q)
    case Some(i) => eps[Key(a, q.port) := i]
    case None => eps
  }

  lemma OneMoreBacked(eps: map<string, ServiceInfo>, a: string, q: EndpointPort, infos: seq<ServiceInfo>, i: nat)
    requires i < |infos|
    ensures var before := FileOne(eps, a, q, infos[..i]);
            FileOne(eps, a, q, infos[..i + 1]) == if Backs(infos[i], q) then before[Key(a, q.port) := infos[i]] else before
  {
    assert infos[..i + 1][..i] == infos[..i];
  }

  function FileRow(eps: map<string, ServiceInfo>, a: string, qs: seq<EndpointPort>, infos: seq<ServiceInfo>)
    : (r: map<string, ServiceInfo>)
    ensures Kept(infos, eps, r)
  {
    if qs == [] then eps else FileOne(FileRow(eps, a, qs[..|qs| - 1], infos), a, qs[|qs| - 1], infos)
  }

  function FileSubset(eps: map<string, ServiceInfo>, addresses: seq<string>, qs: seq<EndpointPort>, infos: seq<ServiceInfo>)
    : (r: map<string, ServiceInfo>)
    ensures Kept(infos, eps, r)
  {
    if addresses == [] then eps
    else FileRow(FileSubset(eps, addresses[..|addresses| - 1], qs, infos), addresses[|addresses| - 1], qs, infos)
  }

  function FileSubsets(eps: map<string, ServiceInfo>, subsets: seq<Subset>, infos: seq<ServiceInfo>)
    : (r: map<string, ServiceInfo>)
    ensures Kept(infos, eps, r)
  {
    if subsets == [] then eps
    else
      var last := subsets[|subsets| - 1];
      FileSubset(FileSubsets(eps, subsets[..|subsets| - 1], infos), last.addresses, last.ports, infos)
  }

  lemma LiveNamesAreLive(history: seq<Change>)
    ensures LiveNames(After(history).services) == LiveAfter(history).Keys
  {
    IndexesAgree(history);
    var m := After(history);
    forall ns, name
      ensures (ns, name) in LiveNames(m.services) <==> (ns, name) in LiveAfter(history)
    {
      assert (ns, name) in LiveNames(m.services) <==> Live(m, ns, name).Some?;
    }
  }

  /** The service has the address and exposes the number; headless services have no address. */
  ghost predicate Exposes(svc: Service, ip: string, port: int) {
    svc.clusterIP == ip && ip != "" && ip != "None" && exists q | q in svc.ports :: q.port == port
  }

  /** At no time did two live services expose one address and number. */
  ghost predicate NeverShared(history: seq<Change>) {
    forall i, a, b, ip, port | 0 <= i <= |history| && a in LiveAfter(history[..i]) && b in LiveAfter(history[..i]) &&
                               Exposes(LiveAfter(history[..i])[a], ip, port) && Exposes(LiveAfter(history[..i])[b], ip, port) :: a == b
  }

  ghost predicate IsLive(history: seq<Change>, svc: Service) {
    (svc.namespace, svc.name) in LiveAfter(history) && LiveAfter(history)[(svc.namespace, svc.name)] == svc
  }

  lemma ClaimIsExposed(history: seq<Change>, ns: string, name: string, ip: string, p: int)
    requires Claims(Live(After(history), ns, name), ip, p)
    ensures (ns, name) in LiveAfter(history) && Exposes(LiveAfter(history)[(ns, name)], ip, p)
  {
    IndexesAgree(history);
    var svc := LiveAfter(history)[(ns, name)];
    var i :| i in Infos(svc) && i.port == p;
    var k :| 0 <= k < |svc.ports| && Infos(svc)[k] == i;
    assert svc.ports[k] in svc.ports;
  }

  lemma UnsharedAt(history: seq<Change>, i: nat)
    requires NeverShared(history) && i <= |history|
    ensures NoSharedAddress(After(history[..i]))
  {
    var m := After(history[..i]);
    forall ns, name, ns', name', ip, p | Claims(Live(m, ns, name), ip, p) && Claims(Live(m, ns', name'), ip, p)
      ensures (ns, name) == (ns', name')
    {
      ClaimIsExposed(history[..i], ns, name, ip, p);
      ClaimIsExposed(history[..i], ns', name', ip, p);
    }
  }

  /** A port of a live service is looked up as the last one with its number, field by field. */
  lemma LivePortResolves(history: seq<Change>, svc: Service, port: int, k: nat)
    requires NeverShared(history) && IsLive(history, svc) && svc.clusterIP != "" && svc.clusterIP != "None" && IsLastOn(svc, port, k)
    ensures var m, key := After(history), Key(svc.clusterIP, port);
            key in m.ips &&
            m.ips[key] == ServiceInfo(svc.name, svc.namespace, port, svc.ports[k].name, svc.ports[k].protocol, svc.clusterIP)
  {
    IndexesAgree(history);
    forall i | 0 <= i <= |history|
      ensures NoSharedAddress(After(history[..i]))
    {
      UnsharedAt(history, i);
    }
    AddressIndexIsComplete(history);
    LastOnSpec(svc, Infos(svc), port, k);
    assert Live(After(history), svc.namespace, svc.name) == Some(EntryOf(svc));
    assert Resolves(After(history), svc.namespace, svc.name, port);
  }

  /** The entry is a port of a live service with that address and number, field by field. */
  ghost predicate IsLivePort(history: seq<Change>, ip: string, port: int, i: ServiceInfo) {
    && i.clusterIP == ip && i.port == port
    && exists svc | IsLive(history, svc) ::
         Exposes(svc, ip, port) && i.name == svc.name && i.namespace == svc.namespace &&
         PortSpec(port, i.portName, i.protocol) in svc.ports
  }

  lemma HitIsLivePort(history: seq<Change>, ip: string, port: int)
    requires Key(ip, port) in After(history).ips
    ensures IsLivePort(history, ip, port, After(history).ips[Key(ip, port)])
  {
    AddressIndexIsLive(history, ip, port);
    IndexesAgree(history);
    var i := After(history).ips[Key(ip, port)];
    var svc := LiveAfter(history)[(i.namespace, i.name)];
    var k :| 0 <= k < |svc.ports| && Infos(svc)[k] == i;
    assert svc.ports[k] == PortSpec(port, i.portName, i.protocol) && svc.ports[k] in svc.ports;
    assert WellNamed(EntryOf(svc), i.namespace, i.name);
    assert IsLive(history, svc);
  }

  /** The list holds the live service's ports with the number, in order and field by field; none if it is not live. */
  ghost predicate Lists(infos: seq<ServiceInfo>, history: seq<Change>, ns: string, name: string, port: int) {
    if (ns, name) !in LiveAfter(history) then infos == []
    else
      var svc := LiveAfter(history)[(ns, name)];
      var specs := SpecsOn(svc.ports, port);
      |infos| == |specs| && forall i | 0 <= i < |specs| ::
        infos[i] == ServiceInfo(name, ns, port, specs[i].name, specs[i].protocol, svc.clusterIP)
  }

  lemma PortListLists(history: seq<Change>, ns: string, name: string, port: int)
    ensures Lists(Named(PortList(After(history).ports, ns, port), name), history, ns, name, port)
  {
    PortIndexIsExact(history, ns, port, name);
    IndexesAgree(history);
    if (ns, name) in LiveAfter(history) {
      var svc := LiveAfter(history)[(ns, name)];
      assert Live(After(history), ns, name) == Some(EntryOf(svc));
      assert WellNamed(EntryOf(svc), ns, name);
      assert svc.ports[..|svc.ports|] == svc.ports;
      OnPortSpecs(svc, Infos(svc), port);
    }
  }

  // ---------------------------------------------------------------- endpoint addresses are filed

  /** What is filed for a service stays filed for it. */
  ghost predicate FiledFor(eps: map<string, ServiceInfo>, key: string, infos: seq<ServiceInfo>) {
    key in eps && eps[key] in infos
  }

  lemma {:induction false} RowFiles(eps: map<string, ServiceInfo>, a: string, qs: seq<EndpointPort>, infos: seq<ServiceInfo>, q: EndpointPort)
    requires q in qs && LastBacked(infos, q).Some?
    ensures FiledFor(FileRow(eps, a, qs, infos), Key(a, q.port), infos)
  {
    var last := |qs| - 1;
    if q != qs[last] {
      var i :| 0 <= i < |qs| && qs[i] == q;
      assert qs[..last][i] == q;
      RowFiles(eps, a, qs[..last], infos, q);
    }
  }

  lemma {:induction false} SubsetFiles(eps: map<string, ServiceInfo>, addresses: seq<string>, qs: seq<EndpointPort>,
                                       infos: seq<ServiceInfo>, a: string, q: EndpointPort)
    requires a in addresses && q in qs && LastBacked(infos, q).Some?
    ensures FiledFor(FileSubset(eps, addresses, qs, infos), Key(a, q.port), infos)
  {
    var last := |addresses| - 1;
    var before := FileSubset(eps, addresses[..last], qs, infos);
    if a == addresses[last] {
      RowFiles(before, a, qs, infos, q);
    } else {
      var i :| 0 <= i < |addresses| && addresses[i] == a;
      assert addresses[..last][i] == a;
      SubsetFiles(eps, addresses[..last], qs, infos, a, q);
      assert Kept(infos, before, FileRow(before, addresses[last], qs, infos));
    }
  }

  lemma {:induction false} BackedAddressesAreFiled(eps: map<string, ServiceInfo>, subsets: seq<Subset>, infos: seq<ServiceInfo>,
                                                   subset: Subset, a: string, q: EndpointPort)
    requires subset in subsets && a in subset.addresses && q in subset.ports && LastBacked(infos, q).Some?
    ensures FiledFor(FileSubsets(eps, subsets, infos), Key(a, q.port), infos)
  {
    var last := |subsets| - 1;
    var before := FileSubsets(eps, subsets[..last], infos);
    if subset == subsets[last] {
      SubsetFiles(before, subset.addresses, subset.ports, infos, a, q);
    } else {
      var i :| 0 <= i < |subsets| && subsets[i] == subset;
      assert subsets[..last][i] == subset;
      BackedAddressesAreFiled(eps, subsets[..last], infos, subset, a, q);
      assert Kept(infos, before, FileSubset(before, subsets[last].addresses, subsets[last].ports, infos));
    }
  }

  /** Nothing else is filed: an address that is new or changed backs a port of the service. */
  lemma {:induction false} OnlyBackedAddressesAreFiled(eps: map<string, ServiceInfo>, subsets: seq<Subset>, infos: seq<ServiceInfo>, key: string)
    requires var r := FileSubsets(eps, subsets, infos); key in r && !(key in eps && r[key] == eps[key])
    ensures exists subset, a, q | subset in subsets && a in subset.addresses && q in subset.ports ::
              key == Key(a, q.port) && Some(FileSubsets(eps, subsets, infos)[key]) == LastBacked(infos, q)
  {
    var last := |subsets| - 1;
    var before := FileSubsets(eps, subsets[..last], infos);
    var r := FileSubset(before, subsets[last].addresses, subsets[last].ports, infos);
    if key in before && before[key] == r[key] {
      OnlyBackedAddressesAreFiled(eps, subsets[..last], infos, key);
      var subset, a, q :| subset in subsets[..last] && a in subset.addresses && q in subset.ports &&
                          key == Key(a, q.port) && Some(before[key]) == LastBacked(infos, q);
      assert subset in subsets;
    } else {
      var a, q := SubsetFilesOnly(before, subsets[last].addresses, subsets[last].ports, infos, key);
      assert subsets[last] in subsets;
    }
  }

  lemma {:induction false} SubsetFilesOnly(eps: map<string, ServiceInfo>, addresses: seq<string>, qs: seq<EndpointPort>,
                                           infos: seq<ServiceInfo>, key: string) returns (a: string, q: EndpointPort)
    requires var r := FileSubset(eps, addresses, qs, infos); key in r && !(key in eps && r[key] == eps[key])
    ensures a in addresses && q in qs && key == Key(a, q.port)
    ensures Some(FileSubset(eps, addresses, qs, infos)[key]) == LastBacked(infos, q)
  {
    var last := |addresses| - 1;
    var before := FileSubset(eps, addresses[..last], qs, infos);
    var r := FileRow(before, addresses[last], qs, infos);
    if key in before && before[key] == r[key] {
      a, q := SubsetFilesOnly(eps, addresses[..last], qs, infos, key);
    } else {
      a := addresses[last];
      q := RowFilesOnly(before, a, qs, infos, key);
    }
  }

  lemma {:induction false} RowFilesOnly(eps: map<string, ServiceInfo>, a: string, qs: seq<EndpointPort>, infos: seq<ServiceInfo>, key: string)
      returns (q: EndpointPort)
    requires var r := FileRow(eps, a, qs, infos); key in r && !(key in eps && r[key] == eps[key])
    ensures q in qs && key == Key(a, q.port) && Some(FileRow(eps, a, qs, infos)[key]) == LastBacked(infos, q)
  {
    var last := |qs| - 1;
    var before := FileRow(eps, a, qs[..last], infos);
    if key in before && before[key] == FileRow(eps, a, qs, infos)[key] {
      q := RowFilesOnly(eps, a, qs[..last], infos, key);
    } else {
      q := qs[last];
    }
  }

  /** The endpoint port has the name or the number of the service's port. */
  predicate MatchesSpec(p: PortSpec, q: EndpointPort) {
    p.name == q.name || p.port == q.port
  }

  /** What the address is filed as when the service's k-th port is the last that matches. */
  ghost predicate FiledAs(i: ServiceInfo, svc: Service, q: EndpointPort, k: nat) {
    && k < |svc.ports| && MatchesSpec(svc.ports[k], q) && (forall j | k < j < |svc.ports| :: !MatchesSpec(svc.ports[j], q))
    && i == ServiceInfo(svc.name, svc.namespace, svc.ports[k].port, svc.ports[k].name, svc.ports[k].protocol, svc.clusterIP)
  }

  /** Every endpoint address with a port that matches one of the service's is filed for the service. */
  ghost predicate FilesMatching(eps: map<string, ServiceInfo>, ep: Endpoints, svc: Service) {
    forall subset, a, q | subset in ep.subsets && a in subset.addresses && q in subset.ports && (exists p | p in svc.ports :: MatchesSpec(p, q)) ::
      Key(a, q.port) in eps && eps[Key(a, q.port)].name == svc.name && eps[Key(a, q.port)].namespace == svc.namespace
  }

  /** Whatever is new or changed is such an address, filed as the last matching port of the service. */
  ghost predicate FilesOnlyMatching(was: map<string, ServiceInfo>, eps: map<string, ServiceInfo>, ep: Endpoints, svc: Service) {
    forall key | key in eps && !(key in was && was[key] == eps[key]) ::
      exists subset, a, q, k: nat | subset in ep.subsets && a in subset.addresses && q in subset.ports ::
        key == Key(a, q.port) && FiledAs(eps[key], svc, q, k)
  }

  lemma InfosBack(svc: Service, q: EndpointPort)
    ensures LastBacked(Infos(svc), q).Some? <==> exists p | p in svc.ports :: MatchesSpec(p, q)
    ensures LastBacked(Infos(svc), q).Some? ==> exists k: nat :: FiledAs(LastBacked(Infos(svc), q).value, svc, q, k)
  {
    var infos := Infos(svc);
    assert forall k | 0 <= k < |infos| :: Backs(infos[k], q) <==> MatchesSpec(svc.ports[k], q);
    if p :| p in svc.ports && MatchesSpec(p, q) {
      var k :| 0 <= k < |svc.ports| && svc.ports[k] == p;
      assert infos[k] in infos;
    }
    if LastBacked(infos, q).Some? {
      var k :| 0 <= k < |infos| && infos[k] == LastBacked(infos, q).value && Backs(infos[k], q) &&
               forall j | k < j < |infos| :: !Backs(infos[j], q);
      assert svc.ports[k] in svc.ports;
      assert FiledAs(infos[k], svc, q, k);
    }
  }

  lemma EndpointsAreFiled(was: map<string, ServiceInfo>, ep: Endpoints, svc: Service)
    ensures FilesMatching(FileSubsets(was, ep.subsets, Infos(svc)), ep, svc)
  {
    var eps := FileSubsets(was, ep.subsets, Infos(svc));
    forall subset, a, q | subset in ep.subsets && a in subset.addresses && q in subset.ports && (exists p | p in svc.ports :: MatchesSpec(p, q))
      ensures Key(a, q.port) in eps && eps[Key(a, q.port)].name == svc.name && eps[Key(a, q.port)].namespace == svc.namespace
    {
      InfosBack(svc, q);
      BackedAddressesAreFiled(was, ep.subsets, Infos(svc), subset, a, q);
    }
  }

  lemma OnlyEndpointsAreFiled(was: map<string, ServiceInfo>, ep: Endpoints, svc: Service)
    ensures FilesOnlyMatching(was, FileSubsets(was, ep.subsets, Infos(svc)), ep, svc)
  {
    var eps := FileSubsets(was, ep.subsets, Infos(svc));
    forall key | key in eps && !(key in was && was[key] == eps[key])
      ensures exists subset, a, q, k: nat | subset in ep.subsets && a in subset.addresses && q in subset.ports ::
                key == Key(a, q.port) && FiledAs(eps[key], svc, q, k)
    {
      OnlyBackedAddressesAreFiled(was, ep.subsets, Infos(svc), key);
      var subset, a, q :| subset in ep.subsets && a in subset.addresses && q in subset.ports && key == Key(a, q.port) &&
                          Some(eps[key]) == LastBacked(Infos(svc), q);
      InfosBack(svc, q);
      var k: nat :| FiledAs(eps[key], svc, q, k);
    }
  }

  lemma AfterNext(history: seq<Change>, events: seq<Change>, i: nat)
    requires i < |events|
    ensures After(history + events[..i + 1]) == Applied(After(history + events[..i]), events[i])
  {
    assert (history + events[..i + 1])[..|history| + i] == history + events[..i];
  }

  lemma AfterAll(history: seq<Change>, events: seq<Change>)
    ensures history + events[..0] == history && history + events[..|events|] == history + events
  {
  }

  class ServiceMap {
    var services: map<string, map<string, Entry>>
    var ipToService: map<string, ServiceInfo>
    var portToServices: PortIndex
    var endpointToService: map<string, ServiceInfo>

    ghost function Model(): Maps
      reads this
    {
      Maps(services, portToServices, ipToService)
    }

    constructor ()
      ensures Model() == After([]) && endpointToService == map[]
    {
      services, ipToService, portToServices, endpointToService := map[], map[], map[], map[];
    }

    method RemoveServiceFromIndexes(entry: Entry)
      modifies this`ipToService, this`portToServices
      ensures Model() == UnindexPorts(old(Model()), entry, entry.ports)
    {
      for i := 0 to |entry.ports|
        invariant Model() == UnindexPorts(old(Model()), entry, entry.ports[..i])
      {
        assert entry.ports[..i + 1][..i] == entry.ports[..i];
        RemovePort(entry, entry.ports[i].port);
      }
      assert entry.ports[..|entry.ports|] == entry.ports;
    }

    /** One iteration of the removal: filters the port's list and drops its address. */
    method RemovePort(entry: Entry, port: int)
      modifies this`ipToService, this`portToServices
      ensures Model() == UnindexPort(old(Model()), entry, port)
    {
      var ns := entry.namespace;
      var portList := PortList(portToServices, ns, port);
      if portList != [] {
        var filtered: seq<ServiceInfo> := [];
        for j := 0 to |portList|
          invariant filtered == Without(portList[..j], entry.name)
        {
          assert portList[..j + 1][..j] == portList[..j];
          if portList[j].name != entry.name {
            filtered := filtered + [portList[j]];
          }
        }
        assert portList[..|portList|] == portList;
        if |filtered| > 0 {
          portToServices := portToServices[ns := portToServices[ns][port := filtered]];
        } else {
          portToServices := portToServices[ns := portToServices[ns] - {port}];
        }
      }
      if Routable(entry.clusterIP) {
        ipToService := ipToService - {Key(entry.clusterIP, port)};
      }
    }

    method UpsertService(svc: Service)
      modifies this`services, this`ipToService, this`portToServices
      ensures Model() == Upserted(old(Model()), svc)
    {
      var ns, name := svc.namespace, svc.name;
      if ns !in services {
        services := services[ns := map[]];
      }
      if ns !in portToServices {
        portToServices := portToServices[ns := map[]];
      }
      if name in services[ns] {
        RemoveServiceFromIndexes(services[ns][name]);
      }
      ghost var cleaned := Model();
      assert cleaned == Unindexed(WithNamespace(old(Model()), ns), ns, name);
      var ports := AddPorts(svc);
      services := services[ns := services[ns][name := Entry(name, ns, svc.clusterIP, ports)]];
    }

    /** The loop of the upsert: builds the service's ports and files each of them. */
    method AddPorts(svc: Service) returns (ports: seq<ServiceInfo>)
      requires svc.namespace in portToServices
      modifies this`ipToService, this`portToServices
      ensures ports == Infos(svc)
      ensures Model() == IndexPorts(old(Model()), svc.namespace, Infos(svc))
    {
      ports := [];
      for i := 0 to |svc.ports|
        invariant ports == Infos(svc)[..i] && Model() == PortsFiled(old(Model()), svc, i)
      {
        ports := AddNextPort(svc, i, ports, old(Model()));
      }
      assert Infos(svc)[..|svc.ports|] == Infos(svc);
    }

    /** One iteration of that loop. */
    method AddNextPort(svc: Service, i: nat, ports: seq<ServiceInfo>, ghost m: Maps) returns (more: seq<ServiceInfo>)
      requires i < |svc.ports| && svc.namespace in m.ports
      requires ports == Infos(svc)[..i] && Model() == PortsFiled(m, svc, i)
      modifies this`ipToService, this`portToServices
      ensures more == Infos(svc)[..i + 1] && Model() == PortsFiled(m, svc, i + 1)
    {
      var info := ServiceInfo(svc.name, svc.namespace, svc.ports[i].port, svc.ports[i].name, svc.ports[i].protocol, svc.clusterIP);
      OnePortMore(m, svc, i);
      more := ports + [info];
      AddPort(info);
    }

    /** Appends a port to the list of its number, and files its address if it has one. */
    method AddPort(info: ServiceInfo)
      requires info.namespace in portToServices
      modifies this`ipToService, this`portToServices
      ensures Model() == IndexPort(old(Model()), info)
    {
      var ns := info.namespace;
      var list := PortList(portToServices, ns, info.port) + [info];
      portToServices := portToServices[ns := portToServices[ns][info.port := list]];
      if Routable(info.clusterIP) {
        ipToService := ipToService[Key(info.clusterIP, info.port) := info];
      }
    }

    method DeleteService(namespace: string, name: string)
      modifies this`services, this`ipToService, this`portToServices
      ensures Model() == Deleted(old(Model()), namespace, name)
    {
      if namespace !in services {
        return;
      }
      if name in services[namespace] {
        RemoveServiceFromIndexes(services[namespace][name]);
        services := services[namespace := services[namespace] - {name}];
      }
    }

    method Handle(event: Change)
      modifies this`services, this`ipToService, this`portToServices
      ensures Model() == Applied(old(Model()), event)
    {
      match event
      case Upsert(svc) => UpsertService(svc);
      case Delete(ns, name) => DeleteService(ns, name);
    }

    /** The watch loop: after it, the maps are those of the whole history of events. */
    method WatchServices(events: seq<Change>, ghost history: seq<Change>)
      requires Model() == After(history)
      modifies this`services, this`ipToService, this`portToServices
      ensures Model() == After(history + events)
    {
      AfterAll(history, events);
      for i := 0 to |events|
        invariant Model() == After(history + events[..i])
      {
        AfterNext(history, events, i);
        Handle(events[i]);
      }
    }

    /** Files the addresses of a live service's endpoints; earlier addresses always stay. */
    method UpsertEndpoints(ep: Endpoints, ghost history: seq<Change>)
      modifies this`endpointToService
      ensures endpointToService ==
              match Live(Model(), ep.namespace, ep.name)
              case Some(e) => FileSubsets(old(endpointToService), ep.subsets, e.ports)
              case None => old(endpointToService)
      ensures Model() == After(history) ==>
                if (ep.namespace, ep.name) !in LiveAfter(history) then endpointToService == old(endpointToService)
                else
                  var svc := LiveAfter(history)[(ep.namespace, ep.name)];
                  FilesMatching(endpointToService, ep, svc) && FilesOnlyMatching(old(endpointToService), endpointToService, ep, svc)
    {
      if Model() == After(history) {
        IndexesAgree(history);
      }
      if ep.namespace !in services || ep.name !in services[ep.namespace] {
        return;
      }
      var svc := services[ep.namespace][ep.name];
      for s := 0 to |ep.subsets|
        invariant endpointToService == FileSubsets(old(endpointToService), ep.subsets[..s], svc.ports)
      {
        var subset := ep.subsets[s];
        assert ep.subsets[..s + 1][..s] == ep.subsets[..s];
        ghost var before := endpointToService;
        for a := 0 to |subset.addresses|
          invariant endpointToService == FileSubset(before, subset.addresses[..a], subset.ports, svc.ports)
        {
          assert subset.addresses[..a + 1][..a] == subset.addresses[..a];
          FileAddress(subset.addresses[a], subset.ports, svc);
        }
        assert subset.addresses[..|subset.addresses|] == subset.addresses;
      }
      assert ep.subsets[..|ep.subsets|] == ep.subsets;
      if Model() == After(history) {
        ghost var live := LiveAfter(history)[(ep.namespace, ep.name)];
        assert svc == EntryOf(live);
        EndpointsAreFiled(old(endpointToService), ep, live);
        OnlyEndpointsAreFiled(old(endpointToService), ep, live);
      }
    }

    /** The loop over a subset's ports, for one address. */
    method FileAddress(address: string, ports: seq<EndpointPort>, svc: Entry)
      modifies this`endpointToService
      ensures endpointToService == FileRow(old(endpointToService), address, ports, svc.ports)
    {
      for q := 0 to |ports|
        invariant endpointToService == FileRow(old(endpointToService), address, ports[..q], svc.ports)
      {
        assert ports[..q + 1][..q] == ports[..q];
        FileEndpoint(address, ports[q], svc);
      }
      assert ports[..|ports|] == ports;
    }

    /** The innermost loop: files the address once per matching port of the service, so the last one stays. */
    method FileEndpoint(address: string, port: EndpointPort, svc: Entry)
      modifies this`endpointToService
      ensures endpointToService == FileOne(old(endpointToService), address, port, svc.ports)
    {
      for i := 0 to |svc.ports|
        invariant endpointToService == FileOne(old(endpointToService), address, port, svc.ports[..i])
      {
        OneMoreBacked(old(endpointToService), address, port, svc.ports, i);
        if svc.ports[i].portName == port.name || svc.ports[i].port == port.port {
          endpointToService := endpointToService[Key(address, port.port) := svc.ports[i]];
        }
      }
      assert svc.ports[..|svc.ports|] == svc.ports;
    }

    /** Removes exactly the addresses filed for one service. */
    method DeleteEndpoints(namespace: string, name: string)
      modifies this`endpointToService
      ensures endpointToService ==
              map key | key in old(endpointToService) &&
                        !(old(endpointToService)[key].namespace == namespace &&
                          old(endpointToService)[key].name == name) :: old(endpointToService)[key]
    {
      var toDelete: set<string> := {};
      var todo := endpointToService.Keys;
      while todo != {}
        invariant todo <= endpointToService.Keys
        invariant forall key :: key in toDelete <==>
                    key in endpointToService && key !in todo &&
                    endpointToService[key].namespace == namespace && endpointToService[key].name == name
        decreases todo
      {
        var key :| key in todo;
        todo := todo - {key};
        if endpointToService[key].namespace == namespace && endpointToService[key].name == name {
          toDelete := toDelete + {key};
        }
      }
      endpointToService := endpointToService - toDelete;
    }

    /**
     A ClusterIP wins over an endpoint address. What a ClusterIP resolves to is a current port of a live
     service; and if live services never exposed one address and number, every port of a live service with
     an address resolves to its last port with that number.
     */
    method ResolvePort(ip: string, port: int, ghost history: seq<Change>) returns (found: Option<ServiceInfo>)
      requires Model() == After(history)
      ensures Key(ip, port) in ipToService ==> found.Some? && IsLivePort(history, ip, port, found.value)
      ensures Key(ip, port) !in ipToService ==>
                found == if Key(ip, port) in endpointToService then Some(endpointToService[Key(ip, port)]) else None
      ensures NeverShared(history) && ip != "" && ip != "None" ==>
                forall svc, k: nat | IsLive(history, svc) && svc.clusterIP == ip && IsLastOn(svc, port, k) ::
                  found == Some(ServiceInfo(svc.name, svc.namespace, port, svc.ports[k].name, svc.ports[k].protocol, ip))
    {
      var key := Key(ip, port);
      if NeverShared(history) && ip != "" && ip != "None" {
        forall svc, k: nat | IsLive(history, svc) && svc.clusterIP == ip && IsLastOn(svc, port, k)
          ensures key in ipToService &&
                  ipToService[key] == ServiceInfo(svc.name, svc.namespace, port, svc.ports[k].name, svc.ports[k].protocol, ip)
        {
          LivePortResolves(history, svc, port, k);
        }
      }
      if key in ipToService {
        HitIsLivePort(history, ip, port);
        return Some(ipToService[key]);
      }
      if key in endpointToService {
        return Some(endpointToService[key]);
      }
      found := None;
    }

    /** The ports live services of the namespace expose under a number, each service's in order. */
    method ResolvePortInNamespace(namespace: string, port: int, ghost history: seq<Change>) returns (found: seq<ServiceInfo>)
      requires Model() == After(history)
      ensures forall name :: Lists(Named(found, name), history, namespace, name, port)
      ensures forall i | i in found :: i.namespace == namespace && i.port == port
    {
      if namespace !in portToServices {
        found := [];
      } else {
        found := PortList(portToServices, namespace, port);
      }
      forall name
        ensures Lists(Named(found, name), history, namespace, name, port)
      {
        PortListLists(history, namespace, name, port);
      }
      PortIndexIsExact(history, namespace, port, "");
    }

    /** The number of live services. */
    method ServiceCount(ghost history: seq<Change>) returns (count: nat)
      requires Model() == After(history)
      ensures count == |LiveAfter(history)|
    {
      count := CountServices(services);
      LiveNamesAreLive(history);
    }
  }
}
