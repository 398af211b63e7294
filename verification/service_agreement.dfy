/** The service indexes agree with the live services after every sequence of watch events. */
module ServiceAgreement {
  import opened Kube
  import opened ServiceIndex

  // ---------------------------------------------------------------- the invariant

  ghost predicate WellNamed(e: Entry, ns: string, name: string) {
    && e.name == name && e.namespace == ns
    && forall i | i in e.ports :: i.name == name && i.namespace == ns && i.clusterIP == e.clusterIP
  }

  ghost predicate Shaped(m: Maps) {
    && m.services.Keys <= m.ports.Keys
    && forall ns, name | Live(m, ns, name).Some? :: WellNamed(Live(m, ns, name).value, ns, name)
  }

  /** Per namespace, number and service: the filed ports are the service's ports with that number, in order. */
  ghost predicate PortsAgree(m: Maps) {
    forall ns, p, name :: Named(PortList(m.ports, ns, p), name) == OnPort(LivePorts(m, ns, name), p)
  }

  /** Every address in the index is a current port of a live service, under its own key. */
  ghost predicate AddressesLive(m: Maps) {
    forall key | key in m.ips ::
      var i := m.ips[key];
      key == Key(i.clusterIP, i.port) && Routable(i.clusterIP) && i in LivePorts(m, i.namespace, i.name)
  }

  ghost predicate Agrees(m: Maps) {
    Shaped(m) && NoEmptyLists(m.ports) && PortsAgree(m) && AddressesLive(m)
  }

  // ---------------------------------------------------------------- taking a service out

  lemma CleanedList(m: Maps, ns: string, name: string, ns': string, p: int, other: string)
    requires Agrees(m)
    ensures NoEmptyLists(Unindexed(m, ns, name).ports)
    ensures Named(PortList(Unindexed(m, ns, name).ports, ns', p), other) ==
            if (ns', other) == (ns, name) then [] else OnPort(LivePorts(m, ns', other), p)
  {
    var list := PortList(m.ports, ns', p);
    assert Named(list, other) == OnPort(LivePorts(m, ns', other), p);
    if Live(m, ns, name).Some? {
      var e := Live(m, ns, name).value;
      UnindexLists(m, e, e.ports, ns', p);
      NamedWithout(list, name, other);
      LastOnIsLast(e.ports, p);
    }
  }

  lemma CleanedAddress(m: Maps, ns: string, name: string, key: string)
    requires Agrees(m) && key in Unindexed(m, ns, name).ips
    ensures key in m.ips && Unindexed(m, ns, name).ips[key] == m.ips[key]
    ensures (m.ips[key].namespace, m.ips[key].name) != (ns, name)
  {
    if Live(m, ns, name).Some? {
      var e := Live(m, ns, name).value;
      UnindexAddresses(m, e, e.ports, key);
    }
  }

  lemma DeletedAgrees(m: Maps, ns: string, name: string)
    requires Agrees(m)
    ensures Agrees(Deleted(m, ns, name))
  {
    if Live(m, ns, name).Some? {
      var cleaned, after := Unindexed(m, ns, name), Deleted(m, ns, name);
      forall ns', other
        ensures Live(after, ns', other) == if (ns', other) == (ns, name) then None else Live(m, ns', other)
      {
      }
      forall ns', p, other
        ensures Named(PortList(after.ports, ns', p), other) == OnPort(LivePorts(after, ns', other), p)
        ensures NoEmptyLists(after.ports)
      {
        CleanedList(m, ns, name, ns', p, other);
      }
      CleanedList(m, ns, name, "", 0, "");
      forall key | key in after.ips
        ensures var i := after.ips[key];
                key == Key(i.clusterIP, i.port) && Routable(i.clusterIP) && i in LivePorts(after, i.namespace, i.name)
      {
        CleanedAddress(m, ns, name, key);
      }
    }
  }

  // ---------------------------------------------------------------- putting a service in

  lemma NamespaceAgrees(m: Maps, ns: string)
    requires Agrees(m)
    ensures Agrees(WithNamespace(m, ns))
    ensures forall ns', name :: Live(WithNamespace(m, ns), ns', name) == Live(m, ns', name)
  {
    var w := WithNamespace(m, ns);
    assert forall ns', name :: Live(w, ns', name) == Live(m, ns', name);
    forall ns', p, name
      ensures Named(PortList(w.ports, ns', p), name) == OnPort(LivePorts(w, ns', name), p)
    {
      assert PortList(w.ports, ns', p) == PortList(m.ports, ns', p);
    }
  }

  lemma InfosShaped(svc: Service)
    ensures WellNamed(EntryOf(svc), svc.namespace, svc.name)
  {
  }

  lemma UpsertedLive(m: Maps, svc: Service, ns: string, name: string)
    ensures Live(Upserted(m, svc), ns, name) ==
            if (ns, name) == (svc.namespace, svc.name) then Some(EntryOf(svc)) else Live(m, ns, name)
  {
  }

  /** The service's ports go behind what is left of each list. */
  lemma UpsertedPorts(m: Maps, svc: Service, ns: string, p: int)
    requires Agrees(m)
    ensures var cleaned := Unindexed(WithNamespace(m, svc.namespace), svc.namespace, svc.name);
            && NoEmptyLists(Upserted(m, svc).ports)
            && PortList(Upserted(m, svc).ports, ns, p) ==
               PortList(cleaned.ports, ns, p) + if ns == svc.namespace then OnPort(Infos(svc), p) else []
  {
    var w := WithNamespace(m, svc.namespace);
    NamespaceAgrees(m, svc.namespace);
    CleanedList(w, svc.namespace, svc.name, ns, p, svc.name);
    IndexLists(Unindexed(w, svc.namespace, svc.name), svc.namespace, Infos(svc), ns, p);
  }

  lemma InfosNamed(svc: Service, p: int, name: string)
    ensures Named(OnPort(Infos(svc), p), name) == if name == svc.name then OnPort(Infos(svc), p) else []
  {
    OnPortMembers(Infos(svc), p);
    NamedAll(OnPort(Infos(svc), p), svc.name, name);
  }

  lemma UpsertedList(m: Maps, svc: Service, ns: string, p: int, name: string)
    requires Agrees(m)
    ensures NoEmptyLists(Upserted(m, svc).ports)
    ensures Named(PortList(Upserted(m, svc).ports, ns, p), name) == OnPort(LivePorts(Upserted(m, svc), ns, name), p)
  {
    var w := WithNamespace(m, svc.namespace);
    var left := PortList(Unindexed(w, svc.namespace, svc.name).ports, ns, p);
    var added := if ns == svc.namespace then OnPort(Infos(svc), p) else [];
    UpsertedPorts(m, svc, ns, p);
    NamespaceAgrees(m, svc.namespace);
    CleanedList(w, svc.namespace, svc.name, ns, p, name);
    UpsertedLive(m, svc, ns, name);
    InfosNamed(svc, p, name);
    NamedConcat(left, added, name);
  }

  lemma UpsertedAddress(m: Maps, svc: Service, key: string)
    requires Agrees(m) && key in Upserted(m, svc).ips
    ensures var i := Upserted(m, svc).ips[key];
            && key == Key(i.clusterIP, i.port) && Routable(i.clusterIP)
            && i in LivePorts(Upserted(m, svc), i.namespace, i.name)
  {
    var ns, infos := svc.namespace, Infos(svc);
    var w := WithNamespace(m, ns);
    NamespaceAgrees(m, ns);
    InfosShaped(svc);
    var cleaned := Unindexed(w, ns, svc.name);
    if Routable(svc.clusterIP) && exists i | i in infos :: key == Key(svc.clusterIP, i.port) {
      var i :| i in infos && key == Key(svc.clusterIP, i.port);
      LastOnIsLast(infos, i.port);
      IndexAddress(cleaned, ns, svc.clusterIP, infos, i.port);
      UpsertedLive(m, svc, ns, svc.name);
    } else {
      IndexOtherAddress(cleaned, ns, svc.clusterIP, infos, key);
      CleanedAddress(w, ns, svc.name, key);
      UpsertedLive(m, svc, m.ips[key].namespace, m.ips[key].name);
    }
  }

  lemma UpsertedAgrees(m: Maps, svc: Service)
    requires Agrees(m)
    ensures Agrees(Upserted(m, svc))
  {
    var after := Upserted(m, svc);
    InfosShaped(svc);
    forall ns, name
      ensures Live(after, ns, name) ==
              if (ns, name) == (svc.namespace, svc.name) then Some(EntryOf(svc)) else Live(m, ns, name)
    {
      UpsertedLive(m, svc, ns, name);
    }
    UpsertedList(m, svc, "", 0, "");
    forall ns, p, name
      ensures Named(PortList(after.ports, ns, p), name) == OnPort(LivePorts(after, ns, name), p)
    {
      UpsertedList(m, svc, ns, p, name);
    }
    forall key | key in after.ips
      ensures var i := after.ips[key];
              key == Key(i.clusterIP, i.port) && Routable(i.clusterIP) && i in LivePorts(after, i.namespace, i.name)
    {
      UpsertedAddress(m, svc, key);
    }
  }

  // ---------------------------------------------------------------- every sequence of changes

  ghost predicate Refines(m: Maps, live: map<(string, string), Service>) {
    forall ns, name ::
      Live(m, ns, name) == if (ns, name) in live then Some(EntryOf(live[(ns, name)])) else None
  }

  lemma {:induction false} IndexesAgree(changes: seq<Change>)
    ensures Agrees(After(changes)) && Refines(After(changes), LiveAfter(changes))
  {
    if changes != [] {
      var init, last := changes[..|changes| - 1], changes[|changes| - 1];
      IndexesAgree(init);
      match last
      case Upsert(svc) =>
        UpsertedAgrees(After(init), svc);
        forall ns, name {
          UpsertedLive(After(init), svc, ns, name);
        }
      case Delete(ns, name) =>
        DeletedAgrees(After(init), ns, name);
    }
  }

  /**
   Main result for the port index. After any changes, what is filed for a service under a number is
   exactly that live service's ports with that number, in order; nothing of it if it is not live.
   */
  lemma PortIndexIsExact(changes: seq<Change>, ns: string, p: int, name: string)
    ensures Named(PortList(After(changes).ports, ns, p), name) ==
            if (ns, name) in LiveAfter(changes) then OnPort(Infos(LiveAfter(changes)[(ns, name)]), p) else []
    ensures forall i | i in PortList(After(changes).ports, ns, p) ::
              i.namespace == ns && i.port == p && (ns, i.name) in LiveAfter(changes)
    ensures NoEmptyLists(After(changes).ports)
  {
    IndexesAgree(changes);
    var m := After(changes);
    forall i | i in PortList(m.ports, ns, p)
      ensures i.namespace == ns && i.port == p && (ns, i.name) in LiveAfter(changes)
    {
      NamedMember(PortList(m.ports, ns, p), i);
      assert Named(PortList(m.ports, ns, p), i.name) == OnPort(LivePorts(m, ns, i.name), p);
      OnPortMembers(LivePorts(m, ns, i.name), p);
    }
  }

  /** Main result for the address index, with no condition: it never resolves to a stale service. */
  lemma AddressIndexIsLive(changes: seq<Change>, ip: string, p: int)
    requires Key(ip, p) in After(changes).ips
    ensures var i := After(changes).ips[Key(ip, p)];
            && i.clusterIP == ip && i.port == p && Routable(ip)
            && (i.namespace, i.name) in LiveAfter(changes)
            && i in Infos(LiveAfter(changes)[(i.namespace, i.name)])
  {
    IndexesAgree(changes);
    var i := After(changes).ips[Key(ip, p)];
    KeyInjective(ip, p, i.clusterIP, i.port);
    assert Live(After(changes), i.namespace, i.name).Some?;
  }

  // ---------------------------------------------------------------- completeness of the address index

  /** Looking up this service's address and number finds its last port with that number. */
  ghost predicate Resolves(m: Maps, ns: string, name: string, p: int) {
    Live(m, ns, name).Some? &&
    var e := Live(m, ns, name).value;
    LastOn(e.ports, p).Some? && Key(e.clusterIP, p) in m.ips && m.ips[Key(e.clusterIP, p)] == LastOn(e.ports, p).value
  }

  ghost predicate AddressesComplete(m: Maps) {
    forall ns, name, p |
      && Live(m, ns, name).Some? && Routable(Live(m, ns, name).value.clusterIP)
      && LastOn(Live(m, ns, name).value.ports, p).Some? ::
      Resolves(m, ns, name, p)
  }

  /** Whether a service claims an address. */
  ghost predicate Claims(e: Option<Entry>, ip: string, p: int) {
    e.Some? && Routable(e.value.clusterIP) && e.value.clusterIP == ip && UsesPort(e.value.ports, p)
  }

  /** No two live services claim one address and port. */
  ghost predicate NoSharedAddress(m: Maps) {
    forall ns, name, ns', name', ip, p | Claims(Live(m, ns, name), ip, p) && Claims(Live(m, ns', name'), ip, p) ::
      (ns, name) == (ns', name')
  }

  lemma UnindexKeepsAddress(m: Maps, ns: string, name: string, ip: string, p: int)
    ensures var key := Key(ip, p);
            var ips := Unindexed(m, ns, name).ips;
            && (key in ips <==> key in m.ips && !Claims(Live(m, ns, name), ip, p))
            && (key in ips ==> ips[key] == m.ips[key])
  {
    if Live(m, ns, name).Some? {
      var e := Live(m, ns, name).value;
      UnindexAddresses(m, e, e.ports, Key(ip, p));
      forall i | i in e.ports && Key(ip, p) == Key(e.clusterIP, i.port)
        ensures ip == e.clusterIP && p == i.port
      {
        KeyInjective(ip, p, e.clusterIP, i.port);
      }
    }
  }

  /**
   The exact effect of deleting one service on another: the other keeps resolving if and only if
   the deleted one did not claim the same address.
   */
  lemma DeleteKeepsOtherIff(m: Maps, ns: string, name: string, ns': string, name': string, p: int)
    requires (ns, name) != (ns', name') && Resolves(m, ns', name', p)
    ensures Resolves(Deleted(m, ns, name), ns', name', p) <==>
            !Claims(Live(m, ns, name), Live(m, ns', name').value.clusterIP, p)
  {
    UnindexKeepsAddress(m, ns, name, Live(m, ns', name').value.clusterIP, p);
    assert Live(Deleted(m, ns, name), ns', name') == Live(m, ns', name');
  }

  /** The same for an upsert: neither the replaced nor the new version may claim the address. */
  lemma UpsertKeepsOtherIff(m: Maps, svc: Service, ns: string, name: string, p: int)
    requires (svc.namespace, svc.name) != (ns, name) && Resolves(m, ns, name, p)
    requires Shaped(m)
    ensures Resolves(Upserted(m, svc), ns, name, p) <==>
            && !Claims(Live(m, svc.namespace, svc.name), Live(m, ns, name).value.clusterIP, p)
            && !Claims(Some(EntryOf(svc)), Live(m, ns, name).value.clusterIP, p)
  {
    var ip, infos := Live(m, ns, name).value.clusterIP, Infos(svc);
    var w := WithNamespace(m, svc.namespace);
    assert Live(w, svc.namespace, svc.name) == Live(m, svc.namespace, svc.name);
    var cleaned := Unindexed(w, svc.namespace, svc.name);
    UnindexKeepsAddress(w, svc.namespace, svc.name, ip, p);
    UpsertedLive(m, svc, ns, name);
    LastOnIsLast(infos, p);
    LastOnIsLast(Live(m, ns, name).value.ports, p);
    InfosShaped(svc);
    if Claims(Some(EntryOf(svc)), ip, p) {
      IndexAddress(cleaned, svc.namespace, ip, infos, p);
    } else {
      forall i | i in infos && Routable(svc.clusterIP)
        ensures Key(ip, p) != Key(svc.clusterIP, i.port)
      {
        if Key(ip, p) == Key(svc.clusterIP, i.port) {
          KeyInjective(ip, p, svc.clusterIP, i.port);
        }
      }
      IndexOtherAddress(cleaned, svc.namespace, svc.clusterIP, infos, Key(ip, p));
    }
  }

  /** Two services with one address: once the second is deleted, the first is live and cannot be looked up. */
  lemma SharedAddressIsLost(a: Service, b: Service, p: int)
    requires (a.namespace, a.name) != (b.namespace, b.name) && a.clusterIP == b.clusterIP && Routable(b.clusterIP)
    requires LastOn(Infos(a), p).Some? && LastOn(Infos(b), p).Some?
    ensures var m := Deleted(Upserted(Upserted(EMPTY, a), b), b.namespace, b.name);
            Live(m, a.namespace, a.name) == Some(EntryOf(a)) && Key(a.clusterIP, p) !in m.ips
  {
    var one := Upserted(EMPTY, a);
    UpsertedLive(EMPTY, a, a.namespace, a.name);
    UpsertedLive(one, b, a.namespace, a.name);
    UpsertedLive(one, b, b.namespace, b.name);
    LastOnIsLast(Infos(b), p);
    DeletedAddress(Upserted(one, b), b, p);
    DeletedLive(Upserted(one, b), b.namespace, b.name, a.namespace, a.name);
  }

  lemma DeletedLive(m: Maps, ns: string, name: string, ns': string, name': string)
    requires (ns, name) != (ns', name')
    ensures Live(Deleted(m, ns, name), ns', name') == Live(m, ns', name')
  {
  }

  lemma DeletedAddress(m: Maps, b: Service, p: int)
    requires Live(m, b.namespace, b.name) == Some(EntryOf(b)) && Routable(b.clusterIP) && UsesPort(Infos(b), p)
    ensures Key(b.clusterIP, p) !in Deleted(m, b.namespace, b.name).ips
  {
    UnindexKeepsAddress(m, b.namespace, b.name, b.clusterIP, p);
  }

  lemma UpsertedResolves(m: Maps, svc: Service, p: int)
    requires Routable(svc.clusterIP) && LastOn(Infos(svc), p).Some?
    ensures Resolves(Upserted(m, svc), svc.namespace, svc.name, p)
  {
    InfosShaped(svc);
    UpsertedLive(m, svc, svc.namespace, svc.name);
    var cleaned := Unindexed(WithNamespace(m, svc.namespace), svc.namespace, svc.name);
    IndexAddress(cleaned, svc.namespace, svc.clusterIP, Infos(svc), p);
  }

  lemma ChangeKeepsResolving(m: Maps, c: Change, ns: string, name: string, p: int)
    requires Agrees(m) && AddressesComplete(m) && NoSharedAddress(m) && NoSharedAddress(Applied(m, c))
    requires var e := Live(Applied(m, c), ns, name); e.Some? && Routable(e.value.clusterIP) && LastOn(e.value.ports, p).Some?
    ensures Resolves(Applied(m, c), ns, name, p)
  {
    var after := Applied(m, c);
    var e := Live(after, ns, name).value;
    LastOnIsLast(e.ports, p);
    assert Claims(Live(after, ns, name), e.clusterIP, p);
    match c
    case Upsert(svc) =>
      UpsertedLive(m, svc, ns, name);
      UpsertedLive(m, svc, svc.namespace, svc.name);
      if (ns, name) == (svc.namespace, svc.name) {
        UpsertedResolves(m, svc, p);
      } else {
        UpsertKeepsOtherIff(m, svc, ns, name, p);
      }
    case Delete(ns', name') =>
      if Live(m, ns', name').Some? {
        assert (ns, name) != (ns', name');
        assert Live(after, ns, name) == Live(m, ns, name);
        DeleteKeepsOtherIff(m, ns', name', ns, name, p);
      }
  }

  /** A lookup answers for one service only. */
  lemma CompleteIsUnshared(m: Maps)
    requires Shaped(m) && AddressesComplete(m)
    ensures NoSharedAddress(m)
  {
    forall ns, name, ns', name', ip, p | Claims(Live(m, ns, name), ip, p) && Claims(Live(m, ns', name'), ip, p)
      ensures (ns, name) == (ns', name')
    {
      LastOnIsLast(Live(m, ns, name).value.ports, p);
      LastOnIsLast(Live(m, ns', name').value.ports, p);
      assert Resolves(m, ns, name, p) && Resolves(m, ns', name', p);
    }
  }

  /**
   If live services never claim one address and port, every port of a live service with a routable
   ClusterIP can be looked up, and yields that service's last port with that number.
   */
  lemma {:induction false} AddressIndexIsComplete(changes: seq<Change>)
    requires forall i | 0 <= i <= |changes| :: NoSharedAddress(After(changes[..i]))
    ensures AddressesComplete(After(changes))
  {
    if changes != [] {
      var init := changes[..|changes| - 1];
      assert forall i | 0 <= i <= |init| :: init[..i] == changes[..i];
      AddressIndexIsComplete(init);
      IndexesAgree(init);
      assert changes[..|changes|] == changes && changes[..|changes| - 1] == init;
      assert NoSharedAddress(After(init)) && NoSharedAddress(After(changes));
      forall ns, name, p |
        && Live(After(changes), ns, name).Some? && Routable(Live(After(changes), ns, name).value.clusterIP)
        && LastOn(Live(After(changes), ns, name).value.ports, p).Some?
        ensures Resolves(After(changes), ns, name, p)
      {
        ChangeKeepsResolving(After(init), changes[|changes| - 1], ns, name, p);
      }
    }
  }

  /** Every live port can be looked up at all times exactly if no two live services ever claim one address and port. */
  lemma CompleteThroughoutIff(changes: seq<Change>)
    ensures (forall i | 0 <= i <= |changes| :: AddressesComplete(After(changes[..i]))) <==>
            forall i | 0 <= i <= |changes| :: NoSharedAddress(After(changes[..i]))
  {
    if forall i | 0 <= i <= |changes| :: AddressesComplete(After(changes[..i])) {
      forall i | 0 <= i <= |changes|
        ensures NoSharedAddress(After(changes[..i]))
      {
        IndexesAgree(changes[..i]);
        CompleteIsUnshared(After(changes[..i]));
      }
    }
    if forall i | 0 <= i <= |changes| :: NoSharedAddress(After(changes[..i])) {
      forall i | 0 <= i <= |changes|
        ensures AddressesComplete(After(changes[..i]))
      {
        assert forall j | 0 <= j <= i :: changes[..i][..j] == changes[..j];
        AddressIndexIsComplete(changes[..i]);
      }
    }
  }
}
