/**
 The workload annotator in place: the index callback, the cached listings, and a worker that serves the
 queue. What several workers do to the queue is studied in FanningOut.
 */
module Annotating {
  import opened Kube
  import opened Clocks
  import opened FanningOut

  const TTL := 30_000_000_000
  const KINDS := ["Deployment", "StatefulSet", "DaemonSet"]

  datatype Cached = Cached(workloads: seq<Key>, fetchedAt: int)

  // The names of the workloads of each namespace and kind.
  datatype Snapshot = Snapshot(namespaces: seq<string>, names: map<(string, string), seq<string>>)

  function NamesOf(snap: Snapshot, ns: string, kind: string): seq<string> {
    if (ns, kind) in snap.names then snap.names[(ns, kind)] else []
  }

  function KeysOf(ns: string, kind: string, names: seq<string>): seq<Key> {
    seq(|names|, i requires 0 <= i < |names| => Key(ns, kind, names[i]))
  }

  /** The workloads of a namespace, without the kinds whose listing failed. */
  function Listed(snap: Snapshot, ns: string, kinds: seq<string>, ok: seq<bool>): seq<Key>
    requires |ok| == |kinds|
  {
    if kinds == [] then []
    else
      var last := |kinds| - 1;
      Listed(snap, ns, kinds[..last], ok[..last]) +
      if ok[last] then KeysOf(ns, kinds[last], NamesOf(snap, ns, kinds[last])) else []
  }

  function Ones(n: nat): seq<bool> {
    seq(n, _ => true)
  }

  /** The abstract cluster knows every listing of the snapshot and every cached one. */
  ghost predicate Knows(c: Cluster, snap: Snapshot, cache: map<string, Cached>) {
    && c.namespaces == snap.namespaces
    && (forall ns, ok | ns != "" && |ok| == |KINDS| :: Lists(c, ns, Listed(snap, ns, KINDS, ok)))
    && forall ns | ns in cache && ns != "" :: Lists(c, ns, cache[ns].workloads)
  }

  // ---------------------------------------------------------------- every snapshot has a cluster

  /** All ways the listings of n kinds can succeed or fail. */
  function AllOutcomes(n: nat): seq<seq<bool>> {
    if n == 0 then [[]]
    else
      var rest := AllOutcomes(n - 1);
      seq(|rest|, i requires 0 <= i < |rest| => rest[i] + [true]) + seq(|rest|, i requires 0 <= i < |rest| => rest[i] + [false])
  }

  lemma {:induction false} AllOutcomesMember(ok: seq<bool>)
    ensures ok in AllOutcomes(|ok|)
  {
    if ok != [] {
      var front, last := ok[..|ok| - 1], ok[|ok| - 1];
      AllOutcomesMember(front);
      var rest := AllOutcomes(|front|);
      var i :| 0 <= i < |rest| && rest[i] == front;
      assert ok == front + [last];
      assert AllOutcomes(|ok|)[if last then i else |rest| + i] == ok;
    }
  }

  lemma {:induction false} AllOutcomesLength(n: nat)
    ensures forall ok | ok in AllOutcomes(n) :: |ok| == n
  {
    if n > 0 {
      AllOutcomesLength(n - 1);
    }
  }

  /** Everything listing a namespace can return. */
  ghost function Listings(snap: Snapshot, ns: string): seq<seq<Key>> {
    AllOutcomesLength(|KINDS|);
    var all := AllOutcomes(|KINDS|);
    seq(|all|, i requires 0 <= i < |all| => Listed(snap, ns, KINDS, all[i]))
  }

  ghost function ClusterOf(snap: Snapshot, capacity: nat, debounce: int): Cluster {
    Cluster(snap.namespaces, map k | k in snap.names :: k.0 := Listings(snap, k.0), capacity, debounce)
  }

  /** Every workload of the snapshot has a name. */
  ghost predicate AllNamed(snap: Snapshot) {
    forall ns, kind, name | kind in KINDS && ns != "" && ns != SENTINEL && name in NamesOf(snap, ns, kind) :: name != ""
  }

  lemma {:induction false} ListedIsLocal(snap: Snapshot, ns: string, kinds: seq<string>, ok: seq<bool>)
    requires |ok| == |kinds|
    ensures forall k | k in Listed(snap, ns, kinds, ok) ::
              k.namespace == ns && k.kind in kinds && k.name in NamesOf(snap, ns, k.kind)
    ensures (forall kind | kind in kinds :: (ns, kind) !in snap.names) ==> Listed(snap, ns, kinds, ok) == []
  {
    if kinds != [] {
      var last := |kinds| - 1;
      assert kinds[last] in kinds && forall kind | kind in kinds[..last] :: kind in kinds;
      ListedIsLocal(snap, ns, kinds[..last], ok[..last]);
    }
  }

  lemma {:induction false} AllAreListed(snap: Snapshot, ns: string, kinds: seq<string>, kind: string, name: string)
    requires kind in kinds && name in NamesOf(snap, ns, kind)
    ensures Key(ns, kind, name) in Listed(snap, ns, kinds, Ones(|kinds|))
  {
    var last := |kinds| - 1;
    assert Ones(|kinds|)[..last] == Ones(last);
    if kind == kinds[last] {
      var i :| 0 <= i < |NamesOf(snap, ns, kind)| && NamesOf(snap, ns, kind)[i] == name;
      assert KeysOf(ns, kind, NamesOf(snap, ns, kind))[i] == Key(ns, kind, name);
    } else {
      var i :| 0 <= i < |kinds| && kinds[i] == kind;
      assert kinds[..last][i] == kind;
      AllAreListed(snap, ns, kinds[..last], kind, name);
    }
  }

  /** A listing holds exactly the workloads of the three kinds whose listing did not fail. */
  lemma ListedIff(snap: Snapshot, ns: string, ok: seq<bool>, k: Key)
    requires |ok| == 3
    ensures k in Listed(snap, ns, KINDS, ok) <==>
            k.namespace == ns &&
            ((k.kind == "Deployment" && ok[0] && k.name in NamesOf(snap, ns, "Deployment")) ||
             (k.kind == "StatefulSet" && ok[1] && k.name in NamesOf(snap, ns, "StatefulSet")) ||
             (k.kind == "DaemonSet" && ok[2] && k.name in NamesOf(snap, ns, "DaemonSet")))
  {
    assert KINDS[..2] == ["Deployment", "StatefulSet"] && KINDS[..2][..1] == ["Deployment"] && ["Deployment"][..0] == [];
    assert Listed(snap, ns, KINDS[..2][..1][..0], ok[..2][..1][..0]) == [];
    KeysOfMember(ns, "Deployment", NamesOf(snap, ns, "Deployment"), k);
    KeysOfMember(ns, "StatefulSet", NamesOf(snap, ns, "StatefulSet"), k);
    KeysOfMember(ns, "DaemonSet", NamesOf(snap, ns, "DaemonSet"), k);
    assert Listed(snap, ns, KINDS[..2][..1], ok[..2][..1]) == if ok[0] then KeysOf(ns, "Deployment", NamesOf(snap, ns, "Deployment")) else [];
  }

  lemma KeysOfMember(ns: string, kind: string, names: seq<string>, k: Key)
    ensures k in KeysOf(ns, kind, names) <==> k.namespace == ns && k.kind == kind && k.name in names
  {
    if k.namespace == ns && k.kind == kind && k.name in names {
      var i :| 0 <= i < |names| && names[i] == k.name;
      assert KeysOf(ns, kind, names)[i] == k;
    }
  }

  lemma ListingsKnowAll(snap: Snapshot, ns: string, ok: seq<bool>)
    requires |ok| == |KINDS|
    ensures Listed(snap, ns, KINDS, ok) in Listings(snap, ns)
  {
    AllOutcomesMember(ok);
    AllOutcomesLength(|KINDS|);
    var all := AllOutcomes(|KINDS|);
    var i :| 0 <= i < |all| && all[i] == ok;
    assert Listings(snap, ns)[i] == Listed(snap, ns, KINDS, ok);
  }

  lemma ListingsAreListed(snap: Snapshot, ns: string, list: seq<Key>) returns (ok: seq<bool>)
    requires list in Listings(snap, ns)
    ensures |ok| == |KINDS| && list == Listed(snap, ns, KINDS, ok)
  {
    AllOutcomesLength(|KINDS|);
    var all := AllOutcomes(|KINDS|);
    var i :| 0 <= i < |Listings(snap, ns)| && Listings(snap, ns)[i] == list;
    ok := all[i];
    assert ok in all;
  }

  /** Every snapshot has a cluster that knows it, and its workloads have names exactly if the snapshot's do. */
  lemma ClusterKnows(snap: Snapshot, capacity: nat, debounce: int)
    ensures var c := ClusterOf(snap, capacity, debounce); Knows(c, snap, map[]) && Local(c)
  {
    var c := ClusterOf(snap, capacity, debounce);
    forall ns, ok | ns != "" && |ok| == |KINDS|
      ensures Lists(c, ns, Listed(snap, ns, KINDS, ok))
    {
      if k :| k in snap.names && k.0 == ns {
        ListingsKnowAll(snap, ns, ok);
      } else {
        ListedIsLocal(snap, ns, KINDS, ok);
      }
    }
    forall ns, list, k | ns in c.listings && list in c.listings[ns] && k in list
      ensures k.namespace == ns
    {
      var ok := ListingsAreListed(snap, ns, list);
      ListedIsLocal(snap, ns, KINDS, ok);
    }
  }

  lemma ClusterNamedIff(snap: Snapshot, capacity: nat, debounce: int)
    ensures Named(ClusterOf(snap, capacity, debounce)) <==> AllNamed(snap)
  {
    var c := ClusterOf(snap, capacity, debounce);
    if AllNamed(snap) {
      forall ns, list, k | ns in c.listings && ns != "" && ns != SENTINEL && list in c.listings[ns] && k in list
        ensures Workload(k)
      {
        var ok := ListingsAreListed(snap, ns, list);
        ListedIsLocal(snap, ns, KINDS, ok);
      }
    }
    if Named(c) {
      forall ns, kind, name | kind in KINDS && ns != "" && ns != SENTINEL && name in NamesOf(snap, ns, kind)
        ensures name != ""
      {
        AllAreListed(snap, ns, KINDS, kind, name);
        ListingsKnowAll(snap, ns, Ones(|KINDS|));
        assert (ns, kind) in snap.names && ns in c.listings;
        assert Listed(snap, ns, KINDS, Ones(|KINDS|)) in c.listings[ns];
        assert Workload(Key(ns, kind, name));
      }
    }
  }

  // ---------------------------------------------------------------- the annotator in place

  predicate Recently(debounce: int, patches: map<Key, int>, key: Key, at: int) {
    key in patches && at - patches[key] < debounce
  }

  /** What was held back was patched recently when that began, and the rest was not when it ended. */
  ghost predicate Judged(debounce: int, patches: map<Key, int>, found: seq<Key>, kept: seq<bool>, from: int, to: int)
    requires |kept| <= |found|
  {
    forall i | 0 <= i < |kept| ::
      if kept[i] then !(found[i] in patches && to - patches[found[i]] < debounce)
      else found[i] in patches && from - patches[found[i]] < debounce
  }

  lemma OneMoreJudged(debounce: int, patches: map<Key, int>, found: seq<Key>, kept: seq<bool>, from: int, to: int, later: int)
    requires |kept| < |found| && from <= to <= later && Judged(debounce, patches, found, kept, from, to)
    ensures Judged(debounce, patches, found, kept + [!Recently(debounce, patches, found[|kept|], later)], from, later)
  {
  }

  lemma OneMoreEnqueued(capacity: nat, queue: seq<Key>, found: seq<Key>, kept: seq<bool>, one: bool)
    requires |kept| < |found|
    ensures var q := Enqueued(capacity, queue, found[..|kept|], kept);
            Enqueued(capacity, queue, found[..|kept| + 1], kept + [one]) ==
            if one && |q| < capacity then q + [found[|kept|]] else q
  {
    assert found[..|kept| + 1][..|kept|] == found[..|kept|] && (kept + [one])[..|kept|] == kept;
  }

  /** The queue after offering each namespace in turn. */
  function Offered(capacity: nat, queue: seq<Key>, nss: seq<string>): seq<Key> {
    if nss == [] then queue
    else
      var q := Offered(capacity, queue, nss[..|nss| - 1]);
      if |q| < capacity then q + [NamespaceKey(nss[|nss| - 1])] else q
  }

  lemma {:induction false} OfferedIsEnqueued(capacity: nat, queue: seq<Key>, nss: seq<string>)
    ensures Offered(capacity, queue, nss) == Enqueued(capacity, queue, NamespaceKeys(nss), Ones(|nss|))
  {
    if nss != [] {
      var last := |nss| - 1;
      OfferedIsEnqueued(capacity, queue, nss[..last]);
      assert NamespaceKeys(nss)[..last] == NamespaceKeys(nss[..last]) && Ones(|nss|)[..last] == Ones(last);
    }
  }

  class WorkloadAnnotator {
    const snap: Snapshot
    const capacity: nat
    const debounce: int
    const clock: Clock
    var queue: seq<Key>
    var lastPatch: map<Key, int>
    var nsCache: map<string, Cached>

    constructor (snap: Snapshot, capacity: nat, debounce: int, clock: Clock)
      ensures this.snap == snap && this.capacity == capacity && this.debounce == debounce && this.clock == clock
      ensures queue == [] && lastPatch == map[] && nsCache == map[]
    {
      this.snap, this.capacity, this.debounce, this.clock := snap, capacity, debounce, clock;
      queue, lastPatch, nsCache := [], map[], map[];
    }

    /** The state of the queue machine with this as its only worker. */
    ghost function Model(hand: Hand): State
      reads this, clock
    {
      State(queue, [hand], lastPatch, clock.now)
    }

    /** The machine's constants are this annotator's. */
    ghost predicate Fits(c: Cluster)
      reads this
    {
      Knows(c, snap, nsCache) && c.capacity == capacity && c.debounce == debounce
    }

    predicate PatchedRecently(patches: map<Key, int>, key: Key, now: int) {
      Recently(debounce, patches, key, now)
    }

    method Offer(key: Key)
      modifies this`queue
      ensures queue == if |old(queue)| < capacity then old(queue) + [key] else old(queue)
    {
      if |queue| < capacity {
        queue := queue + [key];
      }
    }

    /** The index callback; the affected namespaces are queued in order, each once. */
    method OnIndexChange(c: Constraint)
      modifies this`queue
      ensures var fan := FanOut(c.affected, c.namespace);
              queue == Enqueued(capacity, old(queue), NamespaceKeys(fan), Ones(|fan|))
    {
      var seen: seq<string> := [];
      for i := 0 to |c.affected|
        invariant seen == FirstOccurrences(c.affected[..i])
        invariant queue == Offered(capacity, old(queue), seen)
      {
        assert c.affected[..i + 1][..i] == c.affected[..i];
        if c.affected[i] !in seen {
          ghost var before := seen;
          seen := seen + [c.affected[i]];
          assert seen[..|seen| - 1] == before;
          Offer(NamespaceKey(c.affected[i]));
        }
      }
      assert c.affected[..|c.affected|] == c.affected;
      if c.namespace != "" {
        if c.namespace !in seen {
          assert (seen + [c.namespace])[..|seen|] == seen;
          Offer(NamespaceKey(c.namespace));
        }
      }
      if c.namespace == "" && |seen| == 0 {
        assert [SENTINEL][..0] == seen;
        Offer(NamespaceKey(SENTINEL));
      }
      OfferedIsEnqueued(capacity, old(queue), FanOut(c.affected, c.namespace));
    }

    /** Holds back a workload patched less than the debounce duration ago. */
    method QueueWorkloadUpdate(key: Key) returns (ghost kept: bool)
      modifies this`queue, clock
      ensures old(clock.now) <= clock.now && kept == !(key in lastPatch && clock.now - lastPatch[key] < debounce)
      ensures queue == if kept && |old(queue)| < capacity then old(queue) + [key] else old(queue)
    {
      var now := clock.Read();
      kept := !PatchedRecently(lastPatch, key, now);
      if PatchedRecently(lastPatch, key, now) {
        return;
      }
      Offer(key);
    }

    /** The workloads of a namespace: a cached listing younger than the time to live, or a new one. */
    method ListNamespaceWorkloads(ns: string) returns (found: seq<Key>, ghost ok: seq<bool>, ghost checked: int)
      modifies this`nsCache, clock
      ensures old(clock.now) <= checked <= clock.now && |ok| == |KINDS|
      ensures ns == "" ==> found == [] && nsCache == old(nsCache)
      ensures ns != "" ==>
                if ns in old(nsCache) && checked - old(nsCache)[ns].fetchedAt < 30_000_000_000
                then found == old(nsCache)[ns].workloads && nsCache == old(nsCache)
                else found == Listed(snap, ns, KINDS, ok) && nsCache == old(nsCache)[ns := Cached(found, clock.now)]
    {
      found, ok, checked := [], Ones(|KINDS|), clock.now;
      if ns == "" {
        return;
      }
      var now := clock.Read();
      checked := now;
      if ns in nsCache && now - nsCache[ns].fetchedAt < TTL {
        found := nsCache[ns].workloads;
        return;
      }
      found, ok := ListKinds(ns);
      now := clock.Read();
      nsCache := nsCache[ns := Cached(found, now)];
    }

    /** The listing of each kind may fail; the others are still used. */
    method ListKinds(ns: string) returns (found: seq<Key>, ghost ok: seq<bool>)
      ensures |ok| == |KINDS| && found == Listed(snap, ns, KINDS, ok)
    {
      found, ok := [], [];
      for i := 0 to |KINDS|
        invariant |ok| == i && found == Listed(snap, ns, KINDS[..i], ok)
      {
        assert KINDS[..i + 1][..i] == KINDS[..i];
        var fails: bool := *;
        ghost var before := ok;
        ok := ok + [!fails];
        assert ok[..i] == before;
        if !fails {
          found := found + KeysOf(ns, KINDS[i], NamesOf(snap, ns, KINDS[i]));
        }
      }
      assert KINDS[..|KINDS|] == KINDS;
    }

    /** Tries to queue each workload that was found. */
    method QueueWorkloads(found: seq<Key>, ghost c: Cluster) returns (ghost kept: seq<bool>, ghost sends: seq<Step>)
      requires c.capacity == capacity && c.debounce == debounce
      modifies this`queue, clock
      ensures old(clock.now) <= clock.now && |kept| == |found|
      ensures queue == Enqueued(capacity, old(queue), found, kept)
      ensures Judged(debounce, lastPatch, found, kept, old(clock.now), clock.now)
      ensures Leads(c, old(Model(Fanning(found, true))), sends, Model(Fanning([], true)))
    {
      kept, sends := [], [];
      assert found[0..] == found;
      for i := 0 to |found|
        invariant old(clock.now) <= clock.now && |kept| == i
        invariant queue == Enqueued(capacity, old(queue), found[..i], kept)
        invariant Judged(debounce, lastPatch, found, kept, old(clock.now), clock.now)
        invariant Leads(c, old(Model(Fanning(found, true))), sends, Model(Fanning(found[i..], true)))
      {
        assert found[i..] == [found[i]] + found[i + 1..];
        ghost var at, one := clock.now, false;
        one, sends := SendWorkload(found[i], found[i + 1..], c, old(Model(Fanning(found, true))), sends);
        OneMoreJudged(debounce, lastPatch, found, kept, old(clock.now), at, clock.now);
        OneMoreEnqueued(capacity, old(queue), found, kept, one);
        kept := kept + [one];
      }
      assert found[..|found|] == found;
    }

    /** One iteration of that loop, as a step of the queue machine. */
    method SendWorkload(key: Key, ghost rest: seq<Key>, ghost c: Cluster, ghost start: State, ghost sends: seq<Step>)
        returns (ghost kept: bool, ghost more: seq<Step>)
      requires c.capacity == capacity && c.debounce == debounce
      requires Leads(c, start, sends, Model(Fanning([key] + rest, true)))
      modifies this`queue, clock
      ensures old(clock.now) <= clock.now && kept == !PatchedRecently(lastPatch, key, clock.now)
      ensures queue == if kept && |old(queue)| < capacity then old(queue) + [key] else old(queue)
      ensures Leads(c, start, more, Model(Fanning(rest, true)))
    {
      kept := QueueWorkloadUpdate(key);
      OnePush(c, start, sends, old(queue), [key] + rest, true, lastPatch, old(clock.now), clock.now);
      assert ([key] + rest)[1..] == rest;
      more := sends + [Push(0, clock.now)];
    }

    method QueueNamespaces(nss: seq<string>, ghost c: Cluster) returns (ghost sends: seq<Step>)
      requires c.capacity == capacity
      modifies this`queue
      ensures queue == Enqueued(capacity, old(queue), NamespaceKeys(nss), Ones(|nss|))
      ensures Leads(c, old(Model(Fanning(NamespaceKeys(nss), false))), sends, Model(Fanning([], false)))
    {
      sends := [];
      ghost var keys := NamespaceKeys(nss);
      assert keys[0..] == keys;
      for i := 0 to |nss|
        invariant queue == Offered(capacity, old(queue), nss[..i])
        invariant Leads(c, old(Model(Fanning(keys, false))), sends, Model(Fanning(keys[i..], false)))
      {
        assert nss[..i + 1][..i] == nss[..i];
        ghost var q := queue;
        Offer(NamespaceKey(nss[i]));
        assert keys[i..][1..] == keys[i + 1..];
        OnePush(c, old(Model(Fanning(keys, false))), sends, q, keys[i..], false, lastPatch, clock.now, clock.now);
        sends := sends + [Push(0, clock.now)];
      }
      assert nss[..|nss|] == nss;
      OfferedIsEnqueued(capacity, old(queue), nss);
    }

    /**
     Handles one update: `found` is what it resolved to, `kept` what was not held back. A workload is
     patched exactly if it was not patched recently, told by the clock reading `checked`, and the call
     succeeds. From taking the update on, these are steps of the queue machine.
     */
    method ProcessUpdate(update: Key, apiFails: bool, ghost c: Cluster, ghost hand: Hand)
        returns (ghost found: seq<Key>, ghost kept: seq<bool>, ghost checked: int, ghost steps: seq<Step>, ghost free: Hand)
      requires Fits(c) && Free(hand)
      modifies this, clock
      ensures Fits(c) && old(clock.now) <= checked <= clock.now
      ensures Resolves(c, update, found) && |kept| == |found|
      ensures queue == Enqueued(capacity, old(queue), found, kept)
      ensures update.namespace == SENTINEL ==>
                found == (if apiFails then [] else NamespaceKeys(snap.namespaces)) && kept == Ones(|found|)
      ensures update.namespace != SENTINEL ==> Judged(debounce, old(lastPatch), found, kept, old(clock.now), clock.now)
      ensures var soon := update in old(lastPatch) && checked - old(lastPatch)[update] < debounce;
              lastPatch == if Workload(update) && !apiFails && !soon then old(lastPatch)[update := clock.now] else old(lastPatch)
      ensures Free(free)
      ensures Leads(c, State([update] + old(queue), [hand], old(lastPatch), old(clock.now)), steps, Model(free))
    {
      found, kept, checked := [], [], clock.now;
      ghost var now := clock.now;
      if update.namespace == SENTINEL {
        free := Fanning([], false);
        if apiFails {
          TakeLeads(c, update, queue, hand, lastPatch, now, [], now);
          steps := [Take(0, [], now)];
          return;
        }
        found, kept := NamespaceKeys(snap.namespaces), Ones(|snap.namespaces|);
        TakeLeads(c, update, queue, hand, lastPatch, now, found, now);
        steps := QueueNamespaces(snap.namespaces, c);
        LeadsOn(c, State([update] + old(queue), [hand], lastPatch, now), [Take(0, found, now)],
                old(Model(Fanning(NamespaceKeys(snap.namespaces), false))), steps, Model(free));
        steps := [Take(0, found, now)] + steps;
        return;
      }
      if update.kind == "" || update.name == "" {
        var workloads, ok, at := ListNamespaceWorkloads(update.namespace);
        TakeLeads(c, update, queue, hand, lastPatch, now, workloads, clock.now);
        ghost var listed := clock.now;
        kept, steps := QueueWorkloads(workloads, c);
        found, free := workloads, Fanning([], true);
        LeadsOn(c, State([update] + old(queue), [hand], lastPatch, now), [Take(0, found, listed)],
                State(old(queue), [Fanning(found, true)], lastPatch, listed), steps, Model(free));
        steps := [Take(0, found, listed)] + steps;
        return;
      }
      steps := PatchWorkload(update, apiFails, c, hand);
      free := Idle;
      checked := steps[0].at;
    }

    /** Checks again whether the workload was patched recently, and patches it if not. */
    method PatchWorkload(update: Key, apiFails: bool, ghost c: Cluster, ghost hand: Hand) returns (ghost steps: seq<Step>)
      requires c.debounce == debounce && Free(hand) && Workload(update)
      modifies this`lastPatch, clock
      ensures steps != [] && old(clock.now) <= steps[0].at <= clock.now
      ensures lastPatch == if !apiFails && !PatchedRecently(old(lastPatch), update, steps[0].at)
                           then old(lastPatch)[update := clock.now] else old(lastPatch)
      ensures Leads(c, State([update] + queue, [hand], old(lastPatch), old(clock.now)), steps, Model(Idle))
    {
      ghost var start := State([update] + queue, [hand], lastPatch, clock.now);
      var now := clock.Read();
      TakeLeads(c, update, queue, hand, lastPatch, old(clock.now), [], now);
      steps := [Take(0, [], now)];
      if PatchedRecently(lastPatch, update, now) {
        return;
      }
      if apiFails {
        PatchLeads(c, start, steps, queue, update, lastPatch, now, false, now);
        steps := steps + [Patch(0, false, now)];
        return;
      }
      ghost var checked := now;
      now := clock.Read();
      PatchLeads(c, start, steps, queue, update, lastPatch, checked, true, now);
      steps := steps + [Patch(0, true, now)];
      lastPatch := lastPatch[update := now];
    }

    /** Takes the oldest update and handles it. */
    method Serve(ghost c: Cluster, ghost hand: Hand) returns (ghost steps: seq<Step>, ghost free: Hand)
      requires Fits(c) && Free(hand) && |queue| > 0
      requires NoMarker(c) && Named(c)
      modifies this, clock
      ensures Fits(c) && Free(free)
      ensures Total(false, c, queue) < Total(false, c, old(queue))
      ensures Leads(c, old(Model(hand)), steps, Model(free))
    {
      var update := queue[0];
      TotalSplitsHead(false, c, queue);
      queue := queue[1..];
      ghost var rest := queue;
      assert [update] + rest == old(queue);
      var apiFails: bool := *;
      ghost var found, kept, checked;
      found, kept, checked, steps, free := ProcessUpdate(update, apiFails, c, hand);
      FanOutIsLighter(false, c, update, found);
      EnqueuedTotal(false, c, rest, found, kept);
    }

    /**
     One worker serving the queue with nothing enqueued from outside: a run of the queue machine that
     empties the queue, and in which two patches of one workload are a debounce apart.
     */
    method Drain(ghost c: Cluster) returns (processed: nat, ghost states: seq<State>, ghost steps: seq<Step>)
      requires Fits(c) && Checked(c, Model(Idle))
      requires NoMarker(c) && Named(c)
      modifies this, clock
      ensures queue == [] && Checked(c, Model(Idle))
      ensures processed <= Total(false, c, old(queue))
      ensures IsRun(c, states, steps) && states[0] == old(Model(Idle)) && Spaced(c, states, steps)
      ensures exists free | Free(free) :: states[|steps|] == Model(free)
    {
      processed, steps := 0, [];
      ghost var free := Idle;
      while |queue| > 0
        invariant Fits(c) && Free(free) && Leads(c, old(Model(Idle)), steps, Model(free))
        invariant processed + Total(false, c, queue) <= Total(false, c, old(queue))
        decreases Total(false, c, queue)
      {
        ghost var mid, more := Model(free), steps;
        steps, free := Serve(c, free);
        LeadsOn(c, old(Model(Idle)), more, mid, steps, Model(free));
        steps := more + steps;
        processed := processed + 1;
      }
      states := LeadsIsRun(c, old(Model(Idle)), steps, Model(free));
      OneWorkerIsSpaced(c, states, steps);
    }
  }
}
