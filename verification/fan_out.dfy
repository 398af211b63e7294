/**
 The workload annotator's queue: cluster-wide updates fan out into namespace updates, those into
 workload updates, all through one bounded queue served by several workers. Each worker takes an
 update, lists what it stands for and enqueues that, or checks a workload and patches it; every check,
 send and patch is one step, and the steps of the workers interleave freely.
 */
module FanningOut {

  /** What is to be updated: a workload, a namespace (no kind or no name), or everything. */
  datatype Key = Key(namespace: string, kind: string, name: string)

  const SENTINEL := "\0cluster-wide"

  function NamespaceKey(ns: string): Key {
    Key(ns, "", "")
  }

  predicate Workload(k: Key) {
    k.namespace != SENTINEL && k.kind != "" && k.name != ""
  }

  // `listings` holds what listing the workloads of a namespace may return, cached or not.
  datatype Cluster = Cluster(
    namespaces: seq<string>, listings: map<string, seq<seq<Key>>>, capacity: nat, debounce: int)

  /** A listing that fails for every kind finds nothing. */
  predicate Lists(c: Cluster, ns: string, found: seq<Key>) {
    found == [] || (ns != "" && ns in c.listings && found in c.listings[ns])
  }

  /** What a worker may find to enqueue when it takes an update. */
  ghost predicate Resolves(c: Cluster, update: Key, found: seq<Key>) {
    if update.namespace == SENTINEL then found == [] || found == NamespaceKeys(c.namespaces)
    else if Workload(update) then found == []
    else Lists(c, update.namespace, found)
  }

  function NamespaceKeys(nss: seq<string>): seq<Key> {
    seq(|nss|, i requires 0 <= i < |nss| => NamespaceKey(nss[i]))
  }

  /** Adds to the queue what was not held back, as long as there is room; the rest is dropped. */
  function Enqueued(capacity: nat, queue: seq<Key>, found: seq<Key>, kept: seq<bool>): seq<Key>
    requires |kept| == |found|
  {
    if found == [] then queue
    else
      var last := |found| - 1;
      var q := Enqueued(capacity, queue, found[..last], kept[..last]);
      if kept[last] && |q| < capacity then q + [found[last]] else q
  }

  // ---------------------------------------------------------------- steps

  /** What a worker is doing: nothing, enqueuing what it listed, or patching a workload it checked. */
  datatype Hand =
    | Idle
    | Fanning(keys: seq<Key>, checking: bool)
    | Patching(key: Key)

  datatype State = State(queue: seq<Key>, hands: seq<Hand>, lastPatch: map<Key, int>, now: int)

  // Each step reads the clock once.
  datatype Step =
    | Take(worker: nat, found: seq<Key>, at: int)
    | Push(worker: nat, at: int)
    | Patch(worker: nat, ok: bool, at: int)

  predicate Free(h: Hand) {
    h.Idle? || (h.Fanning? && h.keys == [])
  }

  predicate Recent(c: Cluster, s: State, key: Key, at: int) {
    key in s.lastPatch && at - s.lastPatch[key] < c.debounce
  }

  ghost predicate Enabled(c: Cluster, s: State, step: Step) {
    && step.worker < |s.hands| && s.now <= step.at
    && match step
       case Take(w, found, _) => Free(s.hands[w]) && s.queue != [] && Resolves(c, s.queue[0], found)
       case Push(w, _) => s.hands[w].Fanning? && s.hands[w].keys != []
       case Patch(w, _, _) => s.hands[w].Patching?
  }

  /** What a worker does with the update it takes; a workload patched recently is left alone. */
  function Taken(c: Cluster, s: State, update: Key, found: seq<Key>, at: int): Hand {
    if !Workload(update) then Fanning(found, update.namespace != SENTINEL)
    else if Recent(c, s, update, at) then Idle
    else Patching(update)
  }

  ghost function Next(c: Cluster, s: State, step: Step): State
    requires Enabled(c, s, step)
  {
    match step
    case Take(w, found, at) =>
      s.(queue := s.queue[1..], hands := s.hands[w := Taken(c, s, s.queue[0], found, at)], now := at)
    case Push(w, at) =>
      var hand := s.hands[w];
      var held := hand.checking && Recent(c, s, hand.keys[0], at);
      s.(queue := if !held && |s.queue| < c.capacity then s.queue + [hand.keys[0]] else s.queue,
         hands := s.hands[w := Fanning(hand.keys[1..], hand.checking)], now := at)
    case Patch(w, ok, at) =>
      s.(lastPatch := if ok then s.lastPatch[s.hands[w].key := at] else s.lastPatch,
         hands := s.hands[w := Idle], now := at)
  }

  ghost predicate IsRun(c: Cluster, states: seq<State>, steps: seq<Step>) {
    && |states| == |steps| + 1
    && forall i | 0 <= i < |steps| :: Enabled(c, states[i], steps[i]) && states[i + 1] == Next(c, states[i], steps[i])
  }

  /** The steps, taken one after the other, go from s to t. */
  ghost predicate Leads(c: Cluster, s: State, steps: seq<Step>, t: State)
    decreases |steps|
  {
    if steps == [] then s == t
    else Enabled(c, s, steps[0]) && Leads(c, Next(c, s, steps[0]), steps[1..], t)
  }

  lemma {:induction false} LeadsOn(c: Cluster, s: State, first: seq<Step>, t: State, second: seq<Step>, u: State)
    requires Leads(c, s, first, t) && Leads(c, t, second, u)
    ensures Leads(c, s, first + second, u)
    decreases |first|
  {
    if first == [] {
      assert first + second == second;
    } else {
      LeadsOn(c, Next(c, s, first[0]), first[1..], t, second, u);
      assert (first + second)[1..] == first[1..] + second;
    }
  }

  lemma StepLeads(c: Cluster, s: State, steps: seq<Step>, t: State, step: Step)
    requires Leads(c, s, steps, t) && Enabled(c, t, step)
    ensures Leads(c, s, steps + [step], Next(c, t, step))
  {
    assert [step][1..] == [];
    assert Leads(c, Next(c, t, step), [step][1..], Next(c, t, step));
    LeadsOn(c, s, steps, t, [step], Next(c, t, step));
  }

  lemma {:induction false} LeadsIsRun(c: Cluster, s: State, steps: seq<Step>, t: State) returns (states: seq<State>)
    requires Leads(c, s, steps, t)
    ensures IsRun(c, states, steps) && states[0] == s && states[|steps|] == t
    decreases |steps|
  {
    if steps == [] {
      states := [s];
    } else {
      var rest := LeadsIsRun(c, Next(c, s, steps[0]), steps[1..], t);
      states := [s] + rest;
      forall i | 0 <= i < |steps|
        ensures Enabled(c, states[i], steps[i]) && states[i + 1] == Next(c, states[i], steps[i])
      {
        if i > 0 {
          assert states[i] == rest[i - 1] && steps[i] == steps[1..][i - 1];
        }
      }
    }
  }

  /** What a single worker's send does. */
  lemma OnePush(c: Cluster, s: State, steps: seq<Step>, queue: seq<Key>, keys: seq<Key>, checking: bool, patches: map<Key, int>, now: int, at: int)
    requires keys != [] && now <= at && Leads(c, s, steps, State(queue, [Fanning(keys, checking)], patches, now))
    ensures var held := checking && keys[0] in patches && at - patches[keys[0]] < c.debounce;
            Leads(c, s, steps + [Push(0, at)],
                  State(if !held && |queue| < c.capacity then queue + [keys[0]] else queue, [Fanning(keys[1..], checking)], patches, at))
  {
    var t := State(queue, [Fanning(keys, checking)], patches, now);
    StepLeads(c, s, steps, t, Push(0, at));
    assert t.hands[0 := Fanning(keys[1..], checking)] == [Fanning(keys[1..], checking)];
  }

  lemma TakeLeads(c: Cluster, update: Key, queue: seq<Key>, hand: Hand, patches: map<Key, int>, now: int, found: seq<Key>, at: int)
    requires Free(hand) && now <= at && Resolves(c, update, found)
    ensures var s := State([update] + queue, [hand], patches, now);
            Leads(c, s, [Take(0, found, at)], State(queue, [Taken(c, s, update, found, at)], patches, at))
  {
    var s := State([update] + queue, [hand], patches, now);
    StepLeads(c, s, [], s, Take(0, found, at));
    assert [] + [Take(0, found, at)] == [Take(0, found, at)] && s.queue[1..] == queue;
    assert s.hands[0 := Taken(c, s, update, found, at)] == [Taken(c, s, update, found, at)];
  }

  lemma PatchLeads(c: Cluster, s: State, steps: seq<Step>, queue: seq<Key>, key: Key, patches: map<Key, int>, now: int, ok: bool, at: int)
    requires now <= at && Leads(c, s, steps, State(queue, [Patching(key)], patches, now))
    ensures Leads(c, s, steps + [Patch(0, ok, at)], State(queue, [Idle], if ok then patches[key := at] else patches, at))
  {
    var t := State(queue, [Patching(key)], patches, now);
    StepLeads(c, s, steps, t, Patch(0, ok, at));
    assert t.hands[0 := Idle] == [Idle];
  }

  // ---------------------------------------------------------------- what an update can still cause

  function Longest(lists: seq<seq<Key>>): nat {
    if lists == [] then 0
    else
      var rest, last := Longest(lists[..|lists| - 1]), |lists[|lists| - 1]|;
      if last > rest then last else rest
  }

  lemma {:induction false} LongestBounds(lists: seq<seq<Key>>, list: seq<Key>)
    requires list in lists
    ensures |list| <= Longest(lists)
  {
    var last := |lists| - 1;
    if list != lists[last] {
      var i :| 0 <= i < |lists| && lists[i] == list;
      assert lists[..last][i] == list;
      LongestBounds(lists[..last], list);
    }
  }

  /** The most workloads a listing of the namespace returns. */
  function Limit(c: Cluster, ns: string): nat {
    if ns != "" && ns in c.listings then Longest(c.listings[ns]) else 0
  }

  // An update weighs the number of updates it can still cause, itself included; with `fees` each
  // enqueuing and each patch counts as well.
  function Fee(fees: bool, n: nat): nat {
    if fees then n else 0
  }

  function NamespaceWeight(fees: bool, c: Cluster, ns: string): nat {
    1 + Limit(c, ns) + Fee(fees, 2 * Limit(c, ns))
  }

  function ClusterLoad(fees: bool, c: Cluster, nss: seq<string>): nat {
    if nss == [] then 0
    else ClusterLoad(fees, c, nss[..|nss| - 1]) + NamespaceWeight(fees, c, nss[|nss| - 1]) + Fee(fees, 1)
  }

  function Weight(fees: bool, c: Cluster, k: Key): nat {
    if k.namespace == SENTINEL then 1 + ClusterLoad(fees, c, c.namespaces)
    else if Workload(k) then 1 + Fee(fees, 1)
    else NamespaceWeight(fees, c, k.namespace)
  }

  function Total(fees: bool, c: Cluster, keys: seq<Key>): nat {
    if keys == [] then 0 else Total(fees, c, keys[..|keys| - 1]) + Weight(fees, c, keys[|keys| - 1])
  }

  lemma {:induction false} TotalConcat(fees: bool, c: Cluster, a: seq<Key>, b: seq<Key>)
    ensures Total(fees, c, a + b) == Total(fees, c, a) + Total(fees, c, b)
  {
    if b == [] {
      assert a + b == a;
    } else {
      TotalConcat(fees, c, a, b[..|b| - 1]);
      assert (a + b)[..|a + b| - 1] == a + b[..|b| - 1];
    }
  }

  lemma TotalSplitsHead(fees: bool, c: Cluster, keys: seq<Key>)
    requires keys != []
    ensures Total(fees, c, keys) == Weight(fees, c, keys[0]) + Total(fees, c, keys[1..])
  {
    assert keys == [keys[0]] + keys[1..];
    assert [keys[0]][..0] == [];
    TotalConcat(fees, c, [keys[0]], keys[1..]);
  }

  /** No namespace is named like the marker. */
  ghost predicate NoMarker(c: Cluster) {
    SENTINEL !in c.namespaces
  }

  /** Every workload a listing may return has a kind and a name. */
  ghost predicate Named(c: Cluster) {
    forall ns, list, k | ns in c.listings && ns != "" && ns != SENTINEL && list in c.listings[ns] && k in list :: Workload(k)
  }

  /** A listing of a namespace returns workloads of that namespace. */
  ghost predicate Local(c: Cluster) {
    forall ns, list, k | ns in c.listings && list in c.listings[ns] && k in list :: k.namespace == ns
  }

  lemma {:induction false} WorkloadTotal(fees: bool, c: Cluster, keys: seq<Key>)
    requires forall k | k in keys :: Workload(k)
    ensures Total(fees, c, keys) == |keys| + Fee(fees, |keys|)
  {
    if keys != [] {
      assert keys[|keys| - 1] in keys;
      assert forall k | k in keys[..|keys| - 1] :: k in keys;
      WorkloadTotal(fees, c, keys[..|keys| - 1]);
    }
  }

  lemma {:induction false} NamespaceTotal(fees: bool, c: Cluster, nss: seq<string>)
    requires SENTINEL !in nss
    ensures Total(fees, c, NamespaceKeys(nss)) + Fee(fees, |nss|) == ClusterLoad(fees, c, nss)
  {
    if nss != [] {
      var last := |nss| - 1;
      assert nss[last] in nss;
      assert forall ns | ns in nss[..last] :: ns in nss;
      NamespaceTotal(fees, c, nss[..last]);
      assert NamespaceKeys(nss)[..last] == NamespaceKeys(nss[..last]);
    }
  }

  /** What an update fans out into weighs less than the update, even counting every enqueuing and patch. */
  lemma FanOutIsLighter(fees: bool, c: Cluster, update: Key, found: seq<Key>)
    requires NoMarker(c) && Named(c) && Resolves(c, update, found)
    ensures Total(fees, c, found) + Fee(fees, |found|) < Weight(fees, c, update)
  {
    if found == [] {
    } else if update.namespace == SENTINEL {
      NamespaceTotal(fees, c, c.namespaces);
    } else {
      LongestBounds(c.listings[update.namespace], found);
      WorkloadTotal(fees, c, found);
    }
  }

  lemma {:induction false} EnqueuedTotal(fees: bool, c: Cluster, queue: seq<Key>, found: seq<Key>, kept: seq<bool>)
    requires |kept| == |found|
    ensures Total(fees, c, Enqueued(c.capacity, queue, found, kept)) <= Total(fees, c, queue) + Total(fees, c, found)
    ensures |queue| <= c.capacity ==> |Enqueued(c.capacity, queue, found, kept)| <= c.capacity
  {
    if found != [] {
      var last := |found| - 1;
      EnqueuedTotal(fees, c, queue, found[..last], kept[..last]);
      var q := Enqueued(c.capacity, queue, found[..last], kept[..last]);
      assert (q + [found[last]])[..|q|] == q;
    }
  }

  // ---------------------------------------------------------------- runs end

  function HandWeight(fees: bool, c: Cluster, h: Hand): nat {
    match h
    case Idle => 0
    case Fanning(keys, _) => Total(fees, c, keys) + Fee(fees, |keys|)
    case Patching(_) => Fee(fees, 1)
  }

  function InHands(fees: bool, c: Cluster, hands: seq<Hand>): nat {
    if hands == [] then 0 else InHands(fees, c, hands[..|hands| - 1]) + HandWeight(fees, c, hands[|hands| - 1])
  }

  /** Updates still queued or in some worker's hands, weighted. */
  function Rank(fees: bool, c: Cluster, s: State): nat {
    Total(fees, c, s.queue) + InHands(fees, c, s.hands)
  }

  lemma {:induction false} InHandsUpdate(fees: bool, c: Cluster, hands: seq<Hand>, w: nat, h: Hand)
    requires w < |hands|
    ensures InHands(fees, c, hands[w := h]) + HandWeight(fees, c, hands[w]) == InHands(fees, c, hands) + HandWeight(fees, c, h)
  {
    var last := |hands| - 1;
    assert hands[w := h][..last] == if w == last then hands[..last] else hands[..last][w := h];
    if w < last {
      InHandsUpdate(fees, c, hands[..last], w, h);
    }
  }

  lemma TakeLowersRank(fees: bool, c: Cluster, s: State, w: nat, found: seq<Key>, at: int)
    requires NoMarker(c) && Named(c) && Enabled(c, s, Take(w, found, at))
    ensures Rank(fees, c, Next(c, s, Take(w, found, at))) < Rank(fees, c, s)
  {
    InHandsUpdate(fees, c, s.hands, w, Taken(c, s, s.queue[0], found, at));
    TotalSplitsHead(fees, c, s.queue);
    FanOutIsLighter(fees, c, s.queue[0], found);
  }

  lemma PushLowersRank(fees: bool, c: Cluster, s: State, w: nat, at: int)
    requires Enabled(c, s, Push(w, at))
    ensures Rank(fees, c, Next(c, s, Push(w, at))) + Fee(fees, 1) <= Rank(fees, c, s)
  {
    var keys := s.hands[w].keys;
    InHandsUpdate(fees, c, s.hands, w, Fanning(keys[1..], s.hands[w].checking));
    TotalSplitsHead(fees, c, keys);
    assert (s.queue + [keys[0]])[..|s.queue|] == s.queue;
  }

  /** Taking an update lowers the rank, and with the fees counted every step does. */
  lemma StepLowersRank(fees: bool, c: Cluster, s: State, step: Step)
    requires NoMarker(c) && Named(c) && Enabled(c, s, step)
    ensures Rank(fees, c, Next(c, s, step)) + (if step.Take? then 1 else Fee(fees, 1)) <= Rank(fees, c, s)
  {
    match step
    case Take(w, found, at) => TakeLowersRank(fees, c, s, w, found, at);
    case Push(w, at) => PushLowersRank(fees, c, s, w, at);
    case Patch(w, _, _) => InHandsUpdate(fees, c, s.hands, w, Idle);
  }

  function Takes(steps: seq<Step>): nat {
    if steps == [] then 0 else Takes(steps[..|steps| - 1]) + if steps[|steps| - 1].Take? then 1 else 0
  }

  /**
   From any state, with nothing enqueued from outside, the workers process at most as many updates
   as the queue weighs, and take a bounded number of steps in all, whatever the order of their steps.
   */
  lemma {:induction false} FanOutTerminates(c: Cluster, states: seq<State>, steps: seq<Step>, i: nat)
    requires NoMarker(c) && Named(c) && IsRun(c, states, steps) && i <= |steps|
    ensures Takes(steps[..i]) + Rank(false, c, states[i]) <= Rank(false, c, states[0])
    ensures i + Rank(true, c, states[i]) <= Rank(true, c, states[0])
  {
    if i > 0 {
      FanOutTerminates(c, states, steps, i - 1);
      assert steps[..i][..i - 1] == steps[..i - 1];
      StepLowersRank(false, c, states[i - 1], steps[i - 1]);
      StepLowersRank(true, c, states[i - 1], steps[i - 1]);
    }
  }

  /** A run that cannot go on has emptied the queue and every worker's hands. */
  lemma StuckMeansDrained(c: Cluster, s: State)
    requires |s.hands| > 0 && forall step :: !Enabled(c, s, step)
    ensures s.queue == [] && forall w | 0 <= w < |s.hands| :: Free(s.hands[w])
  {
    forall w | 0 <= w < |s.hands|
      ensures Free(s.hands[w])
    {
      assert !Enabled(c, s, Push(w, s.now));
      assert !Enabled(c, s, Patch(w, true, s.now));
    }
    assert !Enabled(c, s, Take(0, [], s.now));
  }

  /** The queue never outgrows its capacity. */
  lemma {:induction false} QueueIsBounded(c: Cluster, states: seq<State>, steps: seq<Step>, i: nat)
    requires IsRun(c, states, steps) && i < |states| && |states[0].queue| <= c.capacity
    ensures |states[i].queue| <= c.capacity
  {
    if i > 0 {
      QueueIsBounded(c, states, steps, i - 1);
    }
  }

  // ---------------------------------------------------------------- exactly when runs end

  /** An update that can find itself again. */
  ghost predicate Recurs(c: Cluster, b: Key, found: seq<Key>) {
    Resolves(c, b, found) && b in found && !Workload(b)
  }

  predicate Holds(h: Hand, b: Key) {
    h.Fanning? && b in h.keys
  }

  /** The update is still queued or about to be, and there is a second worker. */
  ghost predicate Alive(s: State, b: Key) {
    && |s.hands| >= 2 && b !in s.lastPatch
    && (b in s.queue || exists w | 0 <= w < |s.hands| :: Holds(s.hands[w], b))
  }

  /** Whatever another worker is doing, it can go on without disturbing the one that holds the update. */
  lemma OthersGoOn(c: Cluster, s: State, w: nat, b: Key) returns (step: Step)
    requires |s.hands| >= 2 && w < |s.hands| && Holds(s.hands[w], b) && s.queue != [] && b !in s.lastPatch
    ensures Enabled(c, s, step) && Alive(Next(c, s, step), b)
  {
    var v := if w == 0 then 1 else 0;
    if s.hands[v].Patching? {
      step := Patch(v, false, s.now);
    } else if Free(s.hands[v]) {
      step := Take(v, [], s.now);
    } else {
      step := Push(v, s.now);
    }
    assert Next(c, s, step).hands[w] == s.hands[w];
  }

  lemma HolderGoesOn(c: Cluster, s: State, w: nat, b: Key) returns (step: Step)
    requires c.capacity > 0 && |s.hands| >= 2 && w < |s.hands| && Holds(s.hands[w], b) && b !in s.lastPatch
    ensures Enabled(c, s, step) && Alive(Next(c, s, step), b)
  {
    var keys := s.hands[w].keys;
    if keys[0] == b && |s.queue| >= c.capacity {
      step := OthersGoOn(c, s, w, b);
    } else {
      step := Push(w, s.now);
      var t := Next(c, s, step);
      if keys[0] == b {
        assert t.queue[|s.queue|] == b;
      } else {
        assert keys == [keys[0]] + keys[1..];
        assert Holds(t.hands[w], b);
      }
    }
  }

  lemma QueuedGoesOn(c: Cluster, s: State, b: Key, found: seq<Key>) returns (step: Step)
    requires |s.hands| >= 2 && b in s.queue && b !in s.lastPatch && Recurs(c, b, found)
    ensures Enabled(c, s, step) && Alive(Next(c, s, step), b)
  {
    if w :| 0 <= w < |s.hands| && !Free(s.hands[w]) {
      step := if s.hands[w].Patching? then Patch(w, false, s.now) else Push(w, s.now);
      assert forall k | k in s.queue :: k in Next(c, s, step).queue;
    } else {
      assert Free(s.hands[0]);
      if s.queue[0] == b {
        step := Take(0, found, s.now);
        assert Holds(Next(c, s, step).hands[0], b);
      } else {
        step := Take(0, [], s.now);
        assert s.queue == [s.queue[0]] + s.queue[1..];
      }
    }
  }

  /** Two workers can keep such an update going for ever. */
  lemma {:induction false} RunsGoOn(c: Cluster, s: State, b: Key, found: seq<Key>, n: nat)
      returns (states: seq<State>, steps: seq<Step>)
    requires c.capacity > 0 && Alive(s, b) && Recurs(c, b, found)
    ensures IsRun(c, states, steps) && states[0] == s && |steps| == n && Alive(states[n], b)
  {
    if n == 0 {
      states, steps := [s], [];
    } else {
      var before, early := RunsGoOn(c, s, b, found, n - 1);
      var t := before[n - 1];
      var step;
      if w :| 0 <= w < |t.hands| && Holds(t.hands[w], b) {
        step := HolderGoesOn(c, t, w, b);
      } else {
        step := QueuedGoesOn(c, t, b, found);
      }
      states, steps := before + [Next(c, t, step)], early + [step];
    }
  }

  /** A listed workload without a name stands for its namespace, so it is found again. */
  lemma NamelessRecurs(c: Cluster, ns: string, list: seq<Key>, k: Key)
    requires Local(c) && ns in c.listings && ns != "" && ns != SENTINEL && list in c.listings[ns] && k in list && !Workload(k)
    ensures Recurs(c, k, list)
  {
    assert k.namespace == ns;
  }

  /** A namespace named like the marker stands for the whole cluster. */
  lemma MarkerRecurs(c: Cluster)
    requires SENTINEL in c.namespaces
    ensures Recurs(c, NamespaceKey(SENTINEL), NamespaceKeys(c.namespaces))
  {
    var i :| 0 <= i < |c.namespaces| && c.namespaces[i] == SENTINEL;
    assert NamespaceKeys(c.namespaces)[i] == NamespaceKey(SENTINEL);
  }

  ghost predicate EndsWithin(c: Cluster, s: State, bound: nat) {
    forall states, steps | IsRun(c, states, steps) && states[0] == s :: |steps| <= bound
  }

  /** All runs from the state are bounded. */
  ghost predicate Ends(c: Cluster, s: State) {
    exists bound: nat :: EndsWithin(c, s, bound)
  }

  lemma RecurringNeverEnds(c: Cluster, b: Key, found: seq<Key>)
    requires c.capacity > 0 && Recurs(c, b, found)
    ensures !Ends(c, State([b], [Idle, Idle], map[], 0))
  {
    var s := State([b], [Idle, Idle], map[], 0);
    assert Alive(s, b);
    forall bound: nat
      ensures !EndsWithin(c, s, bound)
    {
      var states, steps := RunsGoOn(c, s, b, found, bound + 1);
    }
  }

  lemma EndsWithinRank(c: Cluster, s: State)
    requires NoMarker(c) && Named(c)
    ensures EndsWithin(c, s, Rank(true, c, s))
  {
    forall states, steps | IsRun(c, states, steps) && states[0] == s
      ensures |steps| <= Rank(true, c, s)
    {
      FanOutTerminates(c, states, steps, |steps|);
    }
  }

  /** Runs are bounded from every state exactly if no namespace is the marker and no listing has a nameless workload. */
  lemma FanOutTerminatesIff(c: Cluster)
    requires c.capacity > 0 && Local(c)
    ensures (forall s :: Ends(c, s)) <==> NoMarker(c) && Named(c)
  {
    if NoMarker(c) && Named(c) {
      forall s
        ensures Ends(c, s)
      {
        EndsWithinRank(c, s);
      }
    } else if !NoMarker(c) {
      MarkerRecurs(c);
      RecurringNeverEnds(c, NamespaceKey(SENTINEL), NamespaceKeys(c.namespaces));
    } else {
      var ns, list, k :| ns in c.listings && ns != "" && ns != SENTINEL && list in c.listings[ns] && k in list && !Workload(k);
      NamelessRecurs(c, ns, list, k);
      RecurringNeverEnds(c, k, list);
    }
  }

  // ---------------------------------------------------------------- how far apart patches are

  /** A worker that takes a workload goes on to patch it exactly if it was not patched less than a debounce ago. */
  lemma TakenIsPatchedIff(c: Cluster, s: State, w: nat, at: int)
    requires Enabled(c, s, Take(w, [], at)) && Workload(s.queue[0])
    ensures Next(c, s, Take(w, [], at)).hands[w] == Patching(s.queue[0]) <==>
            !(s.queue[0] in s.lastPatch && at - s.lastPatch[s.queue[0]] < c.debounce)
  {
  }

  /** A listed workload is queued exactly if there is room and it was not patched less than a debounce ago. */
  lemma ListedIsQueuedIff(c: Cluster, s: State, w: nat, at: int)
    requires Enabled(c, s, Push(w, at)) && s.hands[w].checking
    ensures var key := s.hands[w].keys[0];
            Next(c, s, Push(w, at)).queue ==
            if |s.queue| < c.capacity && !(key in s.lastPatch && at - s.lastPatch[key] < c.debounce) then s.queue + [key] else s.queue
  {
  }

  /** The step patches the workload. */
  predicate Patches(s: State, step: Step, key: Key) {
    step.Patch? && step.ok && step.worker < |s.hands| && s.hands[step.worker] == Patching(key)
  }

  /** Two patches of one workload are a debounce apart. */
  ghost predicate Spaced(c: Cluster, states: seq<State>, steps: seq<Step>)
    requires |states| == |steps| + 1
  {
    forall i, j, key | 0 <= i < j < |steps| && Patches(states[i], steps[i], key) && Patches(states[j], steps[j], key) ::
      steps[j].at - steps[i].at >= c.debounce
  }

  /** Two workers are about to patch the same workload. */
  ghost predicate Shared(s: State) {
    exists v, w | 0 <= v < w < |s.hands| :: s.hands[v].Patching? && s.hands[v] == s.hands[w]
  }

  /** What a worker is about to patch was not patched recently, and no patch is in the future. */
  ghost predicate Checked(c: Cluster, s: State) {
    && (forall w | 0 <= w < |s.hands| && s.hands[w].Patching? :: !Recent(c, s, s.hands[w].key, s.now))
    && forall key | key in s.lastPatch :: s.lastPatch[key] <= s.now
  }

  lemma StepKeepsChecked(c: Cluster, s: State, step: Step)
    requires Checked(c, s) && !Shared(s) && Enabled(c, s, step)
    ensures Checked(c, Next(c, s, step))
  {
  }

  lemma {:induction false} AlwaysChecked(c: Cluster, states: seq<State>, steps: seq<Step>, i: nat)
    requires IsRun(c, states, steps) && i < |states| && Checked(c, states[0])
    requires forall j | 0 <= j < i :: !Shared(states[j])
    ensures Checked(c, states[i])
  {
    if i > 0 {
      AlwaysChecked(c, states, steps, i - 1);
      StepKeepsChecked(c, states[i - 1], steps[i - 1]);
    }
  }

  /** A patch stays on record, or a later one does. */
  lemma {:induction false} PatchStays(c: Cluster, states: seq<State>, steps: seq<Step>, i: nat, j: nat, key: Key)
    requires IsRun(c, states, steps) && i < j < |states| && Patches(states[i], steps[i], key)
    ensures key in states[j].lastPatch && steps[i].at <= states[j].lastPatch[key] && steps[i].at <= states[j].now
  {
    if j > i + 1 {
      PatchStays(c, states, steps, i, j - 1, key);
    }
  }

  /** As long as no two workers hold the same workload, its patches are a debounce apart. */
  lemma UnsharedIsSpaced(c: Cluster, states: seq<State>, steps: seq<Step>)
    requires IsRun(c, states, steps) && Checked(c, states[0])
    requires forall j | 0 <= j < |states| :: !Shared(states[j])
    ensures Spaced(c, states, steps)
  {
    forall i, j, key | 0 <= i < j < |steps| && Patches(states[i], steps[i], key) && Patches(states[j], steps[j], key)
      ensures steps[j].at - steps[i].at >= c.debounce
    {
      AlwaysChecked(c, states, steps, j);
      PatchStays(c, states, steps, i, j, key);
      assert !Recent(c, states[j], key, states[j].now);
    }
  }

  /** Once two workers hold the same workload, both can patch it at the same moment. */
  lemma SharedBreaksSpacing(c: Cluster, states: seq<State>, steps: seq<Step>, i: nat)
      returns (longer: seq<State>, more: seq<Step>)
    requires c.debounce > 0 && IsRun(c, states, steps) && i < |states| && Shared(states[i])
    ensures IsRun(c, longer, more) && longer[0] == states[0] && !Spaced(c, longer, more)
  {
    var s := states[i];
    var v, w :| 0 <= v < w < |s.hands| && s.hands[v].Patching? && s.hands[v] == s.hands[w];
    var first, second := Patch(v, true, s.now), Patch(w, true, s.now);
    var t := Next(c, s, first);
    assert t.hands[w] == s.hands[w];
    longer := states[..i + 1] + [t, Next(c, t, second)];
    more := steps[..i] + [first, second];
    assert longer[i] == s && longer[i + 1] == t && more[i] == first && more[i + 1] == second;
    assert Patches(longer[i], more[i], s.hands[v].key) && Patches(longer[i + 1], more[i + 1], s.hands[v].key);
    forall j | 0 <= j < |more|
      ensures Enabled(c, longer[j], more[j]) && longer[j + 1] == Next(c, longer[j], more[j])
    {
      if j < i {
        assert longer[j] == states[j] && longer[j + 1] == states[j + 1] && more[j] == steps[j];
      }
    }
  }

  ghost predicate AllSpaced(c: Cluster, s: State) {
    forall states, steps | IsRun(c, states, steps) && states[0] == s :: Spaced(c, states, steps)
  }

  ghost predicate NeverShared(c: Cluster, s: State) {
    forall states, steps, i | IsRun(c, states, steps) && states[0] == s && 0 <= i < |states| :: !Shared(states[i])
  }

  /** Patches are a debounce apart in every run exactly if no run lets two workers hold the same workload. */
  lemma SpacedIffNeverShared(c: Cluster, s: State)
    requires c.debounce > 0 && Checked(c, s)
    ensures AllSpaced(c, s) <==> NeverShared(c, s)
  {
    if NeverShared(c, s) {
      forall states, steps | IsRun(c, states, steps) && states[0] == s
        ensures Spaced(c, states, steps)
      {
        UnsharedIsSpaced(c, states, steps);
      }
    } else {
      var states, steps, i :| IsRun(c, states, steps) && states[0] == s && 0 <= i < |states| && Shared(states[i]);
      var longer, more := SharedBreaksSpacing(c, states, steps, i);
    }
  }

  /** All workers idle, with any queue and any record of patches. */
  ghost predicate Starts(c: Cluster, s: State, workers: nat) {
    |s.hands| == workers && Checked(c, s) && forall w | 0 <= w < |s.hands| :: s.hands[w].Idle?
  }

  lemma {:induction false} WorkersStay(c: Cluster, states: seq<State>, steps: seq<Step>, i: nat)
    requires IsRun(c, states, steps) && i < |states|
    ensures |states[i].hands| == |states[0].hands|
  {
    if i > 0 {
      WorkersStay(c, states, steps, i - 1);
    }
  }

  lemma OneWorkerSharesNothing(c: Cluster, states: seq<State>, steps: seq<Step>)
    requires IsRun(c, states, steps) && |states[0].hands| == 1
    ensures forall i | 0 <= i < |states| :: !Shared(states[i])
  {
    forall i | 0 <= i < |states|
      ensures !Shared(states[i])
    {
      WorkersStay(c, states, steps, i);
    }
  }

  /** A single worker's patches are a debounce apart. */
  lemma OneWorkerIsSpaced(c: Cluster, states: seq<State>, steps: seq<Step>)
    requires IsRun(c, states, steps) && |states[0].hands| == 1 && Checked(c, states[0])
    ensures Spaced(c, states, steps) && Checked(c, states[|steps|])
  {
    OneWorkerSharesNothing(c, states, steps);
    UnsharedIsSpaced(c, states, steps);
    AlwaysChecked(c, states, steps, |steps|);
  }

  /** Two updates of one workload in the queue reach two workers. */
  lemma TwoWorkersShare(c: Cluster, s: State, k: Key) returns (states: seq<State>, steps: seq<Step>)
    requires Workload(k) && s.queue == [k, k] && |s.hands| >= 2 && s.hands[0].Idle? && s.hands[1].Idle? && k !in s.lastPatch
    ensures IsRun(c, states, steps) && states[0] == s && |steps| == 2 && Shared(states[2])
  {
    var t := Next(c, s, Take(0, [], s.now));
    assert t.hands[1] == s.hands[1] && t.queue == [k];
    var u := Next(c, t, Take(1, [], s.now));
    assert u.hands[0] == Patching(k) == u.hands[1];
    states, steps := [s, t, u], [Take(0, [], s.now), Take(1, [], s.now)];
  }

  /** Whatever the queue, the debounce holds between patches exactly if there is at most one worker. */
  lemma PatchesAreSpacedIff(c: Cluster, workers: nat)
    requires c.debounce > 0
    ensures (forall s | Starts(c, s, workers) :: AllSpaced(c, s)) <==> workers < 2
  {
    if workers < 2 {
      forall s | Starts(c, s, workers)
        ensures AllSpaced(c, s)
      {
        forall states, steps, i | IsRun(c, states, steps) && states[0] == s && 0 <= i < |states|
          ensures !Shared(states[i])
        {
          WorkersStay(c, states, steps, i);
        }
        SpacedIffNeverShared(c, s);
      }
    } else {
      var k := Key("n", "Deployment", "d");
      var s := State([k, k], seq(workers, _ => Idle), map[], 0);
      var states, steps := TwoWorkersShare(c, s, k);
      SpacedIffNeverShared(c, s);
      assert Starts(c, s, workers) && !AllSpaced(c, s);
    }
  }

  // ---------------------------------------------------------------- which updates an index event queues

  function FirstOccurrences(nss: seq<string>): seq<string> {
    if nss == [] then []
    else
      var rest := FirstOccurrences(nss[..|nss| - 1]);
      if nss[|nss| - 1] in rest then rest else rest + [nss[|nss| - 1]]
  }

  /** The namespaces an event queues, in order; the marker stands for all of them. */
  function FanOut(affected: seq<string>, namespace: string): seq<string> {
    var listed := FirstOccurrences(affected);
    if namespace != "" && namespace !in listed then listed + [namespace]
    else if namespace == "" && listed == [] then [SENTINEL]
    else listed
  }

  lemma {:induction false} FirstOccurrencesOnce(nss: seq<string>)
    ensures forall ns :: ns in FirstOccurrences(nss) <==> ns in nss
    ensures forall i, j | 0 <= i < j < |FirstOccurrences(nss)| :: FirstOccurrences(nss)[i] != FirstOccurrences(nss)[j]
  {
    if nss != [] {
      FirstOccurrencesOnce(nss[..|nss| - 1]);
      assert forall ns :: ns in nss <==> ns in nss[..|nss| - 1] || ns == nss[|nss| - 1];
    }
  }

  /** Each affected namespace is queued once, and everything only for an event that names no namespace at all. */
  lemma FanOutIsExact(affected: seq<string>, namespace: string)
    requires SENTINEL !in affected && namespace != SENTINEL
    ensures forall ns | ns != SENTINEL :: ns in FanOut(affected, namespace) <==> ns in affected || ns == namespace != ""
    ensures SENTINEL in FanOut(affected, namespace) <==> affected == [] && namespace == ""
    ensures forall i, j | 0 <= i < j < |FanOut(affected, namespace)| ::
              FanOut(affected, namespace)[i] != FanOut(affected, namespace)[j]
  {
    FirstOccurrencesOnce(affected);
    if affected != [] {
      assert affected[0] in FirstOccurrences(affected);
    }
  }
}
