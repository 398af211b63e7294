/**
 From a Warning event to a created Kubernetes Event: the correlator matches events with constraints
 and fills a bounded channel, the dispatcher limits, filters and creates.
 */
module Notifying {
  import opened Kube
  import opened Clocks
  import opened Decimal
  import opened Indexing
  import opened Deduping
  import RateLimiting

  const CORRELATOR_WINDOW := 300_000_000_000
  const CHANNEL_SIZE := 1000

  datatype WarningEvent = WarningEvent(uid: string, namespace: string, name: string, kind: string)

  datatype Notification = Notification(event: WarningEvent, constraint: Constraint)

  /** What the correlator considers the same notification. */
  function PairKey(e: WarningEvent, c: Constraint): (string, string) {
    (e.uid, c.uid)
  }

  /** What the dispatcher considers the same notification. */
  function WorkloadKey(n: Notification): (string, string) {
    (n.constraint.uid, n.event.namespace + "/" + n.event.name)
  }

  /** Namespaces have no slash, so different workloads are never taken for one. */
  lemma WorkloadKeyInjective(m: Notification, n: Notification)
    requires '/' !in m.event.namespace && '/' !in n.event.namespace && WorkloadKey(m) == WorkloadKey(n)
    ensures m.constraint.uid == n.constraint.uid && m.event.namespace == n.event.namespace && m.event.name == n.event.name
  {
    SplitsAtFirst(m.event.namespace, m.event.name, n.event.namespace, n.event.name, '/');
  }

  /** Deliveries, each with the position of the accepted check that allowed it. */
  ghost predicate Backed(accepted: seq<Accept<(string, string)>>, keys: seq<(string, string)>, at: seq<nat>) {
    && |keys| == |at| && Picks(accepted, at)
    && forall i | 0 <= i < |at| :: accepted[at[i]].key == keys[i]
  }

  lemma BackedGrows(accepted: seq<Accept<(string, string)>>, keys: seq<(string, string)>, at: seq<nat>,
                    more: Accept<(string, string)>)
    requires Backed(accepted, keys, at)
    ensures Backed(accepted + [more], keys, at)
    ensures Backed(accepted + [more], keys + [more.key], at + [|accepted|])
  {
  }

  /** A query answers with different UIDs. */
  lemma AnswersAreDistinct(index: Index, ns: string, list: seq<Constraint>)
    requires Keyed(index) && multiset(list) == multiset(ByNamespace(index, ns))
    ensures DistinctUids(list)
  {
    forall i, j | 0 <= i < j < |list|
      ensures list[i].uid != list[j].uid
    {
      assert list == list[..j] + list[j..];
      assert list[i] in list[..j] && list[j] in list[j..];
      assert list[i] in multiset(list) && list[j] in multiset(list);
      assert multiset(list)[list[i]] <= 1;
      assert list[i] != list[j];
    }
  }

  ghost function PairKeys(sent: seq<Notification>): seq<(string, string)> {
    seq(|sent|, i requires 0 <= i < |sent| => PairKey(sent[i].event, sent[i].constraint))
  }

  ghost function WorkloadKeys(created: seq<Notification>): seq<(string, string)> {
    seq(|created|, i requires 0 <= i < |created| => WorkloadKey(created[i]))
  }

  ghost predicate DistinctUids(list: seq<Constraint>) {
    forall i, j | 0 <= i < j < |list| :: list[i].uid != list[j].uid
  }

  // When a pair was checked, and when it was marked if it was.
  datatype Times = Times(checked: int, marked: int)

  ghost predicate Within(times: seq<Times>, from: int, to: int) {
    forall i | 0 <= i < |times| :: from <= times[i].checked <= times[i].marked <= to
  }

  /** The marks after offering an event with each constraint of a list in turn. */
  ghost function Marks(event: WarningEvent, list: seq<Constraint>, times: seq<Times>, seen: map<(string, string), int>)
    : map<(string, string), int>
    requires |times| == |list|
  {
    if list == [] then seen
    else
      var last := |list| - 1;
      Step(CORRELATOR_WINDOW, Marks(event, list[..last], times[..last], seen),
           Mark(PairKey(event, list[last]), times[last].checked, times[last].marked), true)
  }

  /** What is sent meanwhile on a channel with room for `room` more. */
  ghost function Sent(event: WarningEvent, list: seq<Constraint>, times: seq<Times>, seen: map<(string, string), int>, room: nat)
    : seq<Notification>
    requires |times| == |list|
  {
    if list == [] then []
    else
      var last := |list| - 1;
      var before := Sent(event, list[..last], times[..last], seen, room);
      var ok := Fresh(CORRELATOR_WINDOW, Marks(event, list[..last], times[..last], seen), PairKey(event, list[last]), times[last].checked);
      if ok && |before| < room then before + [Notification(event, list[last])] else before
  }

  /** What offering one more constraint sends. */
  ghost function SentNext(event: WarningEvent, c: Constraint, checked: int, marks: map<(string, string), int>, room: bool): seq<Notification> {
    if Fresh(CORRELATOR_WINDOW, marks, PairKey(event, c), checked) && room then [Notification(event, c)] else []
  }

  lemma OneMoreOffered(event: WarningEvent, list: seq<Constraint>, times: seq<Times>, t: Times, seen: map<(string, string), int>,
                       room: nat, more: seq<Notification>, one: seq<Notification>)
    requires |times| < |list| && more == Sent(event, list[..|times|], times, seen, room)
    requires one == SentNext(event, list[|times|], t.checked, Marks(event, list[..|times|], times, seen), |more| < room)
    ensures Marks(event, list[..|times| + 1], times + [t], seen) ==
            Step(CORRELATOR_WINDOW, Marks(event, list[..|times|], times, seen), Mark(PairKey(event, list[|times|]), t.checked, t.marked), true)
    ensures Sent(event, list[..|times| + 1], times + [t], seen, room) == more + one
  {
    var i := |times|;
    assert list[..i + 1][..i] == list[..i] && (times + [t])[..i] == times;
  }

  /** When both the channel and the record of what was sent have grown as much, they have grown alike. */
  lemma SuffixGrows(was: seq<Notification>, now: seq<Notification>, sent: seq<Notification>, more: seq<Notification>)
    requires |was| <= |sent| && was == sent[|sent| - |was|..]
    requires |now| == |was| + |more| && now == (sent + more)[|sent| - |was|..]
    ensures now == was + more
  {
  }

  lemma {:induction false} MarksElsewhere(event: WarningEvent, list: seq<Constraint>, times: seq<Times>,
                                          seen: map<(string, string), int>, key: (string, string))
    requires |times| == |list| && forall c | c in list :: PairKey(event, c) != key
    ensures key in Marks(event, list, times, seen) <==> key in seen
    ensures key in seen ==> Marks(event, list, times, seen)[key] == seen[key]
  {
    if list != [] {
      var last := |list| - 1;
      assert list[last] in list;
      assert forall c | c in list[..last] :: c in list;
      MarksElsewhere(event, list[..last], times[..last], seen, key);
    }
  }

  /** Each pair is judged by the mark it had before the event. */
  ghost predicate Judged(event: WarningEvent, list: seq<Constraint>, times: seq<Times>, seen: map<(string, string), int>, k: nat)
    requires |times| == |list| && k < |list|
  {
    var key := (event.uid, list[k].uid);
    key !in seen || times[k].checked - seen[key] >= 300_000_000_000
  }

  lemma LastIsJudged(event: WarningEvent, list: seq<Constraint>, times: seq<Times>, seen: map<(string, string), int>)
    requires |times| == |list| > 0 && DistinctUids(list)
    ensures var last := |list| - 1;
            Judged(event, list, times, seen, last) ==
            Fresh(CORRELATOR_WINDOW, Marks(event, list[..last], times[..last], seen), PairKey(event, list[last]), times[last].checked)
  {
    var last := |list| - 1;
    MarksElsewhere(event, list[..last], times[..last], seen, PairKey(event, list[last]));
  }

  /** Exactly the pairs not marked within the window are sent, as long as there is room. */
  lemma {:induction false} SentIsExact(event: WarningEvent, list: seq<Constraint>, times: seq<Times>,
                                       seen: map<(string, string), int>, room: nat)
    requires |times| == |list| && DistinctUids(list)
    ensures var more := Sent(event, list, times, seen, room);
            && |more| <= room
            && (forall n | n in more :: exists k | 0 <= k < |list| :: n == Notification(event, list[k]) && Judged(event, list, times, seen, k))
            && forall k | 0 <= k < |list| && Judged(event, list, times, seen, k) :: |more| == room || Notification(event, list[k]) in more
  {
    if list != [] {
      var last := |list| - 1;
      var front, early := list[..last], times[..last];
      SentIsExact(event, front, early, seen, room);
      LastIsJudged(event, list, times, seen);
      forall k | 0 <= k < last
        ensures front[k] == list[k] && Judged(event, front, early, seen, k) == Judged(event, list, times, seen, k)
      {
      }
    }
  }

  /** Exactly those pairs get a new mark; the others keep the mark that refused them. */
  lemma {:induction false} MarksAreExact(event: WarningEvent, list: seq<Constraint>, times: seq<Times>, seen: map<(string, string), int>, k: nat)
    requires |times| == |list| && DistinctUids(list) && k < |list|
    ensures var key, marks := (event.uid, list[k].uid), Marks(event, list, times, seen);
            key in marks && marks[key] == if Judged(event, list, times, seen, k) then times[k].marked else seen[key]
  {
    var last := |list| - 1;
    LastIsJudged(event, list, times, seen);
    if k < last {
      MarksAreExact(event, list[..last], times[..last], seen, k);
    } else {
      MarksElsewhere(event, list[..last], times[..last], seen, PairKey(event, list[k]));
    }
  }

  class Correlator {
    const idx: Indexer
    const cache: DedupeCache<(string, string)>
    var notifications: seq<Notification>
    // Everything ever sent on the channel, and the position of the accepted check behind it.
    ghost var sent: seq<Notification>
    ghost var sentAt: seq<nat>

    /** The channel holds the end of what was sent, and each thing sent was accepted by the filter. */
    ghost predicate Valid()
      reads this, idx, cache, cache.clock
    {
      && idx.Valid() && cache.Valid() && cache.window == CORRELATOR_WINDOW
      && |notifications| <= CHANNEL_SIZE
      && |notifications| <= |sent| && notifications == sent[|sent| - |notifications|..]
      && Backed(cache.accepted, PairKeys(sent), sentAt)
    }

    constructor (idx: Indexer, clock: Clock)
      requires idx.Valid()
      ensures Valid() && this.idx == idx && cache.clock == clock && notifications == [] && sent == []
      ensures fresh(cache)
    {
      this.idx := idx;
      cache := new DedupeCache(CORRELATOR_WINDOW, clock);
      notifications, sent, sentAt := [], [], [];
    }

    /**
     Pairs an event with every constraint of its namespace, in some order. A pair marked within the
     window when it is checked is not sent; every other one is marked, and sent unless the channel is full.
     */
    method HandleEvent(event: WarningEvent, withinRate: bool)
        returns (ghost list: seq<Constraint>, ghost times: seq<Times>, ghost more: seq<Notification>)
      requires Valid()
      modifies this, cache, cache.clock
      ensures Valid() && notifications == old(notifications) + more && sent == old(sent) + more
      ensures multiset(list) == multiset(if withinRate && event.namespace != "" then ByNamespace(idx.byUID, event.namespace) else {})
      ensures |times| == |list| && DistinctUids(list) && Within(times, old(cache.clock.now), cache.clock.now)
      ensures cache.seen == Marks(event, list, times, old(cache.seen))
      ensures more == Sent(event, list, times, old(cache.seen), 1000 - |old(notifications)|)
    {
      list, times, more := [], [], [];
      if !withinRate || event.namespace == "" {
        return;
      }
      var constraints := idx.QueryNamespace(event.namespace);
      AnswersAreDistinct(idx.byUID, event.namespace, constraints);
      list := constraints;
      times, more := OfferAll(event, constraints);
    }

    /** The loop over the constraints of the namespace. */
    method OfferAll(event: WarningEvent, list: seq<Constraint>) returns (ghost times: seq<Times>, ghost more: seq<Notification>)
      requires Valid()
      modifies this, cache, cache.clock
      ensures Valid() && notifications == old(notifications) + more && sent == old(sent) + more
      ensures |times| == |list| && Within(times, old(cache.clock.now), cache.clock.now)
      ensures cache.seen == Marks(event, list, times, old(cache.seen))
      ensures more == Sent(event, list, times, old(cache.seen), CHANNEL_SIZE - |old(notifications)|)
    {
      times, more := [], [];
      ghost var seen, start, room := cache.seen, cache.clock.now, CHANNEL_SIZE - |notifications|;
      for i := 0 to |list|
        invariant Valid() && sent == old(sent) + more && |notifications| == CHANNEL_SIZE - room + |more|
        invariant |times| == i && Within(times, start, cache.clock.now) && start <= cache.clock.now
        invariant cache.seen == Marks(event, list[..i], times, seen)
        invariant more == Sent(event, list[..i], times, seen, room)
      {
        var checked, one := Offer(event, list[i]);
        ghost var t := Times(checked, cache.clock.now);
        OneMoreOffered(event, list, times, t, seen, room, more, one);
        times, more := times + [t], more + one;
      }
      SuffixGrows(old(notifications), notifications, old(sent), more);
      assert list[..|list|] == list;
    }

    /** One iteration: check-and-mark, then send without blocking; `one` is what was sent. */
    method Offer(event: WarningEvent, c: Constraint) returns (ghost checked: int, ghost one: seq<Notification>)
      requires Valid()
      modifies this, cache, cache.clock
      ensures Valid() && old(cache.clock.now) <= checked <= cache.clock.now
      ensures notifications == old(notifications) + one && sent == old(sent) + one
      ensures cache.seen == Step(CORRELATOR_WINDOW, old(cache.seen), Mark(PairKey(event, c), checked, cache.clock.now), true)
      ensures one == SentNext(event, c, checked, old(cache.seen), |old(notifications)| < CHANNEL_SIZE)
    {
      ghost var before := cache.accepted;
      var ok;
      ok, checked := cache.TryMarkSeen(PairKey(event, c));
      one := [];
      if ok {
        BackedGrows(before, PairKeys(sent), sentAt, cache.accepted[|before|]);
        if |notifications| < CHANNEL_SIZE {
          one := [Notification(event, c)];
          notifications := notifications + [Notification(event, c)];
          assert PairKeys(sent + one) == PairKeys(sent) + [PairKey(event, c)];
          sent, sentAt := sent + one, sentAt + [|before|];
        }
      }
    }

    /** The consumer takes the oldest notification. */
    method Receive() returns (n: Option<Notification>)
      requires Valid()
      modifies this`notifications
      ensures Valid()
      ensures old(notifications) == [] ==> n == None && notifications == []
      ensures old(notifications) != [] ==> n == Some(old(notifications)[0]) && notifications == old(notifications)[1..]
    {
      if notifications == [] {
        return None;
      }
      n := Some(notifications[0]);
      notifications := notifications[1..];
    }
  }

  class Dispatcher {
    const limiter: RateLimiting.NsRateLimiter
    const cache: DedupeCache<(string, string)>
    var created: seq<Notification>
    // The position of the accepted check behind every created Event.
    ghost var createdAt: seq<nat>

    ghost predicate Valid()
      reads this, limiter, cache, cache.clock
    {
      cache.Valid() && Backed(cache.accepted, WorkloadKeys(created), createdAt)
    }

    constructor (suppressMinutes: int, perMinute: nat, clock: Clock)
      ensures Valid() && cache.window == suppressMinutes * 60_000_000_000 && limiter.perMinute == perMinute
      ensures cache.clock == clock && created == [] && fresh(cache) && fresh(limiter)
    {
      limiter := new RateLimiting.NsRateLimiter(perMinute);
      cache := new DedupeCache(suppressMinutes * 60_000_000_000, clock);
      created, createdAt := [], [];
    }

    /**
     Creates an Event exactly if the namespace is within its limit, the pair was not marked within the
     window before `checked`, and the call succeeds.
     */
    method Dispatch(n: Notification, apiFails: bool) returns (ghost accessed: int, ghost at: int, ghost checked: int)
      requires Valid()
      modifies this, limiter, cache, cache.clock
      ensures Valid()
      ensures old(cache.clock.now) <= accessed <= at <= checked <= cache.clock.now
      ensures var call := RateLimiting.Allow(n.event.namespace, accessed, at);
              var allowed := RateLimiting.Answer(limiter.perMinute, old(limiter.Model()), call);
              var key := (n.constraint.uid, n.event.namespace + "/" + n.event.name);
              var ok := allowed && (key !in old(cache.seen) || checked - old(cache.seen)[key] >= cache.window);
              && limiter.Model() == RateLimiting.Accessed(limiter.perMinute, old(limiter.Model()), call)
              && cache.seen == (if ok then old(cache.seen)[key := cache.clock.now] else old(cache.seen))
              && created == old(created) + if ok && !apiFails then [n] else []
    {
      var ns := n.event.namespace;
      var t1 := cache.clock.Read();
      var t2 := cache.clock.Read();
      accessed, at, checked := t1, t2, t2;
      var allowed := limiter.TryAllow(ns, t1, t2);
      if allowed {
        checked := CreateOnce(n, apiFails);
      }
    }

    /** The second half of a dispatch: nothing for a duplicate, otherwise an Event unless the call fails. */
    method CreateOnce(n: Notification, apiFails: bool) returns (ghost checked: int)
      requires Valid()
      modifies this, cache, cache.clock
      ensures Valid() && old(cache.clock.now) <= checked <= cache.clock.now
      ensures var ok := Fresh(cache.window, old(cache.seen), WorkloadKey(n), checked);
              && cache.seen == (if ok then old(cache.seen)[WorkloadKey(n) := cache.clock.now] else old(cache.seen))
              && created == old(created) + if ok && !apiFails then [n] else []
    {
      ghost var before := cache.accepted;
      var ok;
      ok, checked := cache.TryMarkSeen(WorkloadKey(n));
      if ok {
        BackedGrows(before, WorkloadKeys(created), createdAt, cache.accepted[|before|]);
        if !apiFails {
          assert WorkloadKeys(created + [n]) == WorkloadKeys(created) + [WorkloadKey(n)];
          created, createdAt := created + [n], createdAt + [|before|];
        }
      }
    }
  }

  /**
   Of everything ever sent on the channel, two notifications for the same event and constraint were
   accepted five minutes apart, also when some were dropped.
   */
  lemma ChannelKeepsSpacing(c: Correlator, i: nat, j: nat)
    requires c.Valid() && i < j < |c.sent|
    requires c.sent[i].event.uid == c.sent[j].event.uid && c.sent[i].constraint.uid == c.sent[j].constraint.uid
    ensures var first, second := c.cache.accepted[c.sentAt[i]], c.cache.accepted[c.sentAt[j]];
            && first.key == second.key == (c.sent[i].event.uid, c.sent[i].constraint.uid)
            && second.checked - first.marked >= 300_000_000_000
  {
    assert PairKeys(c.sent)[i] == PairKeys(c.sent)[j];
    DeliveriesAreSpaced(c.cache.window, c.cache.accepted, c.sentAt, i, j);
  }

  /** Events created for the same constraint and workload are a suppression window apart. */
  lemma EventsKeepSpacing(d: Dispatcher, i: nat, j: nat)
    requires d.Valid() && i < j < |d.created| && d.created[i].constraint.uid == d.created[j].constraint.uid
    requires d.created[i].event.namespace == d.created[j].event.namespace && d.created[i].event.name == d.created[j].event.name
    ensures var first, second := d.cache.accepted[d.createdAt[i]], d.cache.accepted[d.createdAt[j]];
            && first.key == second.key == WorkloadKey(d.created[i])
            && second.checked - first.marked >= d.cache.window
  {
    assert WorkloadKeys(d.created)[i] == WorkloadKeys(d.created)[j];
    DeliveriesAreSpaced(d.cache.window, d.cache.accepted, d.createdAt, i, j);
  }
}
