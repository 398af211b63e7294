/**
 The per-namespace rate limiter: one token bucket per namespace, and a periodic eviction of buckets
 not used for an hour. Times are nanoseconds. Credit is counted in units of which TOKEN make one
 token, so a limit of `perMinute` refills exactly `perMinute` units per nanosecond.
 */
module RateLimiting {
  const TOKEN := 60_000_000_000
  const HOUR := 3_600_000_000_000

  datatype Bucket = Bucket(credit: int, last: int)

  datatype State = State(limiters: map<string, Bucket>, lastAccess: map<string, int>)

  // An Allow reads the clock twice: to stamp the access, and in the bucket.
  datatype Call = Allow(ns: string, accessed: int, at: int) | Evict(at: int)

  const EMPTY := State(map[], map[])

  function Min(a: int, b: int): int {
    if a <= b then a else b
  }

  function Burst(perMinute: nat): nat {
    if perMinute / 10 > 1 then perMinute / 10 else 1
  }

  function Capacity(perMinute: nat): nat {
    Burst(perMinute) * TOKEN
  }

  /** The credit of a bucket at a later time. */
  function Level(perMinute: nat, b: Bucket, t: int): int {
    Min(Capacity(perMinute), b.credit + (if t > b.last then t - b.last else 0) * perMinute)
  }

  /** A namespace without a bucket would get a full one. */
  function LevelIn(perMinute: nat, s: State, ns: string, t: int): int {
    if ns in s.limiters then Level(perMinute, s.limiters[ns], t) else Capacity(perMinute)
  }

  predicate Answer(perMinute: nat, s: State, c: Call)
    requires c.Allow?
  {
    LevelIn(perMinute, s, c.ns, c.at) >= TOKEN
  }

  function Accessed(perMinute: nat, s: State, c: Call): State
    requires c.Allow?
  {
    var full := if c.ns in s.limiters then s.limiters[c.ns] else Bucket(Capacity(perMinute), c.at);
    var level := LevelIn(perMinute, s, c.ns, c.at);
    var after := if level >= TOKEN then Bucket(level - TOKEN, c.at) else full;
    State(s.limiters[c.ns := after], s.lastAccess[c.ns := c.accessed])
  }

  ghost function Idle(s: State, at: int): set<string> {
    set ns | ns in s.lastAccess && s.lastAccess[ns] < at - HOUR
  }

  ghost function Evicted(s: State, at: int): State {
    State(s.limiters - Idle(s, at), s.lastAccess - Idle(s, at))
  }

  /** One call; a limiter that never forgets ignores evictions. */
  ghost function Step(perMinute: nat, s: State, c: Call, evicting: bool): State {
    match c
    case Allow(_, _, _) => Accessed(perMinute, s, c)
    case Evict(at) => if evicting then Evicted(s, at) else s
  }

  /** The answers a run gives, in order; an eviction answers nothing. */
  ghost function Answers(perMinute: nat, s: State, calls: seq<Call>, evicting: bool): seq<bool>
    decreases |calls|
  {
    if calls == [] then []
    else
      (if calls[0].Allow? then [Answer(perMinute, s, calls[0])] else []) +
      Answers(perMinute, Step(perMinute, s, calls[0], evicting), calls[1..], evicting)
  }

  /** Clock readings never go back, and the two readings of one Allow are at most `slack` apart. */
  ghost predicate Timely(calls: seq<Call>, now: int, slack: nat) {
    calls == [] ||
    (now <= calls[0].at &&
     (calls[0].Allow? ==> now <= calls[0].accessed <= calls[0].at <= calls[0].accessed + slack) &&
     Timely(calls[1..], calls[0].at, slack))
  }

  // ---------------------------------------------------------------- eviction is invisible

  /** What the limit refills in the shortest time between a draw and its bucket's eviction makes a token. */
  predicate Refills(perMinute: nat, slack: nat) {
    (HOUR + 1 - slack) * perMinute >= TOKEN
  }

  /** From now on, no namespace can tell the two limiters apart. */
  ghost predicate Same(perMinute: nat, a: State, b: State, now: int) {
    forall ns, t | now <= t :: LevelIn(perMinute, a, ns, t) == LevelIn(perMinute, b, ns, t)
  }

  /** Buckets are never in debt, and one drawn from after its recorded access was refilled in between. */
  ghost predicate Stamped(perMinute: nat, s: State, now: int, slack: nat) {
    && s.limiters.Keys == s.lastAccess.Keys
    && forall ns | ns in s.limiters :: StampedBucket(perMinute, s.limiters[ns], s.lastAccess[ns], now, slack)
  }

  ghost predicate StampedBucket(perMinute: nat, b: Bucket, accessed: int, now: int, slack: nat) {
    && b.credit >= 0 && b.last <= now && b.last <= accessed + slack
    && (b.last > accessed ==> b.credit + TOKEN >= Min(Capacity(perMinute), (b.last - accessed) * perMinute))
  }

  lemma MoreTimeMoreRefill(perMinute: nat, less: int, more: int)
    requires less <= more
    ensures less * perMinute <= more * perMinute
  {
  }

  /** A bucket that may be evicted is full again. */
  lemma IdleIsFull(perMinute: nat, b: Bucket, accessed: int, now: int, slack: nat, t: int)
    requires Refills(perMinute, slack) && perMinute >= 1 && StampedBucket(perMinute, b, accessed, now, slack)
    requires accessed < t - HOUR && now <= t
    ensures Level(perMinute, b, t) == Capacity(perMinute)
  {
    var late := b.last - accessed;
    RefillSplits(perMinute, accessed, b.last, t);
    MoreTimeMoreRefill(perMinute, HOUR + 1, t - accessed);
    if late <= 0 {
      MoreTimeMoreRefill(perMinute, HOUR + 1, t - b.last);
    } else {
      MoreTimeMoreRefill(perMinute, HOUR + 1 - slack, t - b.last);
    }
  }

  lemma RefillSplits(perMinute: nat, now: int, mid: int, end: int)
    ensures (end - now) * perMinute == (end - mid) * perMinute + (mid - now) * perMinute
    ensures now <= end ==> (end - now) * perMinute >= 0
  {
  }

  lemma EvictKeepsSame(perMinute: nat, a: State, b: State, now: int, slack: nat, at: int)
    requires Refills(perMinute, slack) && Same(perMinute, a, b, now) && Stamped(perMinute, a, now, slack) && now <= at
    ensures Same(perMinute, Evicted(a, at), b, at)
  {
    var e := Evicted(a, at);
    forall ns, t | at <= t
      ensures LevelIn(perMinute, e, ns, t) == LevelIn(perMinute, b, ns, t)
    {
      assert LevelIn(perMinute, a, ns, t) == LevelIn(perMinute, b, ns, t);
      if ns in a.limiters && ns !in e.limiters {
        assert StampedBucket(perMinute, a.limiters[ns], a.lastAccess[ns], now, slack);
        IdleIsFull(perMinute, a.limiters[ns], a.lastAccess[ns], now, slack, t);
      }
    }
  }

  /** What a draw leaves behind depends only on the level it found. */
  lemma DrawDependsOnLevel(perMinute: nat, s: State, c: Call, t: int)
    requires c.Allow? && c.at <= t
    ensures var level := LevelIn(perMinute, s, c.ns, c.at);
            LevelIn(perMinute, Accessed(perMinute, s, c), c.ns, t) ==
            if level >= TOKEN then Min(Capacity(perMinute), level - TOKEN + (t - c.at) * perMinute)
            else LevelIn(perMinute, s, c.ns, t)
  {
  }

  lemma AllowKeepsSame(perMinute: nat, a: State, b: State, now: int, c: Call)
    requires Same(perMinute, a, b, now) && c.Allow? && now <= c.at
    ensures Answer(perMinute, a, c) == Answer(perMinute, b, c)
    ensures Same(perMinute, Accessed(perMinute, a, c), Accessed(perMinute, b, c), c.at)
  {
    var a', b' := Accessed(perMinute, a, c), Accessed(perMinute, b, c);
    assert LevelIn(perMinute, a, c.ns, c.at) == LevelIn(perMinute, b, c.ns, c.at);
    forall ns, t | c.at <= t
      ensures LevelIn(perMinute, a', ns, t) == LevelIn(perMinute, b', ns, t)
    {
      assert LevelIn(perMinute, a, ns, t) == LevelIn(perMinute, b, ns, t);
      if ns == c.ns {
        DrawDependsOnLevel(perMinute, a, c, t);
        DrawDependsOnLevel(perMinute, b, c, t);
      }
    }
  }

  /** A draw leaves its bucket stamped: if it stalled, the bucket filled meanwhile. */
  lemma DrawIsStamped(perMinute: nat, s: State, now: int, slack: nat, c: Call)
    requires c.Allow? && now <= c.accessed <= c.at <= c.accessed + slack
    requires c.ns in s.limiters ==>
               s.limiters[c.ns].credit >= 0 && s.limiters[c.ns].last <= now
    ensures StampedBucket(perMinute, Accessed(perMinute, s, c).limiters[c.ns], c.accessed, c.at, slack)
  {
    if c.ns in s.limiters {
      MoreTimeMoreRefill(perMinute, c.at - c.accessed, c.at - s.limiters[c.ns].last);
    }
  }

  lemma StepKeepsStamped(perMinute: nat, s: State, now: int, slack: nat, c: Call)
    requires Stamped(perMinute, s, now, slack) && Timely([c], now, slack)
    ensures Stamped(perMinute, Step(perMinute, s, c, true), c.at, slack)
  {
    var t := Step(perMinute, s, c, true);
    forall ns | ns in t.limiters
      ensures StampedBucket(perMinute, t.limiters[ns], t.lastAccess[ns], c.at, slack)
    {
      if c.Allow? && ns == c.ns {
        assert ns in s.limiters ==> StampedBucket(perMinute, s.limiters[ns], s.lastAccess[ns], now, slack);
        DrawIsStamped(perMinute, s, now, slack, c);
      } else {
        assert StampedBucket(perMinute, s.limiters[ns], s.lastAccess[ns], now, slack);
      }
    }
  }

  lemma {:induction false} SameAnswers(perMinute: nat, a: State, b: State, now: int, slack: nat, calls: seq<Call>)
    requires Refills(perMinute, slack) && Same(perMinute, a, b, now) && Stamped(perMinute, a, now, slack) && Timely(calls, now, slack)
    ensures Answers(perMinute, a, calls, true) == Answers(perMinute, b, calls, false)
    decreases |calls|
  {
    if calls != [] {
      var c := calls[0];
      if c.Allow? {
        AllowKeepsSame(perMinute, a, b, now, c);
      } else {
        EvictKeepsSame(perMinute, a, b, now, slack, c.at);
      }
      StepKeepsStamped(perMinute, a, now, slack, c);
      SameAnswers(perMinute, Step(perMinute, a, c, true), Step(perMinute, b, c, false), c.at, slack, calls[1..]);
    }
  }

  /** Eviction cannot be observed: every run answers as if no bucket were ever forgotten. */
  lemma EvictionIsInvisible(perMinute: nat, calls: seq<Call>, now: int, slack: nat)
    requires Refills(perMinute, slack) && Timely(calls, now, slack)
    ensures Answers(perMinute, EMPTY, calls, true) == Answers(perMinute, EMPTY, calls, false)
  {
    SameAnswers(perMinute, EMPTY, EMPTY, now, slack, calls);
  }

  // ---------------------------------------------------------------- exactly when it is

  function Repeated(c: Call, n: nat): seq<Call> {
    seq(n, _ => c)
  }

  /** Of n draws at one moment the last is admitted exactly if there were n tokens. */
  lemma {:induction false} DrawsAtOnce(perMinute: nat, s: State, ns: string, t: int, n: nat, evicting: bool)
    requires n >= 1
    ensures var answers := Answers(perMinute, s, Repeated(Allow(ns, t, t), n), evicting);
            |answers| == n && answers[n - 1] == (LevelIn(perMinute, s, ns, t) >= n * TOKEN)
    decreases n
  {
    var c := Allow(ns, t, t);
    var s' := Accessed(perMinute, s, c);
    assert Repeated(c, n)[1..] == Repeated(c, n - 1);
    if n == 1 {
      assert Answers(perMinute, s', [], evicting) == [];
    } else {
      DrawsAtOnce(perMinute, s', ns, t, n - 1, evicting);
      DrawDependsOnLevel(perMinute, s, c, t);
      assert (t - t) * perMinute == 0;
    }
  }

  lemma {:induction false} DrawsAtOnceAreTimely(ns: string, t: int, n: nat, slack: nat)
    ensures Timely(Repeated(Allow(ns, t, t), n), t, slack)
  {
    if n > 0 {
      DrawsAtOnceAreTimely(ns, t, n - 1, slack);
      assert Repeated(Allow(ns, t, t), n)[1..] == Repeated(Allow(ns, t, t), n - 1);
    }
  }

  /** When the first draw's bucket can be evicted. */
  function EvictedAt(slack: nat): int {
    if slack > HOUR + 1 then slack else HOUR + 1
  }

  /** A first draw that stalls as long as it may, an eviction as soon as possible, and a burst. */
  function Burstly(perMinute: nat, ns: string, slack: nat): seq<Call> {
    [Allow(ns, 0, slack), Evict(EvictedAt(slack))] + Repeated(Allow(ns, EvictedAt(slack), EvictedAt(slack)), Burst(perMinute))
  }

  lemma BurstlyIsTimely(perMinute: nat, ns: string, slack: nat)
    ensures Timely(Burstly(perMinute, ns, slack), 0, slack)
  {
    var t := EvictedAt(slack);
    var calls, draws := Burstly(perMinute, ns, slack), Repeated(Allow(ns, t, t), Burst(perMinute));
    DrawsAtOnceAreTimely(ns, t, Burst(perMinute), slack);
    assert calls[1..] == [Evict(t)] + draws && calls[1..][1..] == draws;
  }

  /** Where it leads depends on the eviction only through the level at the burst. */
  lemma BurstlyAnswers(perMinute: nat, ns: string, slack: nat, evicting: bool)
    ensures var t := EvictedAt(slack);
            var first := State(map[ns := Bucket(Capacity(perMinute) - TOKEN, slack)], map[ns := 0]);
            var s := if evicting then EMPTY else first;
            var answers := Answers(perMinute, EMPTY, Burstly(perMinute, ns, slack), evicting);
            |answers| == Burst(perMinute) + 1 && answers[Burst(perMinute)] == (LevelIn(perMinute, s, ns, t) >= Capacity(perMinute))
  {
    var t := EvictedAt(slack);
    var calls, draws := Burstly(perMinute, ns, slack), Repeated(Allow(ns, t, t), Burst(perMinute));
    assert calls[1..] == [Evict(t)] + draws && calls[1..][1..] == draws;
    var first := State(map[ns := Bucket(Capacity(perMinute) - TOKEN, slack)], map[ns := 0]);
    assert Accessed(perMinute, EMPTY, calls[0]) == first;
    assert Idle(first, t) == {ns} && Evicted(first, t) == EMPTY;
    DrawsAtOnce(perMinute, if evicting then EMPTY else first, ns, t, Burst(perMinute), evicting);
  }

  /** If less than a token is refilled before the eviction, the evicted bucket comes back with one too many. */
  lemma EvictionShows(perMinute: nat, ns: string, slack: nat)
    requires !Refills(perMinute, slack)
    ensures Timely(Burstly(perMinute, ns, slack), 0, slack)
    ensures Answers(perMinute, EMPTY, Burstly(perMinute, ns, slack), true) != Answers(perMinute, EMPTY, Burstly(perMinute, ns, slack), false)
  {
    BurstlyIsTimely(perMinute, ns, slack);
    BurstlyAnswers(perMinute, ns, slack, true);
    BurstlyAnswers(perMinute, ns, slack, false);
    assert (slack - slack) * perMinute == 0;
  }

  /**
   The exact condition: eviction is invisible in every run if and only if the limit refills a token in
   the time left of the hour when one call stalls between its two clock readings. A limit of zero never
   does; a positive one does for every stall up to 59 minutes.
   */
  lemma EvictionIsInvisibleIff(perMinute: nat, slack: nat)
    ensures Refills(perMinute, slack) <==>
            forall calls | Timely(calls, 0, slack) ::
              Answers(perMinute, EMPTY, calls, true) == Answers(perMinute, EMPTY, calls, false)
    ensures slack <= HOUR - TOKEN ==> (Refills(perMinute, slack) <==> perMinute >= 1)
  {
    if Refills(perMinute, slack) {
      forall calls | Timely(calls, 0, slack)
        ensures Answers(perMinute, EMPTY, calls, true) == Answers(perMinute, EMPTY, calls, false)
      {
        EvictionIsInvisible(perMinute, calls, 0, slack);
      }
    } else {
      EvictionShows(perMinute, "", slack);
    }
    if slack <= HOUR - TOKEN {
      MoreTimeMoreRefill(perMinute, TOKEN + 1, HOUR + 1 - slack);
    }
  }

  // ---------------------------------------------------------------- how much a window admits

  /** The number of admissions of one namespace in a run. */
  ghost function Admitted(perMinute: nat, s: State, calls: seq<Call>, ns: string, evicting: bool): nat
    decreases |calls|
  {
    if calls == [] then 0
    else
      (if calls[0].Allow? && calls[0].ns == ns && Answer(perMinute, s, calls[0]) then 1 else 0) +
      Admitted(perMinute, Step(perMinute, s, calls[0], evicting), calls[1..], ns, evicting)
  }

  ghost predicate NotAfter(calls: seq<Call>, end: int) {
    forall c | c in calls :: c.at <= end
  }

  /** Time adds at most its refill to a level. */
  lemma LevelGrowth(perMinute: nat, s: State, ns: string, t: int, t': int)
    requires t <= t'
    ensures LevelIn(perMinute, s, ns, t') <= LevelIn(perMinute, s, ns, t) + (t' - t) * perMinute
  {
  }

  lemma LevelNonNegative(perMinute: nat, s: State, ns: string, t: int)
    requires forall n | n in s.limiters :: s.limiters[n].credit >= 0
    ensures LevelIn(perMinute, s, ns, t) >= 0
  {
  }

  lemma DrawSpendsToken(perMinute: nat, s: State, c: Call, ns: string, now: int)
    requires c.Allow? && now <= c.at
    ensures LevelIn(perMinute, Accessed(perMinute, s, c), ns, c.at) +
            (if c.ns == ns && Answer(perMinute, s, c) then TOKEN else 0)
            <= LevelIn(perMinute, s, ns, now) + (c.at - now) * perMinute
  {
    LevelGrowth(perMinute, s, ns, now, c.at);
    if c.ns == ns {
      DrawDependsOnLevel(perMinute, s, c, c.at);
      assert (c.at - c.at) * perMinute == 0;
    }
  }

  lemma {:induction false} AdmissionsAreFunded(perMinute: nat, s: State, now: int, slack: nat, calls: seq<Call>, ns: string, end: int)
    requires Timely(calls, now, slack) && now <= end && NotAfter(calls, end)
    requires forall n | n in s.limiters :: s.limiters[n].credit >= 0
    ensures Admitted(perMinute, s, calls, ns, false) * TOKEN <= LevelIn(perMinute, s, ns, now) + (end - now) * perMinute
    decreases |calls|
  {
    RefillSplits(perMinute, now, if calls == [] then now else calls[0].at, end);
    if calls == [] {
      LevelNonNegative(perMinute, s, ns, now);
    } else {
      var c := calls[0];
      assert c in calls && forall d | d in calls[1..] :: d in calls;
      var s' := Step(perMinute, s, c, false);
      if c.Allow? {
        DrawSpendsToken(perMinute, s, c, ns, now);
      } else {
        LevelGrowth(perMinute, s, ns, now, c.at);
      }
      AdmissionsAreFunded(perMinute, s', c.at, slack, calls[1..], ns, end);
    }
  }

  lemma {:induction false} SameAdmissions(perMinute: nat, a: State, b: State, now: int, slack: nat, calls: seq<Call>, ns: string)
    requires Refills(perMinute, slack) && Same(perMinute, a, b, now) && Stamped(perMinute, a, now, slack) && Timely(calls, now, slack)
    ensures Admitted(perMinute, a, calls, ns, true) == Admitted(perMinute, b, calls, ns, false)
    decreases |calls|
  {
    if calls != [] {
      var c := calls[0];
      if c.Allow? {
        AllowKeepsSame(perMinute, a, b, now, c);
      } else {
        EvictKeepsSame(perMinute, a, b, now, slack, c.at);
      }
      StepKeepsStamped(perMinute, a, now, slack, c);
      SameAdmissions(perMinute, Step(perMinute, a, c, true), Step(perMinute, b, c, false), c.at, slack, calls[1..], ns);
    }
  }

  /** The state a run leads to. */
  ghost function After(perMinute: nat, s: State, calls: seq<Call>): State
    decreases |calls|
  {
    if calls == [] then s else After(perMinute, Step(perMinute, s, calls[0], true), calls[1..])
  }

  function EndOf(calls: seq<Call>, now: int): int {
    if calls == [] then now else calls[|calls| - 1].at
  }

  /** Every state a run reaches is stamped. */
  lemma {:induction false} ReachableIsStamped(perMinute: nat, s: State, now: int, slack: nat, calls: seq<Call>)
    requires Stamped(perMinute, s, now, slack) && Timely(calls, now, slack)
    ensures Stamped(perMinute, After(perMinute, s, calls), EndOf(calls, now), slack)
    decreases |calls|
  {
    if calls != [] {
      StepKeepsStamped(perMinute, s, now, slack, calls[0]);
      ReachableIsStamped(perMinute, Step(perMinute, s, calls[0], true), calls[0].at, slack, calls[1..]);
    }
  }

  lemma BoundFrom(perMinute: nat, slack: nat, s: State, now: int, calls: seq<Call>, ns: string, end: int)
    requires Refills(perMinute, slack) && Stamped(perMinute, s, now, slack)
    requires Timely(calls, now, slack) && now <= end && NotAfter(calls, end)
    ensures Admitted(perMinute, s, calls, ns, true) * TOKEN <= Burst(perMinute) * TOKEN + perMinute * (end - now)
  {
    SameAdmissions(perMinute, s, s, now, slack, calls, ns);
    assert forall n | n in s.limiters :: StampedBucket(perMinute, s.limiters[n], s.lastAccess[n], now, slack);
    AdmissionsAreFunded(perMinute, s, now, slack, calls, ns, end);
  }

  lemma StampedLater(perMinute: nat, s: State, now: int, later: int, slack: nat)
    requires Stamped(perMinute, s, now, slack) && now <= later
    ensures Stamped(perMinute, s, later, slack)
  {
    assert forall ns | ns in s.limiters :: StampedBucket(perMinute, s.limiters[ns], s.lastAccess[ns], now, slack);
  }

  /**
   Any window, after any run and any idle time, whatever is evicted: the calls between `now` and `end`
   admit at most a tenth of the limit, or one, plus what the limit refills in that time.
   */
  lemma WindowBound(perMinute: nat, slack: nat, before: seq<Call>, start: int, calls: seq<Call>, ns: string, now: int, end: int)
    requires Refills(perMinute, slack) && Timely(before, start, slack) && EndOf(before, start) <= now
    requires Timely(calls, now, slack) && now <= end && NotAfter(calls, end)
    ensures Admitted(perMinute, After(perMinute, EMPTY, before), calls, ns, true) * 60_000_000_000
            <= (if perMinute / 10 > 1 then perMinute / 10 else 1) * 60_000_000_000 + perMinute * (end - now)
  {
    ReachableIsStamped(perMinute, EMPTY, start, slack, before);
    StampedLater(perMinute, After(perMinute, EMPTY, before), EndOf(before, start), now, slack);
    BoundFrom(perMinute, slack, After(perMinute, EMPTY, before), now, calls, ns, end);
  }

  // ---------------------------------------------------------------- what is admitted at least

  lemma WholeTokens(burst: nat, n: nat)
    ensures burst * TOKEN >= n * TOKEN <==> n <= burst
  {
  }

  /** Of n calls at one moment in a namespace without a bucket, the last is admitted exactly up to a tenth of the limit, or one. */
  lemma NewBucketAdmitsIff(perMinute: nat, s: State, ns: string, t: int, n: nat, evicting: bool)
    requires n >= 1 && ns !in s.limiters
    ensures var answers := Answers(perMinute, s, Repeated(Allow(ns, t, t), n), evicting);
            |answers| == n && (answers[n - 1] <==> n <= if perMinute / 10 > 1 then perMinute / 10 else 1)
  {
    DrawsAtOnce(perMinute, s, ns, t, n, evicting);
    WholeTokens(Burst(perMinute), n);
  }

  /** A bucket was last drawn from by a call. */
  lemma {:induction false} LastDrawIsACall(perMinute: nat, s: State, calls: seq<Call>, ns: string)
    requires ns in After(perMinute, s, calls).limiters
    ensures var last := After(perMinute, s, calls).limiters[ns].last;
            || (ns in s.limiters && s.limiters[ns].last == last)
            || exists c | c in calls :: c.Allow? && c.ns == ns && c.at == last
    decreases |calls|
  {
    if calls != [] {
      var s' := Step(perMinute, s, calls[0], true);
      LastDrawIsACall(perMinute, s', calls[1..], ns);
      var last := After(perMinute, s, calls).limiters[ns].last;
      assert calls[0] in calls && forall c | c in calls[1..] :: c in calls;
      if c :| c in calls[1..] && c.Allow? && c.ns == ns && c.at == last {
        assert c in calls;
      } else if !(ns in s.limiters && s.limiters[ns].last == last) {
        assert calls[0].Allow? && calls[0].ns == ns && calls[0].at == last;
      }
    }
  }

  lemma RefilledBucketAdmits(perMinute: nat, b: Bucket, t: int)
    requires b.credit >= 0 && b.last <= t && perMinute * (t - b.last) >= TOKEN
    ensures Level(perMinute, b, t) >= TOKEN
  {
  }

  /**
   After any run, with any evictions, a call is admitted if a whole token was refilled since every earlier
   call of its namespace: `perMinute * seconds >= 60`.
   */
  lemma RefilledIsAdmitted(perMinute: nat, slack: nat, before: seq<Call>, start: int, c: Call)
    requires Timely(before, start, slack) && c.Allow? && EndOf(before, start) <= c.at
    requires forall d | d in before && d.Allow? && d.ns == c.ns :: perMinute * (c.at - d.at) >= 60_000_000_000
    ensures Answer(perMinute, After(perMinute, EMPTY, before), c)
  {
    var s := After(perMinute, EMPTY, before);
    if c.ns in s.limiters {
      var d := BucketOfRun(perMinute, slack, before, start, c.ns);
      RefilledBucketAdmits(perMinute, s.limiters[c.ns], c.at);
    }
  }

  lemma BucketOfRun(perMinute: nat, slack: nat, before: seq<Call>, start: int, ns: string) returns (d: Call)
    requires Timely(before, start, slack) && ns in After(perMinute, EMPTY, before).limiters
    ensures d in before && d.Allow? && d.ns == ns
    ensures var b := After(perMinute, EMPTY, before).limiters[ns]; b.credit >= 0 && b.last == d.at <= EndOf(before, start)
  {
    var s := After(perMinute, EMPTY, before);
    ReachableIsStamped(perMinute, EMPTY, start, slack, before);
    assert StampedBucket(perMinute, s.limiters[ns], s.lastAccess[ns], EndOf(before, start), slack);
    LastDrawIsACall(perMinute, EMPTY, before, ns);
    d :| d in before && d.Allow? && d.ns == ns && d.at == s.limiters[ns].last;
  }

  // ---------------------------------------------------------------- the limiter in place

  class NsRateLimiter {
    const perMinute: nat
    var limiters: map<string, Bucket>
    var lastAccess: map<string, int>

    constructor (perMinute: nat)
      ensures this.perMinute == perMinute && Model() == EMPTY
    {
      this.perMinute := perMinute;
      limiters, lastAccess := map[], map[];
    }

    ghost function Model(): State
      reads this
    {
      State(limiters, lastAccess)
    }

    /** Takes a token from the namespace's bucket, creating a full one if there is none. */
    method TryAllow(ns: string, accessed: int, at: int) returns (ok: bool)
      modifies this
      ensures ok == Answer(perMinute, old(Model()), Allow(ns, accessed, at))
      ensures Model() == Accessed(perMinute, old(Model()), Allow(ns, accessed, at))
    {
      if ns !in limiters {
        limiters := limiters[ns := Bucket(Capacity(perMinute), at)];
      }
      lastAccess := lastAccess[ns := accessed];
      var b := limiters[ns];
      var elapsed := if at > b.last then at - b.last else 0;
      var tokens := b.credit + elapsed * perMinute;
      if tokens > Capacity(perMinute) {
        tokens := Capacity(perMinute);
      }
      ok := tokens >= TOKEN;
      if ok {
        limiters := limiters[ns := Bucket(tokens - TOKEN, at)];
      }
    }

    /** Forgets the namespaces whose last access lies more than an hour back. */
    method EvictIdle(now: int)
      modifies this
      ensures Model() == Evicted(old(Model()), now)
      ensures forall ns :: ns in lastAccess <==> ns in old(lastAccess) && now - old(lastAccess)[ns] <= 3_600_000_000_000
    {
      var todo := lastAccess.Keys;
      ghost var gone: set<string> := {};
      while todo != {}
        invariant todo <= old(lastAccess).Keys
        invariant gone == Idle(old(Model()), now) - todo
        invariant limiters == old(limiters) - gone && lastAccess == old(lastAccess) - gone
        decreases todo
      {
        var ns :| ns in todo;
        if lastAccess[ns] < now - HOUR {
          limiters := limiters - {ns};
          lastAccess := lastAccess - {ns};
          gone := gone + {ns};
        }
        todo := todo - {ns};
      }
    }
  }
}
