/**
 The time-windowed duplicate filter shared by the correlator (per event and constraint, five
 minutes) and the dispatcher (per constraint and workload, an hour by default): a check-and-mark on
 a map of times, and a background cleanup of old entries.
 */
module Deduping {
  import opened Clocks

  // A check-and-mark reads the clock twice: to judge the age of the mark, and to set a new one.
  datatype Call<K> = Mark(key: K, checked: int, marked: int) | Cleanup(at: int)

  /** The mark is missing or old enough. */
  predicate Fresh<K(==)>(window: int, seen: map<K, int>, key: K, checked: int) {
    key !in seen || checked - seen[key] >= window
  }

  predicate Accepts<K(==)>(window: int, seen: map<K, int>, c: Call<K>) {
    c.Mark? && Fresh(window, seen, c.key, c.checked)
  }

  ghost function Cleaned<K>(window: int, seen: map<K, int>, at: int): map<K, int> {
    map k | k in seen && !(seen[k] < at - window) :: seen[k]
  }

  /** One call; a filter that never forgets ignores cleanups. */
  ghost function Step<K>(window: int, seen: map<K, int>, c: Call<K>, cleaning: bool): map<K, int> {
    match c
    case Mark(key, checked, marked) => if Fresh(window, seen, key, checked) then seen[key := marked] else seen
    case Cleanup(at) => if cleaning then Cleaned(window, seen, at) else seen
  }

  ghost predicate IsRun<K>(window: int, states: seq<map<K, int>>, calls: seq<Call<K>>, cleaning: bool) {
    && |states| == |calls| + 1
    && forall i | 0 <= i < |calls| :: states[i + 1] == Step(window, states[i], calls[i], cleaning)
  }

  function Begin<K>(c: Call<K>): int {
    match c case Mark(_, checked, _) => checked case Cleanup(at) => at
  }

  function End<K>(c: Call<K>): int {
    match c case Mark(_, _, marked) => marked case Cleanup(at) => at
  }

  /** Clock readings never go back. */
  ghost predicate Timely<K>(calls: seq<Call<K>>) {
    && (forall c | c in calls :: Begin(c) <= End(c))
    && forall i, j | 0 <= i < j < |calls| :: End(calls[i]) <= Begin(calls[j])
  }

  // ---------------------------------------------------------------- cleanup is invisible

  /** What the cleaned filter has lost is too old to matter from `now` on. */
  ghost predicate SameFrom<K(!new)>(window: int, a: map<K, int>, b: map<K, int>, now: int) {
    && (forall k | k in a :: k in b && a[k] == b[k])
    && forall k | k in b && k !in a :: now - b[k] > window
  }

  lemma StepKeepsSame<K(!new)>(window: int, a: map<K, int>, b: map<K, int>, now: int, c: Call<K>)
    requires SameFrom(window, a, b, now) && now <= Begin(c) <= End(c)
    ensures Accepts(window, a, c) == Accepts(window, b, c)
    ensures SameFrom(window, Step(window, a, c, true), Step(window, b, c, false), End(c))
  {
  }

  /** In every run the filter decides as if it never forgot anything. */
  lemma {:induction false} CleanupIsInvisible<K(!new)>(
      window: int, cleaned: seq<map<K, int>>, full: seq<map<K, int>>, calls: seq<Call<K>>, i: nat)
    requires IsRun(window, cleaned, calls, true) && IsRun(window, full, calls, false)
    requires cleaned[0] == full[0] && Timely(calls) && i < |calls|
    ensures Accepts(window, cleaned[i], calls[i]) == Accepts(window, full[i], calls[i])
    ensures SameFrom(window, cleaned[i + 1], full[i + 1], End(calls[i]))
  {
    assert calls[i] in calls;
    if i > 0 {
      CleanupIsInvisible(window, cleaned, full, calls, i - 1);
      StepKeepsSame(window, cleaned[i], full[i], End(calls[i - 1]), calls[i]);
    } else {
      StepKeepsSame(window, cleaned[0], full[0], Begin(calls[0]), calls[0]);
    }
  }

  // ---------------------------------------------------------------- accepted marks are spaced

  /** A mark once set stays, or is replaced by a later one. */
  lemma {:induction false} MarkStays<K(!new)>(window: int, full: seq<map<K, int>>, calls: seq<Call<K>>, i: nat, j: nat)
    requires IsRun(window, full, calls, false) && Timely(calls) && i < j < |full|
    requires Accepts(window, full[i], calls[i])
    ensures calls[i].key in full[j] && full[j][calls[i].key] >= calls[i].marked
  {
    if j > i + 1 {
      MarkStays(window, full, calls, i, j - 1);
      assert calls[j - 1] in calls;
      assert End(calls[i]) <= Begin(calls[j - 1]);
    }
  }

  /** Two accepted calls with the same key are at least a window apart, whatever is cleaned up between them. */
  lemma AcceptsAreSpaced<K(!new)>(
      window: int, cleaned: seq<map<K, int>>, full: seq<map<K, int>>, calls: seq<Call<K>>, i: nat, j: nat)
    requires IsRun(window, cleaned, calls, true) && IsRun(window, full, calls, false) && cleaned[0] == full[0]
    requires Timely(calls) && i < j < |calls|
    requires Accepts(window, cleaned[i], calls[i]) && Accepts(window, cleaned[j], calls[j])
    requires calls[i].key == calls[j].key
    ensures calls[j].checked - calls[i].marked >= window
  {
    CleanupIsInvisible(window, cleaned, full, calls, i);
    CleanupIsInvisible(window, cleaned, full, calls, j);
    MarkStays(window, full, calls, i, j);
  }

  // ---------------------------------------------------------------- the filter in place

  datatype Accept<K> = Accept(key: K, checked: int, marked: int)

  /** Accepted calls with the same key are a window apart. */
  ghost predicate Spaced<K(!new)>(window: int, log: seq<Accept<K>>) {
    forall i, j | 0 <= i < j < |log| && log[i].key == log[j].key :: log[j].checked - log[i].marked >= window
  }

  /** The entries of a log at the given positions, in order. */
  ghost predicate Picks<K(!new)>(log: seq<Accept<K>>, at: seq<nat>) {
    (forall i | 0 <= i < |at| :: at[i] < |log|) && forall i, j | 0 <= i < j < |at| :: at[i] < at[j]
  }

  /** Whatever part of the accepted calls is delivered, deliveries with the same key are a window apart. */
  lemma DeliveriesAreSpaced<K(!new)>(window: int, log: seq<Accept<K>>, at: seq<nat>, i: nat, j: nat)
    requires Spaced(window, log) && Picks(log, at) && i < j < |at|
    requires log[at[i]].key == log[at[j]].key
    ensures log[at[j]].checked - log[at[i]].marked >= window
  {
  }

  class DedupeCache<K(==, !new)> {
    const window: int
    const clock: Clock
    var seen: map<K, int>
    ghost var accepted: seq<Accept<K>>

    /** Every accepted mark is still remembered, or so old that it no longer matters. */
    ghost predicate Valid()
      reads this, clock
    {
      && Spaced(window, accepted)
      && (forall a | a in accepted :: a.marked <= clock.now)
      && forall a | a in accepted ::
           (a.key in seen && seen[a.key] >= a.marked) || clock.now - a.marked > window
    }

    constructor (window: int, clock: Clock)
      ensures this.window == window && this.clock == clock
      ensures Valid() && seen == map[] && accepted == []
    {
      this.window, this.clock := window, clock;
      seen, accepted := map[], [];
    }

    /**
     Checks and marks in one step: accepts exactly if the key was not marked within the window before
     `checked`, the clock reading the mark is compared with.
     */
    method TryMarkSeen(key: K) returns (ok: bool, ghost checked: int)
      requires Valid()
      modifies this, clock
      ensures Valid() && old(clock.now) <= checked <= clock.now
      ensures ok == Fresh(window, old(seen), key, checked)
      ensures seen == Step(window, old(seen), Mark(key, checked, clock.now), true)
      ensures accepted == old(accepted) + if ok then [Accept(key, checked, clock.now)] else []
    {
      if key in seen {
        var now := clock.Read();
        checked := now;
        if now - seen[key] < window {
          return false, checked;
        }
        var marked := clock.Read();
        seen := seen[key := marked];
      } else {
        var marked := clock.Read();
        checked := marked;
        seen := seen[key := marked];
      }
      accepted := accepted + [Accept(key, checked, clock.now)];
      ok := true;
    }

    /** One tick of the background cleanup. */
    method Cleanup()
      requires Valid()
      modifies this`seen, clock
      ensures Valid()
      ensures seen == Cleaned(window, old(seen), clock.now) && old(clock.now) <= clock.now
    {
      var now := clock.Read();
      var todo := seen.Keys;
      ghost var was := seen;
      while todo != {}
        invariant todo <= was.Keys && clock.now == now
        invariant seen == map k | k in was && (k in todo || !(was[k] < now - window)) :: was[k]
        decreases todo
      {
        var k :| k in todo;
        if seen[k] < now - window {
          seen := seen - {k};
        }
        todo := todo - {k};
      }
    }
  }
}
