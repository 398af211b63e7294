/**
 The flow client: reconnecting with exponential backoff in 64-bit nanoseconds, and the accounting of
 flow drops passed through a bounded channel.
 */
module HubbleClient {

  // ---------------------------------------------------------------- backoff

  const TWO_62: int := 0x4000_0000_0000_0000
  const TWO_63: int := 2 * TWO_62
  const TWO_64: int := 4 * TWO_62

  predicate Int64(x: int) {
    -TWO_63 <= x < TWO_63
  }

  /** Two's complement wrap-around. */
  function Wrap(x: int): int {
    (x + TWO_63) % TWO_64 - TWO_63
  }

  function Pow2(k: nat): nat {
    if k == 0 then 1 else 2 * Pow2(k - 1)
  }

  function Min(a: int, b: int): int {
    if a < b then a else b
  }

  function NextReconnectInterval(max: int, current: int): int {
    var next := Wrap(current * 2);
    if next > max then max else next
  }

  /** The wait after k failures in a row, as the client computes it. */
  function Wait(base: int, max: int, k: nat): int {
    if k == 0 then base else NextReconnectInterval(max, Wait(base, max, k - 1))
  }

  lemma {:induction false} Pow2Sum(a: nat, b: nat)
    ensures Pow2(a + b) == Pow2(a) * Pow2(b)
  {
    if b > 0 {
      Pow2Sum(a, b - 1);
      assert Pow2(a + b) == 2 * (Pow2(a) * Pow2(b - 1));
    }
  }

  lemma Pow62()
    ensures Pow2(62) == TWO_62
  {
    assert Pow2(8) == 256 && Pow2(6) == 64;
    Pow2Sum(8, 8);
    Pow2Sum(16, 16);
    Pow2Sum(32, 16);
    Pow2Sum(48, 8);
    Pow2Sum(56, 6);
  }

  lemma WrapOnce(x: int)
    requires TWO_63 <= x < TWO_64
    ensures Wrap(x) == x - TWO_64
  {
  }

  /** Below 2^62 the doubling never overflows, and the wait is the capped power. */
  lemma {:induction false} BackoffIsExact(base: int, max: int, k: nat)
    requires 0 <= base <= max < TWO_62
    ensures Wait(base, max, k) == Min(base * Pow2(k), max)
    ensures Int64(2 * Wait(base, max, k))
  {
    assert 0 <= base * Pow2(k);
    if k > 0 {
      BackoffIsExact(base, max, k - 1);
      Doubled(base, k - 1);
      NextIsCapped(max, base * Pow2(k - 1));
    }
  }

  lemma Doubled(base: int, k: nat)
    requires base >= 0
    ensures base * Pow2(k + 1) == 2 * (base * Pow2(k)) >= 0
  {
  }

  lemma NextIsCapped(max: int, uncapped: int)
    requires 0 <= uncapped && 0 <= max < TWO_62
    ensures NextReconnectInterval(max, Min(uncapped, max)) == Min(2 * uncapped, max)
  {
  }

  /** For a positive base the capped power is reached after every number of failures exactly if max is below 2^62. */
  lemma BackoffIsExactIff(base: int, max: int)
    requires 0 < base <= max < TWO_63
    ensures (forall k: nat :: Wait(base, max, k) == Min(base * Pow2(k), max)) <==> max < TWO_62
  {
    if max < TWO_62 {
      forall k: nat
        ensures Wait(base, max, k) == Min(base * Pow2(k), max)
      {
        BackoffIsExact(base, max, k);
      }
    } else {
      BackoffOverflows(base, max);
    }
  }

  lemma BackoffOverflows(base: int, max: int)
    requires 0 < base <= max && TWO_62 <= max < TWO_63
    ensures exists k: nat :: Wait(base, max, k) != Min(base * Pow2(k), max)
  {
    Pow62();
    assert base * Pow2(62) >= Pow2(62);
    if Wait(base, max, 62) == Min(base * Pow2(62), max) {
      WrapOnce(Wait(base, max, 62) * 2);
      assert Wait(base, max, 63) < 0;
      Doubled(base, 62);
      assert Wait(base, max, 63) != Min(base * Pow2(63), max);
    }
  }

  /** How many attempts failed in a row at the end. */
  function Streak(outcomes: seq<bool>): nat {
    if outcomes == [] || outcomes[|outcomes| - 1] then 0 else 1 + Streak(outcomes[..|outcomes| - 1])
  }

  function Successes(outcomes: seq<bool>): nat {
    if outcomes == [] then 0 else Successes(outcomes[..|outcomes| - 1]) + if outcomes[|outcomes| - 1] then 1 else 0
  }

  /** The failures in a row are those since the last success, or since the start. */
  lemma {:induction false} StreakSince(outcomes: seq<bool>, since: nat)
    requires since <= |outcomes| && (since > 0 ==> outcomes[since - 1])
    requires forall j | since <= j < |outcomes| :: !outcomes[j]
    ensures Streak(outcomes) == |outcomes| - since
  {
    if since < |outcomes| {
      StreakSince(outcomes[..|outcomes| - 1], since);
    }
  }

  /** The attempts from `since` up to i have failed, the one before succeeded. */
  ghost predicate FailedSince(outcomes: seq<bool>, since: int, i: int)
    requires i <= |outcomes|
  {
    0 <= since <= i && (since > 0 ==> outcomes[since - 1]) && forall j | since <= j < i :: !outcomes[j]
  }

  lemma WaitSince(base: int, max: int, outcomes: seq<bool>, since: nat, i: nat)
    requires 0 <= base <= max < TWO_62 && i <= |outcomes| && FailedSince(outcomes, since, i)
    ensures Wait(base, max, Streak(outcomes[..i])) == Min(base * Pow2(i - since), max)
  {
    StreakSince(outcomes[..i], since);
    BackoffIsExact(base, max, i - since);
  }

  /**
   The loop over connection attempts. `waits[i]` is how long it sleeps after attempt i, if that fails:
   base doubled for every failure since the last success, up to max.
   */
  method ConnectionLoop(base: int, max: int, outcomes: seq<bool>) returns (waits: seq<int>, reconnects: nat)
    ensures |waits| == |outcomes| && reconnects == Successes(outcomes)
    ensures forall i | 0 <= i < |outcomes| && !outcomes[i] :: waits[i] == Wait(base, max, Streak(outcomes[..i]))
    ensures 0 <= base <= max < TWO_62 ==>
              forall i, since | 0 <= i < |outcomes| && !outcomes[i] && FailedSince(outcomes, since, i) ::
                waits[i] == Min(base * Pow2(i - since), max)
  {
    var interval := base;
    waits, reconnects := [], 0;
    for n := 0 to |outcomes|
      invariant |waits| == n && reconnects == Successes(outcomes[..n])
      invariant interval == Wait(base, max, Streak(outcomes[..n]))
      invariant forall i | 0 <= i < n && !outcomes[i] :: waits[i] == Wait(base, max, Streak(outcomes[..i]))
    {
      assert outcomes[..n + 1][..n] == outcomes[..n];
      if !outcomes[n] {
        waits := waits + [interval];
        interval := NextReconnectInterval(max, interval);
        continue;
      }
      waits := waits + [0];
      interval := base;
      reconnects := reconnects + 1;
    }
    assert outcomes[..|outcomes|] == outcomes;
    if 0 <= base <= max < TWO_62 {
      forall i, since | 0 <= i < |outcomes| && !outcomes[i] && FailedSince(outcomes, since, i)
        ensures waits[i] == Min(base * Pow2(i - since), max)
      {
        WaitSince(base, max, outcomes, since, i);
      }
    }
  }

  // ---------------------------------------------------------------- flow drop accounting

  // `sent` counts the senders that have put a drop on the channel and not yet counted it.
  datatype State<T> = State(buffer: seq<T>, consumed: seq<T>, sent: nat, flowDrops: nat)

  datatype Step<T> = Send(drop: T) | Count | Receive

  ghost predicate Enabled<T>(s: State<T>, step: Step<T>) {
    match step
    case Send(_) => true
    case Count => s.sent > 0
    case Receive => s.buffer != []
  }

  /** A drop offered to a full channel is discarded; the counter is a 64-bit unsigned one. */
  function Next<T>(size: nat, s: State<T>, step: Step<T>): State<T>
    requires step.Count? ==> s.sent > 0
    requires step.Receive? ==> s.buffer != []
  {
    match step
    case Send(drop) => if |s.buffer| < size then s.(buffer := s.buffer + [drop], sent := s.sent + 1) else s
    case Count => s.(sent := s.sent - 1, flowDrops := (s.flowDrops + 1) % TWO_64)
    case Receive => s.(buffer := s.buffer[1..], consumed := s.consumed + [s.buffer[0]])
  }

  ghost predicate IsRun<T>(size: nat, states: seq<State<T>>, steps: seq<Step<T>>) {
    && |states| == |steps| + 1 && states[0] == State([], [], 0, 0)
    && forall i | 0 <= i < |steps| :: Enabled(states[i], steps[i]) && states[i + 1] == Next(size, states[i], steps[i])
  }

  /** The drops that found room on the channel, in order. */
  ghost function Accepted<T>(size: nat, states: seq<State<T>>, steps: seq<Step<T>>): seq<T>
    requires |states| >= |steps|
  {
    if steps == [] then []
    else
      var last := |steps| - 1;
      Accepted(size, states, steps[..last]) +
      if steps[last].Send? && |states[last].buffer| < size then [steps[last].drop] else []
  }

  ghost predicate Accounts<T>(size: nat, s: State<T>, accepted: seq<T>) {
    && |s.buffer| <= size
    && s.consumed + s.buffer == accepted
    && s.sent <= |accepted|
    && s.flowDrops == (|accepted| - s.sent) % TWO_64
  }

  lemma StepAccounts<T>(size: nat, s: State<T>, accepted: seq<T>, step: Step<T>)
    requires Accounts(size, s, accepted) && Enabled(s, step)
    ensures Accounts(size, Next(size, s, step),
                     accepted + if step.Send? && |s.buffer| < size then [step.drop] else [])
  {
    match step
    case Send(drop) =>
      assert s.consumed + (s.buffer + [drop]) == s.consumed + s.buffer + [drop];
      assert accepted + [] == accepted;
    case Count =>
      CountWraps(|accepted| - s.sent);
      assert accepted + [] == accepted;
    case Receive =>
      assert s.consumed + s.buffer == s.consumed + [s.buffer[0]] + s.buffer[1..];
      assert accepted + [] == accepted;
  }

  /**
   In every run the channel stays within its size and passes the accepted drops on in order, and the
   counter is the number consumed plus the number buffered, less those sent but not yet counted.
   */
  lemma {:induction false} DropsAreAccounted<T>(size: nat, states: seq<State<T>>, steps: seq<Step<T>>, i: nat)
    requires IsRun(size, states, steps) && i < |states|
    ensures Accounts(size, states[i], Accepted(size, states, steps[..i]))
  {
    if i == 0 {
      assert steps[..0] == [];
    } else {
      DropsAreAccounted(size, states, steps, i - 1);
      assert steps[..i][..i - 1] == steps[..i - 1];
      StepAccounts(size, states[i - 1], Accepted(size, states, steps[..i - 1]), steps[i - 1]);
    }
  }

  lemma CountWraps(n: nat)
    ensures (n % TWO_64 + 1) % TWO_64 == (n + 1) % TWO_64
  {
  }

  class FlowChannel<T> {
    const size: nat
    var buffer: seq<T>
    var flowDrops: nat
    ghost var consumed: seq<T>

    ghost predicate Valid()
      reads this
    {
      |buffer| <= size && flowDrops == (|consumed| + |buffer|) % TWO_64
    }

    constructor (size: nat)
      ensures Valid() && this.size == size && buffer == [] && consumed == [] && flowDrops == 0
    {
      this.size := size;
      buffer, flowDrops, consumed := [], 0, [];
    }

    /** Never blocks; a drop that finds the channel full is discarded and not counted. */
    method RecordFlowDrop(drop: T)
      requires Valid()
      modifies this
      ensures Valid() && consumed == old(consumed)
      ensures buffer == if |old(buffer)| < size then old(buffer) + [drop] else old(buffer)
    {
      if |buffer| < size {
        buffer := buffer + [drop];
        CountWraps(|consumed| + |buffer| - 1);
        flowDrops := (flowDrops + 1) % TWO_64;
      }
    }

    method Receive() returns (drop: T)
      requires Valid() && buffer != []
      modifies this
      ensures Valid() && drop == old(buffer)[0]
      ensures buffer == old(buffer)[1..] && consumed == old(consumed) + [drop]
    {
      drop := buffer[0];
      buffer, consumed := buffer[1..], consumed + [drop];
    }
  }
}
