/**
 The requirement evaluator's debounce: a missing companion resource is reported only once it has
 been missing for a while, and entries that are too old are forgotten.
 */
module Requirements {
  import opened Kube
  import opened Clocks

  datatype Workload = Workload(uid: string, namespace: string, name: string)

  /** What one rule says about one workload: an error, or the constraints for what is missing. */
  datatype Outcome = Failed | Found(constraints: seq<Constraint>)

  // One rule applied to one workload, or one pass of the periodic cleanup. Evaluations may run
  // concurrently, so the times of successive steps need not grow.
  datatype Step = Check(workload: string, rule: string, outcome: Outcome, now: int) | Cleanup(now: int)

  function Identity(w: Workload): string {
    if w.uid == "" then w.namespace + "/" + w.name else w.uid
  }

  function Key(workload: string, rule: string): string {
    workload + ":" + rule
  }

  lemma ColonsMakeKeysAmbiguous()
    ensures Key("a", "b:c") == Key("a:b", "c")
  {
  }

  /** The longer name is something, a colon, and the shorter name. */
  predicate EndsIn(long: string, short: string) {
    |short| < |long| && long == long[..|long| - |short| - 1] + ":" + short
  }

  lemma ClashEnds(a: string, r: string, b: string, s: string)
    requires Key(a, r) == Key(b, s) && |a| < |b|
    ensures EndsIn(r, s)
  {
    var k := Key(a, r);
    assert r == k[|a| + 1..] && s == k[|b| + 1..] && k[|b|] == ':';
    assert r[|r| - |s| - 1] == k[|b|];
    assert r[|r| - |s|..] == s;
  }

  /** Rules whose names do not end in each other, such as names without colons, never share a key. */
  lemma KeyInjective(a: string, r: string, b: string, s: string)
    requires Key(a, r) == Key(b, s) && !EndsIn(r, s) && !EndsIn(s, r)
    ensures a == b && r == s
  {
    if |a| < |b| {
      ClashEnds(a, r, b, s);
    } else if |b| < |a| {
      ClashEnds(b, s, a, r);
    }
    assert a == Key(a, r)[..|a|] && r == Key(a, r)[|a| + 1..];
    assert b == Key(b, s)[..|b|] && s == Key(b, s)[|b| + 1..];
  }

  lemma LongerRuleClashes(long: string, short: string)
    requires EndsIn(long, short)
    ensures exists a, b :: Key(a, long) == Key(b, short)
  {
    assert Key("", long) == Key(":" + long[..|long| - |short| - 1], short);
  }

  /** Two rules share a key for some workloads exactly if one's name ends in a colon and the other's name. */
  lemma RulesClashIff(r: string, s: string)
    requires r != s
    ensures (exists a, b :: Key(a, r) == Key(b, s)) <==> EndsIn(r, s) || EndsIn(s, r)
  {
    if EndsIn(r, s) {
      LongerRuleClashes(r, s);
    } else if EndsIn(s, r) {
      LongerRuleClashes(s, r);
    } else if a, b :| Key(a, r) == Key(b, s) {
      KeyInjective(a, r, b, s);
    }
  }

  predicate Missing(step: Step) {
    step.Check? && step.outcome.Found? && step.outcome.constraints != []
  }

  predicate Clears(step: Step, key: string) {
    step.Check? && Key(step.workload, step.rule) == key && step.outcome == Found([])
  }

  ghost function Next(duration: int, firstSeen: map<string, int>, step: Step): map<string, int> {
    match step
    case Check(workload, rule, outcome, now) =>
      var key := Key(workload, rule);
      if Clears(step, key) then firstSeen - {key}
      else if Missing(step) && key !in firstSeen then firstSeen[key := now]
      else firstSeen
    case Cleanup(now) => map k | k in firstSeen && !(now - firstSeen[k] > 2 * duration) :: firstSeen[k]
  }

  /** The constraints a step reports. */
  function Emits(duration: int, firstSeen: map<string, int>, step: Step): seq<Constraint> {
    if !Missing(step) then []
    else
      var key := Key(step.workload, step.rule);
      var since := if key in firstSeen then firstSeen[key] else step.now;
      if step.now - since >= duration then step.outcome.constraints else []
  }

  ghost predicate IsRun(duration: int, states: seq<map<string, int>>, steps: seq<Step>) {
    && |states| == |steps| + 1 && states[0] == map[]
    && forall i | 0 <= i < |steps| :: states[i + 1] == Next(duration, states[i], steps[i])
  }

  // ---------------------------------------------------------------- soundness

  /** Step j found the key missing at the given time, and no step before i found it present since. */
  ghost predicate MissingSince(steps: seq<Step>, key: string, at: int, j: nat, i: nat) {
    && j < i <= |steps| && Missing(steps[j]) && Key(steps[j].workload, steps[j].rule) == key && steps[j].now == at
    && forall k | j <= k < i :: !Clears(steps[k], key)
  }

  /** Every entry was made by a step that found the key missing, and it has been missing since. */
  lemma {:induction false} EntriesAreSound(duration: int, states: seq<map<string, int>>, steps: seq<Step>, i: nat, key: string)
      returns (j: nat)
    requires IsRun(duration, states, steps) && i < |states| && key in states[i]
    ensures MissingSince(steps, key, states[i][key], j, i)
  {
    var step := steps[i - 1];
    if key in states[i - 1] && states[i - 1][key] == states[i][key] && !Clears(step, key) {
      j := EntriesAreSound(duration, states, steps, i - 1, key);
    } else {
      j := i - 1;
    }
  }

  /**
   Whatever is reported was found missing by the same rule for the same workload at least the
   debounce duration earlier, and was never found present in between.
   */
  lemma ReportsAreDebounced(duration: int, states: seq<map<string, int>>, steps: seq<Step>, i: nat) returns (j: nat)
    requires IsRun(duration, states, steps) && i < |steps| && Emits(duration, states[i], steps[i]) != []
    requires forall s, t | s in steps && t in steps && s.Check? && t.Check? :: !EndsIn(s.rule, t.rule)
    ensures j <= i && Missing(steps[j]) && steps[j].workload == steps[i].workload && steps[j].rule == steps[i].rule
    ensures steps[i].now - steps[j].now >= duration
    ensures forall k | j <= k < i && steps[k].Check? && steps[k].workload == steps[i].workload &&
                       steps[k].rule == steps[i].rule :: steps[k].outcome != Found([])
  {
    var key := Key(steps[i].workload, steps[i].rule);
    if key in states[i] {
      j := EntriesAreSound(duration, states, steps, i, key);
      assert steps[i] in steps && steps[j] in steps;
      KeyInjective(steps[i].workload, steps[i].rule, steps[j].workload, steps[j].rule);
    } else {
      j := i;
    }
  }

  // ---------------------------------------------------------------- completeness

  /** While a key stays missing and no cleanup runs too late, its entry keeps the time of the first sighting. */
  lemma {:induction false} EntryStays(duration: int, states: seq<map<string, int>>, steps: seq<Step>, j: nat, i: nat)
    requires IsRun(duration, states, steps) && j < i < |states| && Missing(steps[j])
    requires var key := Key(steps[j].workload, steps[j].rule);
             && key !in states[j]
             && (forall k | j < k < i :: !Clears(steps[k], key))
             && forall k | j < k < i && steps[k].Cleanup? :: steps[k].now - steps[j].now <= 2 * duration
    ensures var key := Key(steps[j].workload, steps[j].rule);
            key in states[i] && states[i][key] == steps[j].now
  {
    if i > j + 1 {
      EntryStays(duration, states, steps, j, i - 1);
      assert !Clears(steps[i - 1], Key(steps[j].workload, steps[j].rule));
    }
  }

  /**
   A key first recorded missing at t0 and never found present is reported by every successful
   evaluation from t0 + D on, as long as no cleanup ran after t0 + 2D.
   */
  lemma MissingIsReported(duration: int, states: seq<map<string, int>>, steps: seq<Step>, j: nat, i: nat)
    requires IsRun(duration, states, steps) && j < i < |steps| && Missing(steps[j]) && Missing(steps[i])
    requires steps[j].workload == steps[i].workload && steps[j].rule == steps[i].rule
    requires var key := Key(steps[j].workload, steps[j].rule);
             key !in states[j] && forall k | j < k < i :: !Clears(steps[k], key)
    requires duration <= steps[i].now - steps[j].now
    requires forall k | j < k < i && steps[k].Cleanup? :: steps[k].now - steps[j].now <= 2 * duration
    ensures Emits(duration, states[i], steps[i]) == steps[i].outcome.constraints
  {
    EntryStays(duration, states, steps, j, i);
  }

  /** In particular by every one between t0 + D and t0 + 2D, however cleanups interleave. */
  lemma MissingIsReportedInTime(duration: int, states: seq<map<string, int>>, steps: seq<Step>, j: nat, i: nat)
    requires IsRun(duration, states, steps) && j < i < |steps| && Missing(steps[j]) && Missing(steps[i])
    requires steps[j].workload == steps[i].workload && steps[j].rule == steps[i].rule
    requires var key := Key(steps[j].workload, steps[j].rule);
             key !in states[j] && forall k | j < k < i :: !Clears(steps[k], key)
    requires duration <= steps[i].now - steps[j].now <= 2 * duration
    requires forall k | j < k < i && steps[k].Cleanup? :: steps[k].now <= steps[i].now
    ensures Emits(duration, states[i], steps[i]) == steps[i].outcome.constraints
  {
    MissingIsReported(duration, states, steps, j, i);
  }

  /** After a cleanup past t0 + 2D, an entry is younger than t0. */
  lemma {:induction false} LateCleanupForgets(duration: int, states: seq<map<string, int>>, steps: seq<Step>, key: string, t0: int, k: nat, i: nat)
    requires IsRun(duration, states, steps) && k < i < |states| && duration >= 0
    requires steps[k].Cleanup? && steps[k].now - t0 > 2 * duration
    requires forall m | k <= m < i :: steps[k].now <= steps[m].now
    ensures key in states[i] ==> states[i][key] > t0
  {
    if i > k + 1 {
      LateCleanupForgets(duration, states, steps, key, t0, k, i - 1);
      assert steps[k].now <= steps[i - 1].now;
    }
  }

  /**
   With time going forward, the entry of a key that stays missing keeps the time of the first sighting
   exactly as long as no cleanup runs more than twice the duration later.
   */
  lemma EntryStaysIff(duration: int, states: seq<map<string, int>>, steps: seq<Step>, j: nat, i: nat)
    requires IsRun(duration, states, steps) && j < i < |states| && Missing(steps[j]) && duration >= 0
    requires forall k, m | j <= k < m < i :: steps[k].now <= steps[m].now
    requires var key := Key(steps[j].workload, steps[j].rule);
             key !in states[j] && forall k | j < k < i :: !Clears(steps[k], key)
    ensures var key := Key(steps[j].workload, steps[j].rule);
            (key in states[i] && states[i][key] == steps[j].now) <==>
            forall k | j < k < i && steps[k].Cleanup? :: steps[k].now - steps[j].now <= 2 * duration
  {
    var key := Key(steps[j].workload, steps[j].rule);
    if k :| j < k < i && steps[k].Cleanup? && steps[k].now - steps[j].now > 2 * duration {
      LateCleanupForgets(duration, states, steps, key, steps[j].now, k, i);
    } else {
      EntryStays(duration, states, steps, j, i);
    }
  }

  /** The step evaluates the key and finds it missing. */
  predicate Sees(step: Step, key: string) {
    Missing(step) && Key(step.workload, step.rule) == key
  }

  predicate Late(duration: int, step: Step, t0: int) {
    step.Cleanup? && step.now - t0 > 2 * duration
  }

  /** A key that is not recorded stays so until a step sees it. */
  lemma {:induction false} AbsentUntilSeen(duration: int, states: seq<map<string, int>>, steps: seq<Step>, key: string, k: nat, i: nat)
    requires IsRun(duration, states, steps) && k <= i < |states| && key !in states[k]
    requires forall m | k <= m < i :: !Sees(steps[m], key)
    ensures key !in states[i]
  {
    if i > k {
      AbsentUntilSeen(duration, states, steps, key, k, i - 1);
      assert !Sees(steps[i - 1], key);
    }
  }

  /** The first evaluation after the first late cleanup reports nothing. */
  lemma {:induction false} SilentAfterLate(duration: int, states: seq<map<string, int>>, steps: seq<Step>, j: nat, k: nat, i: nat)
      returns (silent: nat)
    requires IsRun(duration, states, steps) && j < k < i < |steps| && Missing(steps[j]) && duration > 0
    requires var key := Key(steps[j].workload, steps[j].rule);
             && key !in states[j] && Sees(steps[i], key)
             && forall m | j < m < |steps| :: !Clears(steps[m], key)
    requires Late(duration, steps[k], steps[j].now)
    ensures j < silent <= i
    ensures Sees(steps[silent], Key(steps[j].workload, steps[j].rule)) && Emits(duration, states[silent], steps[silent]) == []
    ensures exists late | j < late < silent :: Late(duration, steps[late], steps[j].now)
    decreases k, i
  {
    var key := Key(steps[j].workload, steps[j].rule);
    if late :| j < late < k && Late(duration, steps[late], steps[j].now) {
      silent := SilentAfterLate(duration, states, steps, j, late, i);
    } else if seen :| k < seen < i && Sees(steps[seen], key) {
      silent := SilentAfterLate(duration, states, steps, j, k, seen);
    } else {
      EntryStays(duration, states, steps, j, k);
      AbsentUntilSeen(duration, states, steps, key, k + 1, i);
      silent := i;
    }
  }

  /**
   Exactly when a resource that stays missing is reported without interruption. With time going forward,
   every evaluation from t0 + D on that finds it missing reports it, if and only if none of them follows a
   cleanup later than t0 + 2D.
   */
  lemma ReportedThroughoutIff(duration: int, states: seq<map<string, int>>, steps: seq<Step>, j: nat)
    requires IsRun(duration, states, steps) && j < |steps| && Missing(steps[j]) && duration > 0
    requires forall k, m | j <= k < m < |steps| :: steps[k].now <= steps[m].now
    requires var key := Key(steps[j].workload, steps[j].rule);
             key !in states[j] && forall k | j < k < |steps| :: !Clears(steps[k], key)
    ensures var key, t0 := Key(steps[j].workload, steps[j].rule), steps[j].now;
            (forall i | j < i < |steps| && Sees(steps[i], key) && steps[i].now - t0 >= duration ::
               Emits(duration, states[i], steps[i]) == steps[i].outcome.constraints) <==>
            forall k, i | j < k < i < |steps| && Late(duration, steps[k], t0) :: !Sees(steps[i], key)
  {
    var key, t0 := Key(steps[j].workload, steps[j].rule), steps[j].now;
    if k, i :| j < k < i < |steps| && Late(duration, steps[k], t0) && Sees(steps[i], key) {
      var silent := SilentAfterLate(duration, states, steps, j, k, i);
      var late :| j < late < silent && Late(duration, steps[late], t0);
      assert steps[late].now <= steps[silent].now;
    } else {
      forall i | j < i < |steps| && Sees(steps[i], key) && steps[i].now - t0 >= duration
        ensures Emits(duration, states[i], steps[i]) == steps[i].outcome.constraints
      {
        assert forall k | j < k < i && steps[k].Cleanup? :: !Late(duration, steps[k], t0);
        EntryStays(duration, states, steps, j, i);
      }
    }
  }

  lemma {:induction false} DroppedIsYounger(duration: int, states: seq<map<string, int>>, steps: seq<Step>, key: string, k: nat, i: nat)
    requires IsRun(duration, states, steps) && k < i < |states| && key !in states[k + 1]
    requires forall m | k < m < i :: steps[k].now <= steps[m].now
    ensures key in states[i] ==> states[i][key] >= steps[k].now
  {
    if i > k + 1 {
      DroppedIsYounger(duration, states, steps, key, k, i - 1);
      assert steps[k].now <= steps[i - 1].now;
    }
  }

  /** A cleanup that finds an entry too old silences its key for a whole duration. */
  lemma LateCleanupSilences(duration: int, states: seq<map<string, int>>, steps: seq<Step>, k: nat, i: nat)
    requires IsRun(duration, states, steps) && k < i < |steps| && steps[k].Cleanup? && steps[i].Check?
    requires forall m | k < m <= i :: steps[k].now <= steps[m].now
    requires var key := Key(steps[i].workload, steps[i].rule);
             key in states[k] && steps[k].now - states[k][key] > 2 * duration
    requires steps[i].now - steps[k].now < duration
    ensures Emits(duration, states[i], steps[i]) == []
  {
    DroppedIsYounger(duration, states, steps, Key(steps[i].workload, steps[i].rule), k, i);
  }

  /** Past t0 + 2D a cleanup can interrupt the reports of a resource that is still missing. */
  lemma CleanupInterruptsReports(duration: int, c: Constraint) returns (states: seq<map<string, int>>, steps: seq<Step>)
    requires duration > 0
    ensures IsRun(duration, states, steps) && |steps| == 3 && steps[1].Cleanup?
    ensures Missing(steps[0]) && Missing(steps[2]) && steps[0].(now := 0) == steps[2].(now := 0)
    ensures steps[2].now - steps[0].now == 2 * duration + 1
    ensures Emits(duration, states[2], steps[2]) == [] != Emits(duration, states[1], steps[2])
  {
    var late := 2 * duration + 1;
    var first := Check("w", "r", Found([c]), 0);
    steps := [first, Cleanup(late), first.(now := late)];
    var a := Next(duration, map[], steps[0]);
    var b := Next(duration, a, steps[1]);
    states := [map[], a, b, Next(duration, b, steps[2])];
    assert a == map[Key("w", "r") := 0];
    assert b == map[];
  }

  // ---------------------------------------------------------------- the evaluator in place

  /** The steps one evaluation takes: its rules in order, all with the same reading of the clock. */
  function Checks(workload: string, rules: seq<string>, outcomes: seq<Outcome>, now: int): seq<Step>
    requires |rules| == |outcomes|
  {
    seq(|rules|, i requires 0 <= i < |rules| => Check(workload, rules[i], outcomes[i], now))
  }

  ghost function After(duration: int, firstSeen: map<string, int>, steps: seq<Step>): map<string, int> {
    if steps == [] then firstSeen
    else Next(duration, After(duration, firstSeen, steps[..|steps| - 1]), steps[|steps| - 1])
  }

  ghost function Reports(duration: int, firstSeen: map<string, int>, steps: seq<Step>): seq<Constraint> {
    if steps == [] then []
    else
      var front := steps[..|steps| - 1];
      Reports(duration, firstSeen, front) + Emits(duration, After(duration, firstSeen, front), steps[|steps| - 1])
  }

  /** Evaluating other rules leaves a rule's entry alone. */
  lemma {:induction false} OtherRulesLeave(duration: int, firstSeen: map<string, int>, steps: seq<Step>, key: string)
    requires forall s | s in steps :: s.Check? && Key(s.workload, s.rule) != key
    ensures var after := After(duration, firstSeen, steps);
            (key in after <==> key in firstSeen) && (key in after ==> after[key] == firstSeen[key])
  {
    if steps != [] {
      var front := steps[..|steps| - 1];
      assert steps[|steps| - 1] in steps && forall s | s in front :: s in steps;
      OtherRulesLeave(duration, firstSeen, front, key);
    }
  }

  ghost predicate EmitsAt(duration: int, firstSeen: map<string, int>, steps: seq<Step>, i: nat, c: Constraint)
    requires i < |steps|
  {
    c in Emits(duration, After(duration, firstSeen, steps[..i]), steps[i])
  }

  lemma EmitsAtPrefix(duration: int, firstSeen: map<string, int>, steps: seq<Step>, n: nat, i: nat, c: Constraint)
    requires i < n <= |steps|
    ensures EmitsAt(duration, firstSeen, steps[..n], i, c) == EmitsAt(duration, firstSeen, steps, i, c)
  {
    assert steps[..n][..i] == steps[..i];
  }

  /** What is collected is exactly what the steps emit. */
  lemma {:induction false} ReportsExactly(duration: int, firstSeen: map<string, int>, steps: seq<Step>, c: Constraint)
    ensures c in Reports(duration, firstSeen, steps) <==> exists i | 0 <= i < |steps| :: EmitsAt(duration, firstSeen, steps, i, c)
  {
    if steps != [] {
      var last := |steps| - 1;
      ReportsExactly(duration, firstSeen, steps[..last], c);
      assert c in Reports(duration, firstSeen, steps) <==>
             c in Reports(duration, firstSeen, steps[..last]) || EmitsAt(duration, firstSeen, steps, last, c);
      forall i | 0 <= i < last
        ensures EmitsAt(duration, firstSeen, steps[..last], i, c) == EmitsAt(duration, firstSeen, steps, i, c)
      {
        EmitsAtPrefix(duration, firstSeen, steps, last, i, c);
      }
    }
  }

  /** When the rule was first seen to miss something, told from the entries before the evaluation. */
  function Since(firstSeen: map<string, int>, key: string, now: int): int {
    if key in firstSeen then firstSeen[key] else now
  }

  /** If the rules have different names, each reports by its own entry: what it misses now, if that was first seen a duration ago. */
  lemma ReportedIff(duration: int, firstSeen: map<string, int>, id: string, rules: seq<string>, outcomes: seq<Outcome>, now: int, c: Constraint)
    requires |rules| == |outcomes| && forall i, j | 0 <= i < j < |rules| :: rules[i] != rules[j]
    ensures c in Reports(duration, firstSeen, Checks(id, rules, outcomes, now)) <==>
            exists i | 0 <= i < |rules| ::
              outcomes[i].Found? && c in outcomes[i].constraints && now - Since(firstSeen, id + ":" + rules[i], now) >= duration
  {
    var steps := Checks(id, rules, outcomes, now);
    ReportsExactly(duration, firstSeen, steps, c);
    forall i | 0 <= i < |rules|
      ensures EmitsAt(duration, firstSeen, steps, i, c) <==>
              outcomes[i].Found? && c in outcomes[i].constraints && now - Since(firstSeen, id + ":" + rules[i], now) >= duration
    {
      RuleEmitsIff(duration, firstSeen, id, rules, outcomes, now, c, i);
    }
  }

  lemma RuleEmitsIff(duration: int, firstSeen: map<string, int>, id: string, rules: seq<string>, outcomes: seq<Outcome>, now: int,
                     c: Constraint, i: nat)
    requires |rules| == |outcomes| && i < |rules| && forall i, j | 0 <= i < j < |rules| :: rules[i] != rules[j]
    ensures var steps := Checks(id, rules, outcomes, now);
            EmitsAt(duration, firstSeen, steps, i, c) <==>
            outcomes[i].Found? && c in outcomes[i].constraints && now - Since(firstSeen, id + ":" + rules[i], now) >= duration
  {
    var steps := Checks(id, rules, outcomes, now);
    forall s | s in steps[..i]
      ensures s.Check? && Key(s.workload, s.rule) != Key(id, rules[i])
    {
      var j :| 0 <= j < i && steps[j] == s;
      assert Key(id, rules[j])[|id| + 1..] == rules[j] && Key(id, rules[i])[|id| + 1..] == rules[i];
    }
    OtherRulesLeave(duration, firstSeen, steps[..i], Key(id, rules[i]));
  }

  class Evaluator {
    const duration: int
    const rules: seq<string>
    const clock: Clock
    var firstSeen: map<string, int>

    constructor (duration: int, rules: seq<string>, clock: Clock)
      ensures this.duration == duration && this.rules == rules && this.clock == clock && firstSeen == map[]
    {
      this.duration, this.rules, this.clock := duration, rules, clock;
      firstSeen := map[];
    }

    /** `outcomes` are the answers of the rules, which look at the cluster. */
    method Evaluate(workload: Option<Workload>, outcomes: seq<Outcome>) returns (result: seq<Constraint>)
      requires |outcomes| == |rules|
      modifies this, clock
      ensures workload.None? ==> result == [] && firstSeen == old(firstSeen)
      ensures workload.Some? ==>
                var steps := Checks(Identity(workload.value), rules, outcomes, clock.now);
                && old(clock.now) <= clock.now
                && firstSeen == After(duration, old(firstSeen), steps)
                && result == Reports(duration, old(firstSeen), steps)
      ensures workload.Some? && (forall i, j | 0 <= i < j < |rules| :: rules[i] != rules[j]) ==>
                var w := workload.value;
                var id := if w.uid != "" then w.uid else w.namespace + "/" + w.name;
                forall c :: c in result <==>
                  exists i | 0 <= i < |rules| ::
                    outcomes[i].Found? && c in outcomes[i].constraints &&
                    clock.now - Since(old(firstSeen), id + ":" + rules[i], clock.now) >= duration
    {
      result := [];
      if workload.None? {
        return;
      }
      var id := Identity(workload.value);
      var now := clock.Read();
      ghost var steps := Checks(id, rules, outcomes, now);
      for i := 0 to |rules|
        invariant clock.now == now
        invariant firstSeen == After(duration, old(firstSeen), steps[..i])
        invariant result == Reports(duration, old(firstSeen), steps[..i])
      {
        assert steps[..i + 1][..i] == steps[..i];
        var emitted := Apply(id, rules[i], outcomes[i], now);
        result := result + emitted;
      }
      assert steps[..|rules|] == steps;
      if forall i, j | 0 <= i < j < |rules| :: rules[i] != rules[j] {
        forall c
          ensures c in result <==>
                  exists i | 0 <= i < |rules| ::
                    outcomes[i].Found? && c in outcomes[i].constraints && now - Since(old(firstSeen), id + ":" + rules[i], now) >= duration
        {
          ReportedIff(duration, old(firstSeen), id, rules, outcomes, now, c);
        }
      }
    }

    /** One iteration of the evaluation. */
    method Apply(id: string, rule: string, outcome: Outcome, now: int) returns (emitted: seq<Constraint>)
      modifies this
      ensures firstSeen == Next(duration, old(firstSeen), Check(id, rule, outcome, now))
      ensures emitted == Emits(duration, old(firstSeen), Check(id, rule, outcome, now))
    {
      emitted := [];
      if outcome.Failed? {
        return;
      }
      var key := Key(id, rule);
      if |outcome.constraints| == 0 {
        firstSeen := firstSeen - {key};
        return;
      }
      if key !in firstSeen {
        firstSeen := firstSeen[key := now];
      }
      if now - firstSeen[key] >= duration {
        emitted := outcome.constraints;
      }
    }

    method CleanupStaleEntries()
      modifies this, clock
      ensures old(clock.now) <= clock.now
      ensures firstSeen == Next(duration, old(firstSeen), Cleanup(clock.now))
    {
      var now := clock.Read();
      var cutoff := 2 * duration;
      var todo := firstSeen.Keys;
      ghost var was := firstSeen;
      while todo != {}
        invariant todo <= was.Keys && clock.now == now
        invariant firstSeen == map k | k in was && (k in todo || !(now - was[k] > cutoff)) :: was[k]
        decreases todo
      {
        var k :| k in todo;
        if now - firstSeen[k] > cutoff {
          firstSeen := firstSeen - {k};
        }
        todo := todo - {k};
      }
    }
  }
}
