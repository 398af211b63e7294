/**
 The protocol that keeps every namespace's report in agreement with the constraint index.

 Index writers change the index under its lock and call the reconciler back later, outside the
 lock. The reconciler collects triggers, and on a timer swaps them out, lists namespaces, requeues
 what it reconciled too recently, reads the index and writes reports. Each lock-protected section
 and each API call is one step; steps of all the goroutines interleave freely.
 */
module ReportProtocol {
  import opened Kube
  import opened Indexing

  /** What does not change during a run. */
  datatype Cluster = Cluster(namespaces: set<string>, debounce: int)

  /** Where the reconciler's goroutine stands in its pass. */
  datatype Phase =
    | Idle
    | Listing(clusterWide: bool)
    | Working
    | Writing(ns: string, snapshot: set<Constraint>)
    | Recording(ns: string)

  datatype State = State(
    index: Index,
    undelivered: multiset<Constraint>,      // changed in the index, callback still to run
    pending: set<string>,
    clusterWide: bool,
    work: set<string>,                      // triggers swapped out, not yet handled in this pass
    phase: Phase,
    reports: map<string, set<Constraint>>,
    lastReconcile: map<string, int>,
    now: int)

  datatype Step =
    // index writers
    | Upsert(c: Constraint) | Delete(uid: string) | DeleteSource(gvr: GVR)
    // the callback of an earlier index change
    | Deliver(c: Constraint)
    | Advance(to: int)
    // the reconciler's pass
    | Swap | List | Requeue(ns: string) | Read(ns: string) | Write | Record | Finish
    // failing API calls; a Create on a kind with a status subresource stores no status
    | ListFails | WriteFails | CreateLosesStatus

  // ---------------------------------------------------------------- the callback

  predicate NotifiesAll(c: Constraint) {
    c.namespace == "" && c.affected == []
  }

  function Triggers(c: Constraint): set<string> {
    (set ns | ns in c.affected) + (if c.namespace != "" then {c.namespace} else {})
  }

  /** Whether the callback for c makes the reconciler visit ns. */
  predicate Notifies(c: Constraint, ns: string) {
    NotifiesAll(c) || ns in Triggers(c)
  }

  function Triggered(s: State, c: Constraint): State {
    if NotifiesAll(c) then s.(clusterWide := true) else s.(pending := s.pending + Triggers(c))
  }

  // ---------------------------------------------------------------- steps

  predicate Debounced(k: Cluster, s: State, ns: string) {
    ns in s.lastReconcile && s.now - s.lastReconcile[ns] < k.debounce
  }

  predicate Mutates(step: Step) {
    step.Upsert? || step.Delete? || step.DeleteSource?
  }

  predicate Fails(step: Step) {
    step.ListFails? || step.WriteFails? || step.CreateLosesStatus?
  }

  /** The index after a writer's step. */
  ghost function Mutated(index: Index, step: Step): Index
    requires Mutates(step)
  {
    match step
    case Upsert(c) => index[c.uid := c]
    case Delete(uid) => index - {uid}
    case DeleteSource(gvr) => index - FromSource(index, gvr)
  }

  /** The constraints carried by the callbacks of a writer's step. */
  ghost function Emits(index: Index, step: Step): set<Constraint>
    requires Mutates(step)
  {
    match step
    case Upsert(c) => {c}
    case Delete(uid) => if uid in index then {index[uid]} else {}
    case DeleteSource(gvr) => set u | u in FromSource(index, gvr) :: index[u]
  }

  ghost predicate Enabled(k: Cluster, s: State, step: Step) {
    match step
    case Deliver(c) => c in s.undelivered
    case Advance(to) => s.now <= to
    case Swap => s.phase.Idle?
    case List => s.phase.Listing?
    case ListFails => s.phase == Listing(true)
    case Requeue(ns) => s.phase.Working? && ns in s.work && Debounced(k, s, ns)
    case Read(ns) => s.phase.Working? && ns in s.work && !Debounced(k, s, ns)
    case Write => s.phase.Writing?
    case WriteFails => s.phase.Writing?
    case CreateLosesStatus => s.phase.Writing? && s.phase.ns !in s.reports
    case Record => s.phase.Recording?
    case Finish => s.phase.Working? && s.work == {}
    case _ => true
  }

  ghost function Next(k: Cluster, s: State, step: Step): State
    requires Enabled(k, s, step)
  {
    match step
    case Deliver(c) => Triggered(s.(undelivered := s.undelivered - multiset{c}), c)
    case Advance(to) => s.(now := to)
    case Swap =>
      s.(work := s.pending, phase := Listing(s.clusterWide), pending := {}, clusterWide := false)
    case List =>
      s.(work := s.work + (if s.phase.clusterWide then k.namespaces else {}), phase := Working)
    case ListFails => s.(phase := Working)
    case Requeue(ns) => s.(work := s.work - {ns}, pending := s.pending + {ns})
    case Read(ns) => s.(work := s.work - {ns}, phase := Writing(ns, ByNamespace(s.index, ns)))
    case Write => s.(reports := s.reports[s.phase.ns := s.phase.snapshot], phase := Recording(s.phase.ns))
    case WriteFails => s.(phase := Working)
    case CreateLosesStatus => s.(reports := s.reports[s.phase.ns := {}], phase := Recording(s.phase.ns))
    case Record => s.(lastReconcile := s.lastReconcile[s.phase.ns := s.now], phase := Working)
    case Finish => s.(phase := Idle)
    case _ =>
      s.(index := Mutated(s.index, step),
         undelivered := s.undelivered + multiset(Emits(s.index, step)))
  }

  /** An interleaving: the states a sequence of steps goes through. */
  ghost predicate IsRun(k: Cluster, states: seq<State>, steps: seq<Step>) {
    && |states| == |steps| + 1
    && forall i | 0 <= i < |steps| ::
         Enabled(k, states[i], steps[i]) && states[i + 1] == Next(k, states[i], steps[i])
  }

  /** Some run of the given steps goes from s to t. */
  ghost predicate Leads(k: Cluster, s: State, steps: seq<Step>, t: State) {
    exists states :: IsRun(k, states, steps) && states[0] == s && states[|steps|] == t
  }

  lemma StepLeads(k: Cluster, s: State, step: Step)
    requires Enabled(k, s, step)
    ensures Leads(k, s, [step], Next(k, s, step))
  {
    assert IsRun(k, [s, Next(k, s, step)], [step]);
  }

  lemma LeadsOn(k: Cluster, s: State, first: seq<Step>, t: State, second: seq<Step>, u: State)
    requires Leads(k, s, first, t) && Leads(k, t, second, u)
    ensures Leads(k, s, first + second, u)
  {
    var a :| IsRun(k, a, first) && a[0] == s && a[|first|] == t;
    var b :| IsRun(k, b, second) && b[0] == t && b[|second|] == u;
    var states, steps := a + b[1..], first + second;
    forall i | 0 <= i < |steps|
      ensures Enabled(k, states[i], steps[i]) && states[i + 1] == Next(k, states[i], steps[i])
    {
      JoinedStep(k, a, first, b, second, i);
    }
    assert IsRun(k, states, steps);
  }

  lemma JoinedStep(k: Cluster, a: seq<State>, first: seq<Step>, b: seq<State>, second: seq<Step>, i: nat)
    requires IsRun(k, a, first) && IsRun(k, b, second) && a[|first|] == b[0] && i < |first + second|
    ensures var states, steps := a + b[1..], first + second;
            Enabled(k, states[i], steps[i]) && states[i + 1] == Next(k, states[i], steps[i])
  {
    var states, steps := a + b[1..], first + second;
    if i < |first| {
      assert states[i] == a[i] && states[i + 1] == a[i + 1] && steps[i] == first[i];
    } else {
      var j := i - |first|;
      assert states[i] == b[j] && states[i + 1] == b[j + 1] && steps[i] == second[j];
    }
  }

  // ---------------------------------------------------------------- agreement

  ghost function Report(s: State, ns: string): set<Constraint> {
    if ns in s.reports then s.reports[ns] else {}
  }

  /** The report of ns, or the one about to be written, is what the index says now. */
  ghost predicate Settled(s: State, ns: string) {
    (if s.phase.Writing? && s.phase.ns == ns then s.phase.snapshot else Report(s, ns))
    == ByNamespace(s.index, ns)
  }

  /** Something still on its way will make the reconciler visit ns. */
  ghost predicate Covered(s: State, ns: string) {
    || ns in s.pending
    || s.clusterWide
    || ns in s.work
    || s.phase == Listing(true)
    || exists c | c in s.undelivered :: Notifies(c, ns)
  }

  ghost predicate Inv(k: Cluster, s: State) {
    && Keyed(s.index)
    && (s.phase.Idle? ==> s.work == {})
    && forall ns | ns in k.namespaces :: Settled(s, ns) || Covered(s, ns)
  }

  ghost predicate Quiescent(s: State) {
    && s.undelivered == multiset{}
    && s.pending == {}
    && !s.clusterWide
    && s.phase.Idle?
    && s.work == {}
  }

  ghost predicate Converged(k: Cluster, s: State) {
    forall ns | ns in k.namespaces :: Report(s, ns) == ByNamespace(s.index, ns)
  }

  // ---------------------------------------------------------------- what a writer must announce

  /** Whether a writer's step changes what the index says about ns, told from the scopes involved. */
  ghost predicate Changes(index: Index, step: Step, ns: string)
    requires Mutates(step)
  {
    match step
    case Upsert(c) =>
      if c.uid in index
      then index[c.uid] != c && (Matches(c, ns) || Matches(index[c.uid], ns))
      else Matches(c, ns)
    case Delete(uid) => uid in index && Matches(index[uid], ns)
    case DeleteSource(gvr) => exists u | u in FromSource(index, gvr) :: Matches(index[u], ns)
  }

  /** The callbacks of a writer's step reach every namespace whose report it outdates. */
  ghost predicate Announces(k: Cluster, index: Index, step: Step)
    requires Mutates(step)
  {
    forall ns | ns in k.namespaces && Changes(index, step, ns) ::
      exists c | c in Emits(index, step) :: Notifies(c, ns)
  }

  /** A run in which no call fails and every index change is announced. */
  ghost predicate Honest(k: Cluster, states: seq<State>, steps: seq<Step>)
    requires IsRun(k, states, steps)
  {
    forall i | 0 <= i < |steps| ::
      !Fails(steps[i]) && (Mutates(steps[i]) ==> Announces(k, states[i].index, steps[i]))
  }

  lemma NotifiesOrMatches(c: Constraint, ns: string)
    requires c.namespace != "" || c.affected == []
    ensures Notifies(c, ns) <==> Matches(c, ns)
  {
  }

  /** Deleting several constraints outdates exactly the namespaces some deleted one matched. */
  lemma DeletesChange(index: Index, gone: set<string>, ns: string)
    requires Keyed(index) && gone <= index.Keys
    ensures ByNamespace(index - gone, ns) != ByNamespace(index, ns) <==>
            exists u | u in gone :: Matches(index[u], ns)
  {
    var after := index - gone;
    if u :| u in gone && Matches(index[u], ns) {
      assert index[u] in ByNamespace(index, ns);
      assert index[u] !in ByNamespace(after, ns);
    } else {
      forall x | x in ByNamespace(index, ns)
        ensures x in ByNamespace(after, ns)
      {
        var u :| u in index && Matches(index[u], ns) && index[u] == x;
        assert u in after && after[u] == x;
      }
    }
  }

  lemma UpsertChanges(index: Index, c: Constraint, ns: string)
    requires Keyed(index)
    ensures ByNamespace(index[c.uid := c], ns) != ByNamespace(index, ns) <==> Changes(index, Upsert(c), ns)
  {
    var rest := index - {c.uid};
    assert index[c.uid := c] == rest[c.uid := c];
    ByNamespaceGrows(rest, ns, c);
    if c.uid in index {
      assert index == rest[c.uid := index[c.uid]];
      ByNamespaceGrows(rest, ns, index[c.uid]);
    } else {
      assert rest == index;
    }
  }

  /** The scope test decides exactly which answers of the index a step changes. */
  lemma ChangesExactly(index: Index, step: Step, ns: string)
    requires Keyed(index) && Mutates(step)
    ensures Changes(index, step, ns) <==> ByNamespace(Mutated(index, step), ns) != ByNamespace(index, ns)
    ensures Keyed(Mutated(index, step))
  {
    match step
    case Upsert(c) => UpsertChanges(index, c, ns);
    case Delete(uid) =>
      if uid in index {
        DeletesChange(index, {uid}, ns);
      } else {
        assert index - {uid} == index;
      }
    case DeleteSource(gvr) => DeletesChange(index, FromSource(index, gvr), ns);
  }

  /**
   The usual way to be honest: no cluster-scoped constraint lists affected namespaces, and a
   replacement reaches every namespace its predecessor reached.
   */
  lemma ScopedWritersAnnounce(k: Cluster, index: Index, step: Step)
    requires Mutates(step) && Scoped(index) && KeepsScope(k, index, step)
    ensures Announces(k, index, step)
  {
    forall ns | ns in k.namespaces && Changes(index, step, ns)
      ensures exists c | c in Emits(index, step) :: Notifies(c, ns)
    {
      match step
      case Upsert(c) =>
        NotifiesOrMatches(c, ns);
        assert c in Emits(index, step);
      case Delete(uid) =>
        NotifiesOrMatches(index[uid], ns);
        assert index[uid] in Emits(index, step);
      case DeleteSource(gvr) =>
        var u :| u in FromSource(index, gvr) && Matches(index[u], ns);
        NotifiesOrMatches(index[u], ns);
        assert index[u] in Emits(index, step);
    }
  }

  // ---------------------------------------------------------------- every step keeps the invariant

  lemma MutationKeepsInv(k: Cluster, s: State, step: Step)
    requires Inv(k, s) && Mutates(step) && Announces(k, s.index, step)
    ensures Inv(k, Next(k, s, step))
  {
    var t := Next(k, s, step);
    ChangesExactly(s.index, step, "");
    forall ns | ns in k.namespaces
      ensures Settled(t, ns) || Covered(t, ns)
    {
      ChangesExactly(s.index, step, ns);
      if Changes(s.index, step, ns) {
        var c :| c in Emits(s.index, step) && Notifies(c, ns);
        assert c in t.undelivered;
      } else if Covered(s, ns) && !(exists c | c in s.undelivered :: Notifies(c, ns)) {
        assert Covered(t, ns);
      } else if Covered(s, ns) {
        var c :| c in s.undelivered && Notifies(c, ns);
        assert c in t.undelivered;
      }
    }
  }

  lemma DeliverKeepsInv(k: Cluster, s: State, c: Constraint)
    requires Inv(k, s) && c in s.undelivered
    ensures Inv(k, Next(k, s, Deliver(c)))
  {
  }

  lemma PassKeepsInv(k: Cluster, s: State, step: Step)
    requires Inv(k, s) && Enabled(k, s, step)
    requires !Mutates(step) && !Fails(step) && !step.Deliver?
    ensures Inv(k, Next(k, s, step))
  {
    var t := Next(k, s, step);
    assert t.undelivered == s.undelivered && t.index == s.index;
    forall ns | ns in k.namespaces
      ensures Settled(t, ns) || Covered(t, ns)
    {
      assert Settled(s, ns) || Covered(s, ns);
    }
  }

  lemma StepKeepsInv(k: Cluster, s: State, step: Step)
    requires Inv(k, s) && Enabled(k, s, step) && !Fails(step)
    requires Mutates(step) ==> Announces(k, s.index, step)
    ensures Inv(k, Next(k, s, step))
  {
    if Mutates(step) {
      MutationKeepsInv(k, s, step);
    } else if step.Deliver? {
      DeliverKeepsInv(k, s, step.c);
    } else {
      PassKeepsInv(k, s, step);
    }
  }

  /**
   Main result. In every interleaving of announced index changes, late callbacks and successful
   passes, each namespace's report is right or a visit to it is on its way; so once nothing is on
   its way, every report equals what the index says.
   */
  lemma {:induction false} ReportsConverge(k: Cluster, states: seq<State>, steps: seq<Step>, i: nat)
    requires IsRun(k, states, steps) && Honest(k, states, steps) && i < |states|
    requires Inv(k, states[0])
    ensures Inv(k, states[i])
    ensures Quiescent(states[i]) ==> Converged(k, states[i])
  {
    if i > 0 {
      ReportsConverge(k, states, steps, i - 1);
      StepKeepsInv(k, states[i - 1], steps[i - 1]);
    }
    if Quiescent(states[i]) {
      QuietMeansConverged(k, states[i]);
    }
  }

  lemma QuietMeansConverged(k: Cluster, s: State)
    requires Inv(k, s) && Quiescent(s)
    ensures Converged(k, s)
  {
  }

  /** No cluster-scoped constraint lists namespaces. */
  ghost predicate Scoped(index: Index) {
    forall u | u in index :: index[u].namespace != "" || index[u].affected == []
  }

  /** The step keeps to that, and a replacement reaches every namespace its predecessor reached. */
  ghost predicate KeepsScope(k: Cluster, index: Index, step: Step) {
    step.Upsert? ==>
      && (step.c.namespace != "" || step.c.affected == [])
      && (step.c.uid in index ==> forall ns | ns in k.namespaces && Matches(index[step.c.uid], ns) :: Matches(step.c, ns))
  }

  lemma {:induction false} ScopedStays(k: Cluster, states: seq<State>, steps: seq<Step>, i: nat)
    requires IsRun(k, states, steps) && i < |states| && Scoped(states[0].index)
    requires forall j | 0 <= j < |steps| :: KeepsScope(k, states[j].index, steps[j])
    ensures Scoped(states[i].index)
  {
    if i > 0 {
      ScopedStays(k, states, steps, i - 1);
      assert KeepsScope(k, states[i - 1].index, steps[i - 1]);
      ScopedStep(k, states[i - 1], steps[i - 1]);
    }
  }

  lemma ScopedStep(k: Cluster, s: State, step: Step)
    requires Scoped(s.index) && Enabled(k, s, step) && KeepsScope(k, s.index, step)
    ensures Scoped(Next(k, s, step).index)
  {
  }

  /** Writers that keep to scopes need no further hypothesis: without failures their reports converge. */
  lemma ScopedRunsConverge(k: Cluster, states: seq<State>, steps: seq<Step>, i: nat)
    requires IsRun(k, states, steps) && i < |states| && Inv(k, states[0]) && Scoped(states[0].index)
    requires forall j | 0 <= j < |steps| :: !Fails(steps[j]) && KeepsScope(k, states[j].index, steps[j])
    ensures Inv(k, states[i])
    ensures Quiescent(states[i]) ==> Converged(k, states[i])
  {
    forall j | 0 <= j < |steps| && Mutates(steps[j])
      ensures Announces(k, states[j].index, steps[j])
    {
      ScopedStays(k, states, steps, j);
      ScopedWritersAnnounce(k, states[j].index, steps[j]);
    }
    ReportsConverge(k, states, steps, i);
  }

  // ---------------------------------------------------------------- exactly when an index change is lost

  /** The report of ns is wrong and nothing on its way will visit ns. */
  ghost predicate Stale(s: State, ns: string) {
    && Report(s, ns) != ByNamespace(s.index, ns)
    && !Covered(s, ns)
    && (s.phase.Writing? ==> s.phase.ns != ns)
  }

  lemma StaleStep(k: Cluster, s: State, step: Step, ns: string)
    requires ns in k.namespaces && Stale(s, ns) && Enabled(k, s, step) && !Mutates(step)
    ensures Stale(Next(k, s, step), ns)
  {
    var t := Next(k, s, step);
    if step.Deliver? {
      assert !Notifies(step.c, ns);
      assert forall c | c in t.undelivered :: c in s.undelivered;
    } else {
      assert t.undelivered == s.undelivered;
    }
  }

  /** Without a further index change a stale report stays stale, whatever else happens. */
  lemma {:induction false} StaleStays(k: Cluster, states: seq<State>, steps: seq<Step>, i: nat, ns: string)
    requires IsRun(k, states, steps) && i < |states|
    requires forall j | 0 <= j < i :: !Mutates(steps[j])
    requires ns in k.namespaces && Stale(states[0], ns)
    ensures Stale(states[i], ns)
  {
    if i > 0 {
      StaleStays(k, states, steps, i - 1, ns);
      StaleStep(k, states[i - 1], steps[i - 1], ns);
    }
  }

  /** Right after a change that is not announced, some report is stale. */
  lemma UnannouncedIsStale(k: Cluster, s: State, step: Step) returns (ns: string)
    requires Keyed(s.index) && Quiescent(s) && Converged(k, s)
    requires Mutates(step) && !Announces(k, s.index, step)
    ensures ns in k.namespaces && Stale(Next(k, s, step), ns)
  {
    ns :| ns in k.namespaces && Changes(s.index, step, ns) &&
          !(exists c | c in Emits(s.index, step) :: Notifies(c, ns));
    ChangesExactly(s.index, step, ns);
    var t := Next(k, s, step);
    forall c | c in t.undelivered
      ensures !Notifies(c, ns)
    {
      assert c in Emits(s.index, step);
    }
  }

  /**
   The exact condition. Start from agreement, change the index once, and let callbacks and passes
   run without failures until nothing is on its way: the reports agree again if and only if the
   change was announced.
   */
  lemma ChangeConvergesIffAnnounced(k: Cluster, states: seq<State>, steps: seq<Step>)
    requires IsRun(k, states, steps) && |steps| > 0
    requires Keyed(states[0].index) && Quiescent(states[0]) && Converged(k, states[0])
    requires Mutates(steps[0])
    requires forall i | 1 <= i < |steps| :: !Mutates(steps[i]) && !Fails(steps[i])
    requires Quiescent(states[|steps|])
    ensures Converged(k, states[|steps|]) <==> Announces(k, states[0].index, steps[0])
  {
    if Announces(k, states[0].index, steps[0]) {
      ReportsConverge(k, states, steps, |steps|);
    } else {
      var ns := UnannouncedIsStale(k, states[0], steps[0]);
      StaleStays(k, states[1..], steps[1..], |steps| - 1, ns);
    }
  }

  /** A cluster-scoped constraint that lists namespaces shows up everywhere but announces itself only there. */
  lemma ListedClusterScopeIsNotAnnounced(k: Cluster, c: Constraint, ns: string)
    requires c.namespace == "" && c.affected != [] && ns in k.namespaces && ns !in c.affected
    ensures !Announces(k, map[], Upsert(c))
  {
  }

  /** An upsert event does not carry the constraint it replaced, so a shrinking scope is not announced. */
  lemma ShrinkingScopeIsNotAnnounced(k: Cluster, was: Constraint, c: Constraint, ns: string)
    requires was.uid == c.uid && ns in k.namespaces
    requires Matches(was, ns) && !Matches(c, ns)
    ensures !Announces(k, map[was.uid := was], Upsert(c))
  {
  }

  // ---------------------------------------------------------------- exactly when a failure is harmless

  /** The report of ns is right, or a visit other than the one that fails is on its way. */
  ghost predicate SafeWithout(s: State, ns: string) {
    Report(s, ns) == ByNamespace(s.index, ns) || Covered(s.(phase := Working), ns)
  }

  /** The namespaces whose visit a failing step gives up. */
  ghost function GivenUp(k: Cluster, s: State, step: Step): set<string>
    requires Enabled(k, s, step) && Fails(step)
  {
    if step.ListFails? then k.namespaces else {s.phase.ns} * k.namespaces
  }

  lemma FailingStep(k: Cluster, s: State, step: Step, ns: string)
    requires Inv(k, s) && Enabled(k, s, step) && Fails(step) && ns in k.namespaces
    ensures var t := Next(k, s, step);
            && (ns !in GivenUp(k, s, step) || SafeWithout(s, ns) ==> Settled(t, ns) || Covered(t, ns))
            && (ns in GivenUp(k, s, step) && !SafeWithout(s, ns) ==> Stale(t, ns))
  {
    assert Settled(s, ns) || Covered(s, ns);
  }

  /**
   Exactly when a failure is harmless. From any state that keeps the invariant, let one call fail and
   callbacks and passes run on, without further changes and failures, until nothing is on its way:
   every report is right if and only if each namespace the failure gave up was right or covered otherwise.
   */
  lemma FailureConvergesIff(k: Cluster, states: seq<State>, steps: seq<Step>)
    requires IsRun(k, states, steps) && |steps| > 0 && Inv(k, states[0]) && Fails(steps[0])
    requires forall i | 1 <= i < |steps| :: !Mutates(steps[i]) && !Fails(steps[i])
    requires Quiescent(states[|steps|])
    ensures Converged(k, states[|steps|]) <==> forall ns | ns in GivenUp(k, states[0], steps[0]) :: SafeWithout(states[0], ns)
  {
    var s, step := states[0], steps[0];
    TailIsRun(k, states, steps);
    if forall ns | ns in GivenUp(k, s, step) :: SafeWithout(s, ns) {
      HarmlessKeepsInv(k, s, step);
      ReportsConverge(k, states[1..], steps[1..], |steps| - 1);
    } else {
      var ns :| ns in GivenUp(k, s, step) && !SafeWithout(s, ns);
      FailingStep(k, s, step, ns);
      StaleStays(k, states[1..], steps[1..], |steps| - 1, ns);
    }
  }

  lemma TailIsRun(k: Cluster, states: seq<State>, steps: seq<Step>)
    requires IsRun(k, states, steps) && |steps| > 0
    ensures IsRun(k, states[1..], steps[1..])
  {
  }

  lemma HarmlessKeepsInv(k: Cluster, s: State, step: Step)
    requires Inv(k, s) && Enabled(k, s, step) && Fails(step)
    requires forall ns | ns in GivenUp(k, s, step) :: SafeWithout(s, ns)
    ensures Inv(k, Next(k, s, step))
  {
    var t := Next(k, s, step);
    forall ns | ns in k.namespaces
      ensures Settled(t, ns) || Covered(t, ns)
    {
      FailingStep(k, s, step, ns);
    }
  }

  lemma {:induction false} ReportsStay(k: Cluster, states: seq<State>, steps: seq<Step>, i: nat, ns: string)
    requires IsRun(k, states, steps) && i < |states| && ns in states[0].reports
    ensures ns in states[i].reports
  {
    if i > 0 {
      ReportsStay(k, states, steps, i - 1, ns);
    }
  }

  /** Only a namespace that never had a report can lose a status. */
  lemma StatusIsLostOnlyOnce(k: Cluster, states: seq<State>, steps: seq<Step>, i: nat)
    requires IsRun(k, states, steps) && i < |steps| && steps[i].CreateLosesStatus?
    ensures states[i].phase.ns !in states[0].reports
  {
    if states[i].phase.ns in states[0].reports {
      ReportsStay(k, states, steps, i, states[i].phase.ns);
    }
  }

  /** Nothing indexed, nothing reported, nothing on its way. */
  const START := State(map[], multiset{}, {}, false, {}, Idle, map[], map[], 0)

  lemma ByNamespaceOne(c: Constraint, ns: string)
    requires Matches(c, ns)
    ensures ByNamespace(map[c.uid := c], ns) == {c}
  {
    assert map[c.uid := c][c.uid] == c;
  }

  /** Indexing a first constraint and delivering its callback. */
  lemma FirstChange(k: Cluster, c: Constraint)
    ensures Next(k, START, Upsert(c)) == Indexed(c).(undelivered := multiset{c})
    ensures Next(k, Indexed(c).(undelivered := multiset{c}), Deliver(c)) == Triggered(Indexed(c), c)
  {
    assert Emits(map[], Upsert(c)) == {c} && multiset{} + multiset({c}) == multiset{c};
    assert multiset{c} - multiset{c} == multiset{};
    assert map[][c.uid := c] == map[c.uid := c];
  }

  /** The index holds one constraint, and nothing else happened. */
  function Indexed(c: Constraint): State {
    START.(index := map[c.uid := c])
  }

  lemma Then(k: Cluster, s: State, steps: seq<Step>, t: State, step: Step, u: State)
    requires Leads(k, s, steps, t) && Enabled(k, t, step) && Next(k, t, step) == u
    ensures Leads(k, s, steps + [step], u)
  {
    StepLeads(k, t, step);
    LeadsOn(k, s, steps, t, [step], u);
  }

  lemma FirstTrigger(k: Cluster, c: Constraint)
    ensures Leads(k, START, [Upsert(c)] + [Deliver(c)], Triggered(Indexed(c), c))
  {
    FirstChange(k, c);
    StepLeads(k, START, Upsert(c));
    Then(k, START, [Upsert(c)], Indexed(c).(undelivered := multiset{c}), Deliver(c), Triggered(Indexed(c), c));
  }

  /** The steps of a visit up to the point where the report is to be written. */
  function Visit(c: Constraint): seq<Step> {
    [Upsert(c)] + [Deliver(c)] + [Swap] + [List] + [Read(c.namespace)]
  }

  lemma FirstVisit(k: Cluster, c: Constraint)
    requires c.namespace != "" && c.affected == []
    ensures Leads(k, START, Visit(c), Indexed(c).(phase := Writing(c.namespace, {c})))
  {
    var ns, s, steps := c.namespace, Indexed(c), [Upsert(c)] + [Deliver(c)];
    FirstTrigger(k, c);
    assert Triggers(c) == {ns} && {} + {ns} == {ns};
    Then(k, START, steps, s.(pending := {ns}), Swap, s.(work := {ns}, phase := Listing(false)));
    steps := steps + [Swap];
    assert {ns} + {} == {ns};
    Then(k, START, steps, s.(work := {ns}, phase := Listing(false)), List, s.(work := {ns}, phase := Working));
    ByNamespaceOne(c, ns);
    assert {ns} - {ns} == {};
    Then(k, START, steps + [List], s.(work := {ns}, phase := Working), Read(ns), s.(phase := Writing(ns, {c})));
  }

  /** A failed write ends with nothing on its way and the report wrong. */
  lemma FailedWriteLosesReport(k: Cluster, c: Constraint)
    requires c.namespace in k.namespaces && c.namespace != "" && c.affected == []
    ensures Leads(k, START, Visit(c) + [WriteFails] + [Finish], Indexed(c))
    ensures Quiescent(Indexed(c)) && !Converged(k, Indexed(c))
  {
    var s := Indexed(c);
    FirstVisit(k, c);
    Then(k, START, Visit(c), s.(phase := Writing(c.namespace, {c})), WriteFails, s.(phase := Working));
    Then(k, START, Visit(c) + [WriteFails], s.(phase := Working), Finish, s);
    ByNamespaceOne(c, c.namespace);
  }

  /** A create that stores no status ends the same way, with an empty report on record. */
  lemma LostStatusLosesReport(k: Cluster, c: Constraint)
    requires c.namespace in k.namespaces && c.namespace != "" && c.affected == []
    ensures var end := Indexed(c).(reports := map[c.namespace := {}], lastReconcile := map[c.namespace := 0]);
            && Leads(k, START, Visit(c) + [CreateLosesStatus] + [Record] + [Finish], end)
            && Quiescent(end) && !Converged(k, end)
  {
    var ns, s, steps := c.namespace, Indexed(c), Visit(c);
    var empty := s.(reports := map[ns := {}]);
    FirstVisit(k, c);
    Then(k, START, steps, s.(phase := Writing(ns, {c})), CreateLosesStatus, empty.(phase := Recording(ns)));
    steps := steps + [CreateLosesStatus];
    var end := empty.(lastReconcile := map[ns := 0]);
    Then(k, START, steps, empty.(phase := Recording(ns)), Record, end.(phase := Working));
    Then(k, START, steps + [Record], end.(phase := Working), Finish, end);
    ByNamespaceOne(c, ns);
  }

  /** A failed listing ends the same way for a cluster-scoped constraint, in every namespace. */
  lemma FailedListLosesReports(k: Cluster, c: Constraint)
    requires c.namespace == "" && c.affected == []
    ensures Leads(k, START, [Upsert(c)] + [Deliver(c)] + [Swap] + [ListFails] + [Finish], Indexed(c))
    ensures Quiescent(Indexed(c)) && forall ns :: Report(Indexed(c), ns) != ByNamespace(Indexed(c).index, ns)
  {
    var s, steps := Indexed(c), [Upsert(c)] + [Deliver(c)];
    FirstTrigger(k, c);
    Then(k, START, steps, s.(clusterWide := true), Swap, s.(phase := Listing(true)));
    steps := steps + [Swap];
    Then(k, START, steps, s.(phase := Listing(true)), ListFails, s.(phase := Working));
    Then(k, START, steps + [ListFails], s.(phase := Working), Finish, s);
    forall ns
      ensures Report(s, ns) != ByNamespace(s.index, ns)
    {
      ByNamespaceOne(c, ns);
    }
  }

  // ---------------------------------------------------------------- spacing

  /** A namespace being reconciled was last recorded a full debounce ago; records are never in the future. */
  ghost predicate Spaced(k: Cluster, s: State) {
    && (forall ns | ns in s.lastReconcile :: s.lastReconcile[ns] <= s.now)
    && (s.phase.Writing? || s.phase.Recording? ==> !Debounced(k, s, s.phase.ns))
  }

  lemma StepKeepsSpaced(k: Cluster, s: State, step: Step)
    requires Spaced(k, s) && Enabled(k, s, step)
    ensures Spaced(k, Next(k, s, step))
  {
  }

  lemma StepKeepsRecord(k: Cluster, s: State, step: Step, ns: string)
    requires Spaced(k, s) && Enabled(k, s, step) && ns in s.lastReconcile
    ensures var t := Next(k, s, step); ns in t.lastReconcile && s.lastReconcile[ns] <= t.lastReconcile[ns]
  {
  }

  lemma RunStepSpaced(k: Cluster, states: seq<State>, steps: seq<Step>, i: nat)
    requires IsRun(k, states, steps) && i < |steps| && Spaced(k, states[i])
    ensures Spaced(k, states[i + 1])
  {
    StepKeepsSpaced(k, states[i], steps[i]);
  }

  lemma RunStepRecord(k: Cluster, states: seq<State>, steps: seq<Step>, i: nat, ns: string)
    requires IsRun(k, states, steps) && i < |steps| && Spaced(k, states[i]) && ns in states[i].lastReconcile
    ensures ns in states[i + 1].lastReconcile && states[i].lastReconcile[ns] <= states[i + 1].lastReconcile[ns]
  {
    StepKeepsRecord(k, states[i], steps[i], ns);
  }

  lemma {:induction false} AlwaysSpaced(k: Cluster, states: seq<State>, steps: seq<Step>, i: nat)
    requires IsRun(k, states, steps) && i < |states| && Spaced(k, states[0])
    ensures Spaced(k, states[i])
  {
    if i > 0 {
      AlwaysSpaced(k, states, steps, i - 1);
      RunStepSpaced(k, states, steps, i - 1);
    }
  }

  /** From a record on, the last recorded time of that namespace never goes back. */
  lemma {:induction false} RecordedStays(k: Cluster, states: seq<State>, steps: seq<Step>, i: nat, j: nat, ns: string)
    requires IsRun(k, states, steps) && i <= j < |states| && Spaced(k, states[0]) && ns in states[i].lastReconcile
    ensures ns in states[j].lastReconcile && states[i].lastReconcile[ns] <= states[j].lastReconcile[ns]
  {
    if i < j {
      RecordedStays(k, states, steps, i, j - 1, ns);
      AlwaysSpaced(k, states, steps, j - 1);
      RunStepRecord(k, states, steps, j - 1, ns);
    }
  }

  /** In every run, two recorded reconciles of one namespace are at least a debounce apart. */
  lemma ReconcilesAreSpaced(k: Cluster, states: seq<State>, steps: seq<Step>, i: nat, j: nat)
    requires IsRun(k, states, steps) && Spaced(k, states[0])
    requires i < j < |steps| && steps[i].Record? && steps[j].Record?
    requires states[i].phase.ns == states[j].phase.ns
    ensures states[j].now - states[i].now >= k.debounce
  {
    var ns := states[i].phase.ns;
    AlwaysSpaced(k, states, steps, i);
    AlwaysSpaced(k, states, steps, j);
    RecordedStays(k, states, steps, i + 1, j, ns);
  }
}
