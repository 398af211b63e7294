/** When the reconciler puts a trigger off, and why a namespace that is due is visited in the next pass. */
module DueVisits {
  import opened ReportProtocol

  /** A trigger is put off exactly while its namespace was reconciled less than a debounce ago; otherwise it is handled. */
  lemma PutOffIff(k: Cluster, s: State, ns: string)
    requires s.phase.Working? && ns in s.work
    ensures Enabled(k, s, Requeue(ns)) <==> ns in s.lastReconcile && s.now - s.lastReconcile[ns] < k.debounce
    ensures Enabled(k, s, Read(ns)) <==> !(ns in s.lastReconcile && s.now - s.lastReconcile[ns] < k.debounce)
  {
  }

  /** The namespace was last reconciled at least a debounce ago, if ever. */
  predicate Due(k: Cluster, s: State, ns: string) {
    ns in s.lastReconcile ==> s.now - s.lastReconcile[ns] >= k.debounce
  }

  /** The pass under way still has to visit the namespace, which is due. */
  ghost predicate Awaits(k: Cluster, s: State, ns: string) {
    && Due(k, s, ns) && !s.phase.Idle? && (s.phase.Writing? || s.phase.Recording? ==> s.phase.ns != ns)
    && (ns in s.work || (ns in k.namespaces && s.phase == Listing(true)))
  }

  lemma AwaitingStep(k: Cluster, s: State, step: Step, ns: string)
    requires Awaits(k, s, ns) && Enabled(k, s, step) && step != Read(ns) && !step.ListFails?
    ensures Awaits(k, Next(k, s, step), ns) && step != Finish
  {
  }

  lemma {:induction false} AwaitsUntilRead(k: Cluster, states: seq<State>, steps: seq<Step>, start: nat, i: nat, ns: string)
    requires IsRun(k, states, steps) && start <= i < |states| && Awaits(k, states[start], ns)
    requires forall j | start <= j < i :: steps[j] != Read(ns) && !steps[j].ListFails?
    ensures Awaits(k, states[i], ns)
  {
    if i > start {
      AwaitsUntilRead(k, states, steps, start, i - 1, ns);
      AwaitingStep(k, states[i - 1], steps[i - 1], ns);
    }
  }

  /**
   A namespace whose visit is pending when a pass starts, a debounce or more after its last reconcile, is
   visited before the pass ends, whatever writers and callbacks do meanwhile.
   */
  lemma DueIsVisited(k: Cluster, states: seq<State>, steps: seq<Step>, ns: string)
    requires IsRun(k, states, steps) && |steps| >= 2 && steps[0].Swap? && steps[|steps| - 1].Finish?
    requires (ns in states[0].pending || (states[0].clusterWide && ns in k.namespaces)) && Due(k, states[0], ns)
    requires forall i | 0 <= i < |steps| :: !steps[i].ListFails?
    ensures exists i | 0 <= i < |steps| :: steps[i] == Read(ns)
  {
    assert states[1] == Next(k, states[0], steps[0]);
    if forall i | 0 <= i < |steps| :: steps[i] != Read(ns) {
      AwaitsUntilRead(k, states, steps, 1, |steps| - 1, ns);
      AwaitingStep(k, states[|steps| - 1], steps[|steps| - 1], ns);
    }
  }
}
