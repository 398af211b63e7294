/**
 The report reconciler as its code runs: trigger bookkeeping in place, and a pass over the pending
 namespaces. Each pass is a run of the reporting protocol, so everything proved about the protocol
 applies to it.
 */
module ReportReconciling {
  import opened Kube
  import opened Clocks
  import opened Indexing
  import opened ReportProtocol

  /** The stored reports, outside the process. */
  class Server {
    // Whether creating a report stores its status; it does not for a kind with a status subresource.
    const createStoresStatus: bool
    var reports: map<string, set<Constraint>>

    constructor (createStoresStatus: bool)
      ensures this.createStoresStatus == createStoresStatus && reports == map[]
    {
      this.createStoresStatus := createStoresStatus;
      reports := map[];
    }

    /** Writing the report of ns stores what it says, unless it is created without its status. */
    ghost predicate Stores(ns: string)
      reads this
    {
      createStoresStatus || ns in reports
    }
  }

  lemma ListIsTheSet(list: seq<Constraint>, all: set<Constraint>)
    requires multiset(list) == multiset(all)
    ensures (set c | c in list) == all
  {
    assert forall c :: c in list <==> c in multiset(list);
  }

  // ---------------------------------------------------------------- a pass as protocol steps

  /** The steps a pass consists of. */
  ghost predicate PassOnly(steps: seq<Step>, mayFail: bool) {
    forall s | s in steps :: !Mutates(s) && !s.Deliver? && (Fails(s) ==> mayFail)
  }

  /** Taking the triggers: the local work set, before and after a cluster-wide trigger is expanded. */
  lemma TakingLeads(k: Cluster, s: State, listFails: bool) returns (steps: seq<Step>)
    requires s.phase.Idle?
    ensures PassOnly(steps, listFails)
    ensures Leads(k, s, steps,
                  s.(work := s.pending + (if s.clusterWide && !listFails then k.namespaces else {}),
                     phase := Working, pending := {}, clusterWide := false))
  {
    var swapped := Next(k, s, Swap);
    var second := if s.clusterWide && listFails then ListFails else List;
    StepLeads(k, s, Swap);
    StepLeads(k, swapped, second);
    LeadsOn(k, s, [Swap], swapped, [second], Next(k, swapped, second));
    steps := [Swap] + [second];
  }

  lemma RequeueLeads(k: Cluster, s: State, ns: string, t: int) returns (steps: seq<Step>)
    requires s.phase.Working? && ns in s.work && s.now <= t && Debounced(k, s.(now := t), ns)
    ensures PassOnly(steps, false)
    ensures Leads(k, s, steps, s.(now := t, work := s.work - {ns}, pending := s.pending + {ns}))
  {
    StepLeads(k, s, Advance(t));
    StepLeads(k, s.(now := t), Requeue(ns));
    LeadsOn(k, s, [Advance(t)], s.(now := t), [Requeue(ns)], Next(k, s.(now := t), Requeue(ns)));
    steps := [Advance(t)] + [Requeue(ns)];
  }

  lemma ReadLeads(k: Cluster, s: State, ns: string, t: int) returns (steps: seq<Step>)
    requires s.phase.Working? && ns in s.work && s.now <= t && !Debounced(k, s.(now := t), ns)
    ensures PassOnly(steps, false)
    ensures Leads(k, s, steps, s.(now := t, work := s.work - {ns}, phase := Writing(ns, ByNamespace(s.index, ns))))
  {
    StepLeads(k, s, Advance(t));
    StepLeads(k, s.(now := t), Read(ns));
    LeadsOn(k, s, [Advance(t)], s.(now := t), [Read(ns)], Next(k, s.(now := t), Read(ns)));
    steps := [Advance(t)] + [Read(ns)];
  }

  lemma FailLeads(k: Cluster, s: State, ns: string, t: int) returns (steps: seq<Step>)
    requires s.phase.Working? && ns in s.work && s.now <= t && !Debounced(k, s.(now := t), ns)
    ensures PassOnly(steps, true)
    ensures Leads(k, s, steps, s.(now := t, work := s.work - {ns}))
  {
    var reading := ReadLeads(k, s, ns, t);
    var mid := s.(now := t, work := s.work - {ns}, phase := Writing(ns, ByNamespace(s.index, ns)));
    StepLeads(k, mid, WriteFails);
    LeadsOn(k, s, reading, mid, [WriteFails], Next(k, mid, WriteFails));
    steps := reading + [WriteFails];
  }

  lemma WriteLeads(k: Cluster, s: State, done: int) returns (steps: seq<Step>)
    requires s.phase.Writing? && s.now <= done
    ensures PassOnly(steps, false)
    ensures Leads(k, s, steps,
                  s.(now := done, phase := Working, reports := s.reports[s.phase.ns := s.phase.snapshot],
                     lastReconcile := s.lastReconcile[s.phase.ns := done]))
  {
    var written := s.(reports := s.reports[s.phase.ns := s.phase.snapshot], phase := Recording(s.phase.ns));
    assert Next(k, s, Write) == written;
    StepLeads(k, s, Write);
    RecordLeads(k, s, [Write], written, done);
    steps := [Write] + [Advance(done)] + [Record];
  }

  lemma LoseLeads(k: Cluster, s: State, done: int) returns (steps: seq<Step>)
    requires s.phase.Writing? && s.now <= done && s.phase.ns !in s.reports
    ensures PassOnly(steps, true)
    ensures Leads(k, s, steps,
                  s.(now := done, phase := Working, reports := s.reports[s.phase.ns := {}],
                     lastReconcile := s.lastReconcile[s.phase.ns := done]))
  {
    var created := s.(reports := s.reports[s.phase.ns := {}], phase := Recording(s.phase.ns));
    assert Next(k, s, CreateLosesStatus) == created;
    StepLeads(k, s, CreateLosesStatus);
    RecordLeads(k, s, [CreateLosesStatus], created, done);
    steps := [CreateLosesStatus] + [Advance(done)] + [Record];
  }

  /** After a write, the time is recorded. */
  lemma RecordLeads(k: Cluster, s: State, steps: seq<Step>, written: State, done: int)
    requires Leads(k, s, steps, written) && written.phase.Recording? && written.now <= done
    ensures Leads(k, s, steps + [Advance(done)] + [Record],
                  written.(now := done, phase := Working, lastReconcile := written.lastReconcile[written.phase.ns := done]))
  {
    var later := written.(now := done);
    Then(k, s, steps, written, Advance(done), later);
    Then(k, s, steps + [Advance(done)], later, Record, Next(k, later, Record));
  }

  /** A whole visit; `stores` says whether the report is stored with its status. */
  lemma ReconcileLeads(k: Cluster, s: State, ns: string, t: int, done: int, stores: bool) returns (steps: seq<Step>)
    requires s.phase.Working? && ns in s.work && s.now <= t <= done && !Debounced(k, s.(now := t), ns)
    requires stores || ns !in s.reports
    ensures PassOnly(steps, !stores)
    ensures Leads(k, s, steps,
                  s.(now := done, work := s.work - {ns},
                     reports := s.reports[ns := if stores then ByNamespace(s.index, ns) else {}],
                     lastReconcile := s.lastReconcile[ns := done]))
  {
    var reading := ReadLeads(k, s, ns, t);
    var reread := s.(now := t, work := s.work - {ns}, phase := Writing(ns, ByNamespace(s.index, ns)));
    var writing;
    if stores {
      writing := WriteLeads(k, reread, done);
    } else {
      writing := LoseLeads(k, reread, done);
    }
    LeadsOn(k, s, reading, reread, writing,
            reread.(now := done, phase := Working,
                    reports := s.reports[ns := if stores then ByNamespace(s.index, ns) else {}],
                    lastReconcile := s.lastReconcile[ns := done]));
    steps := reading + writing;
  }

  /** A pass without failures keeps the coverage invariant. */
  lemma PassKeepsCoverage(k: Cluster, s: State, steps: seq<Step>, t: State)
    requires Leads(k, s, steps, t) && PassOnly(steps, false) && Inv(k, s)
    ensures Inv(k, t)
  {
    var states :| IsRun(k, states, steps) && states[0] == s && states[|steps|] == t;
    forall i | 0 <= i < |steps|
      ensures !Fails(steps[i]) && !Mutates(steps[i])
    {
      assert steps[i] in steps;
    }
    ReportsConverge(k, states, steps, |steps|);
  }

  /** The three parts of a pass, and what a pass without failures achieves when nothing is debounced. */
  lemma WholePass(k: Cluster, s: State, taking: seq<Step>, mid: State, handling: seq<Step>, end: State, mayFail: bool)
    requires Leads(k, s, taking, mid) && PassOnly(taking, mayFail)
    requires Leads(k, mid, handling, end) && PassOnly(handling, mayFail)
    requires end.phase.Working? && end.work == {}
    ensures Leads(k, s, taking + handling + [Finish], end.(phase := Idle))
    ensures PassOnly(taking + handling + [Finish], mayFail)
    ensures !mayFail && Inv(k, s) ==> Inv(k, end.(phase := Idle))
  {
    LeadsOn(k, s, taking, mid, handling, end);
    StepLeads(k, end, Finish);
    LeadsOn(k, s, taking + handling, end, [Finish], end.(phase := Idle));
    if !mayFail && Inv(k, s) {
      PassKeepsCoverage(k, s, taking + handling + [Finish], end.(phase := Idle));
    }
  }

  /** The namespace was reconciled less than a debounce before that time. */
  ghost predicate Soon(k: Cluster, reconciled: map<string, int>, ns: string, now: int) {
    ns in reconciled && now - reconciled[ns] < k.debounce
  }

  lemma NothingPutOff(k: Cluster, reconciled: map<string, int>, now: int, pending: set<string>)
    requires forall ns | ns in pending :: Soon(k, reconciled, ns, now)
    requires forall ns | ns in reconciled :: now - reconciled[ns] >= k.debounce
    ensures pending == {}
  {
    assert forall ns :: !(ns in reconciled && now - reconciled[ns] < k.debounce);
  }

  class ReportReconciler {
    const cluster: Cluster
    const idx: Indexer
    const server: Server
    const clock: Clock
    var lastReconcile: map<string, int>
    var pendingTriggers: set<string>
    var clusterWideTriggered: bool

    constructor (cluster: Cluster, idx: Indexer, server: Server, clock: Clock)
      ensures this.cluster == cluster && this.idx == idx && this.server == server && this.clock == clock
      ensures lastReconcile == map[] && pendingTriggers == {} && !clusterWideTriggered
    {
      this.cluster, this.idx, this.server, this.clock := cluster, idx, server, clock;
      lastReconcile, pendingTriggers, clusterWideTriggered := map[], {}, false;
    }

    /** The protocol state between callbacks and passes, or in the middle of a pass. */
    ghost function Model(work: set<string>, phase: Phase): State
      reads this, idx, server, clock
    {
      State(idx.byUID, multiset{}, pendingTriggers, clusterWideTriggered, work, phase,
            server.reports, lastReconcile, clock.now)
    }

    /** The index callback: remembers which namespaces to visit. */
    method OnIndexChange(event: Event)
      modifies this`pendingTriggers, this`clusterWideTriggered
      ensures Model({}, Idle) == Triggered(old(Model({}, Idle)), event.constraint)
      ensures var c := event.constraint;
              && clusterWideTriggered == (old(clusterWideTriggered) || (c.namespace == "" && c.affected == []))
              && forall ns :: ns in pendingTriggers <==> ns in old(pendingTriggers) || ns in c.affected || ns == c.namespace != ""
    {
      var c := event.constraint;
      var namespaces := c.affected;
      if c.namespace != "" {
        namespaces := namespaces + [c.namespace];
      }
      assert Elements(namespaces) == Triggers(c);
      if c.namespace == "" && |namespaces| == 0 {
        clusterWideTriggered := true;
      } else {
        for i := 0 to |namespaces|
          invariant pendingTriggers == old(pendingTriggers) + Elements(namespaces[..i])
          invariant clusterWideTriggered == old(clusterWideTriggered)
        {
          pendingTriggers := pendingTriggers + {namespaces[i]};
          assert namespaces[..i + 1] == namespaces[..i] + [namespaces[i]];
        }
        assert namespaces[..|namespaces|] == namespaces;
      }
    }

    /** Reads the index and stores the report of one namespace, unless the API call fails or its status is lost. */
    method ReconcileNamespace(ns: string, apiFails: bool) returns (ok: bool)
      requires idx.Valid()
      modifies server`reports
      ensures ok == !apiFails
      ensures server.reports ==
              if !ok then old(server.reports)
              else old(server.reports)[ns := if old(server.Stores(ns)) then ByNamespace(idx.byUID, ns) else {}]
    {
      var constraints := idx.QueryNamespace(ns);
      ListIsTheSet(constraints, ByNamespace(idx.byUID, ns));
      if apiFails {
        return false;
      }
      if ns !in server.reports && !server.createStoresStatus {
        server.reports := server.reports[ns := {}];
      } else {
        server.reports := server.reports[ns := set c | c in constraints];
      }
      ok := true;
    }

    /** One trigger of a pass: requeue it if it is too soon, otherwise reconcile and record the time. */
    method HandleTrigger(ns: string, ghost work: set<string>, apiFails: bool) returns (ghost steps: seq<Step>, ghost at: int)
      requires idx.Valid() && ns in work
      modifies this`pendingTriggers, this`lastReconcile, server, clock
      ensures Leads(cluster, old(Model(work, Working)), steps, Model(work - {ns}, Working))
      ensures PassOnly(steps, apiFails || !old(server.Stores(ns)))
      ensures old(clock.now) <= at <= clock.now && old(server.reports).Keys <= server.reports.Keys
      ensures var soon := ns in old(lastReconcile) && at - old(lastReconcile)[ns] < cluster.debounce;
              && pendingTriggers == old(pendingTriggers) + (if soon then {ns} else {})
              && lastReconcile == if soon || apiFails then old(lastReconcile) else old(lastReconcile)[ns := clock.now]
    {
      ghost var s, stores := Model(work, Working), server.Stores(ns);
      var t := clock.Read();
      at := t;
      if ns in lastReconcile && t - lastReconcile[ns] < cluster.debounce {
        pendingTriggers := pendingTriggers + {ns};
        steps := RequeueLeads(cluster, s, ns, t);
      } else {
        var ok := ReconcileNamespace(ns, apiFails);
        if !ok {
          steps := FailLeads(cluster, s, ns, t);
        } else {
          var done := clock.Read();
          lastReconcile := lastReconcile[ns := done];
          steps := ReconcileLeads(cluster, s, ns, t, done, stores);
        }
      }
    }

    /** Handles the swapped-out triggers in an arbitrary order. */
    method HandleAll(triggers: set<string>, failing: set<string>) returns (ghost steps: seq<Step>)
      requires idx.Valid() && pendingTriggers == {}
      modifies this`pendingTriggers, this`lastReconcile, server, clock
      ensures Leads(cluster, old(Model(triggers, Working)), steps, Model({}, Working))
      ensures PassOnly(steps, failing != {} || !old(AllStored(triggers)))
      ensures forall ns | ns in pendingTriggers :: ns in triggers && Soon(cluster, old(lastReconcile), ns, old(clock.now))
    {
      var work := triggers;
      steps := [];
      assert IsRun(cluster, [Model(work, Working)], []);
      while work != {}
        invariant idx.Valid() && work <= triggers
        invariant Leads(cluster, old(Model(triggers, Working)), steps, Model(work, Working))
        invariant PassOnly(steps, failing != {} || !old(AllStored(triggers)))
        invariant old(clock.now) <= clock.now && old(server.reports).Keys <= server.reports.Keys
        invariant forall m | m in work ::
                    (m in lastReconcile <==> m in old(lastReconcile)) &&
                    (m in lastReconcile ==> lastReconcile[m] == old(lastReconcile)[m])
        invariant forall ns | ns in pendingTriggers :: ns in triggers && Soon(cluster, old(lastReconcile), ns, old(clock.now))
        decreases work
      {
        var ns :| ns in work;
        ghost var before := Model(work, Working);
        ghost var more, at := HandleTrigger(ns, work, ns in failing);
        LeadsOn(cluster, old(Model(triggers, Working)), steps, before, more, Model(work - {ns}, Working));
        steps := steps + more;
        work := work - {ns};
      }
    }

    /** Every write of these reports stores the status. */
    ghost predicate AllStored(triggers: set<string>)
      reads server
    {
      forall ns | ns in triggers :: server.Stores(ns)
    }

    /** The namespaces the next pass visits. */
    ghost function Visited(): set<string>
      reads this
    {
      pendingTriggers + if clusterWideTriggered then cluster.namespaces else {}
    }

    /**
     One pass. It is a run of the protocol. It leaves pending only what was debounced when it began. If
     no call fails and no visited report is created without its status, a pass keeps every report right
     or covered; and if nothing was debounced, all reports are right afterwards.
     */
    method ProcessPendingTriggers(listFails: bool, failing: set<string>) returns (ghost steps: seq<Step>)
      requires idx.Valid()
      modifies this, server, clock
      ensures Leads(cluster, old(Model({}, Idle)), steps, Model({}, Idle))
      ensures PassOnly(steps, listFails || failing != {} || !old(AllStored(Visited())))
      ensures forall ns | ns in pendingTriggers ::
                ns in old(Visited()) && ns in old(lastReconcile) && old(clock.now) - old(lastReconcile)[ns] < cluster.debounce
      ensures !clusterWideTriggered
      ensures !listFails && failing == {} && old(AllStored(Visited())) && Inv(cluster, old(Model({}, Idle))) ==>
                Inv(cluster, Model({}, Idle))
      ensures !listFails && failing == {} && old(AllStored(Visited())) && Inv(cluster, old(Model({}, Idle))) &&
              (forall ns | ns in old(lastReconcile) :: old(clock.now) - old(lastReconcile)[ns] >= cluster.debounce) ==>
                Quiescent(Model({}, Idle)) && Converged(cluster, Model({}, Idle))
    {
      ghost var s, stored := Model({}, Idle), AllStored(Visited());
      var triggers := pendingTriggers;
      var clusterWide := clusterWideTriggered;
      pendingTriggers := {};
      clusterWideTriggered := false;
      if clusterWide && !listFails {
        triggers := triggers + cluster.namespaces;
      }
      ghost var taking := TakingLeads(cluster, s, listFails);
      ghost var mid := Model(triggers, Working);
      ghost var mayFail := listFails || failing != {} || !stored;
      ghost var handling := HandleAll(triggers, failing);
      WholePass(cluster, s, taking, mid, handling, Model({}, Working), mayFail);
      steps := taking + handling + [Finish];
      if !mayFail && Inv(cluster, s) && forall ns | ns in s.lastReconcile :: s.now - s.lastReconcile[ns] >= cluster.debounce {
        NothingPutOff(cluster, s.lastReconcile, s.now, pendingTriggers);
        QuietMeansConverged(cluster, Model({}, Idle));
      }
    }
  }
}
