/**
 From live objects to reports: the events of live objects write the index, the reconciler's protocol runs
 beside them, and once nothing is on its way every report is the parse of the live objects.
 */
module EndToEnd {
  import opened Kube
  import opened Indexing
  import opened P = ReportProtocol
  import L = LiveObjects
  import D = Discovery

  // ---------------------------------------------------------------- what events write

  function Upserts(cs: seq<Constraint>): seq<Step> {
    seq(|cs|, i requires 0 <= i < |cs| => Upsert(cs[i]))
  }

  function Deletes(cs: seq<Constraint>): seq<Step> {
    seq(|cs|, i requires 0 <= i < |cs| => Delete(cs[i].uid))
  }

  /** The index writes of one event, in order. */
  function EventWrites(e: L.Event): seq<Step> {
    var parsed := L.Parse(e.subject);
    match e
    case Seen(_) => if parsed.None? then [] else Upserts(parsed.value)
    case Gone(o) => if parsed.None? || parsed.value == [] then [Delete(o.uid)] else Deletes(parsed.value)
  }

  function AllWrites(events: seq<L.Event>): seq<Step> {
    if events == [] then [] else AllWrites(events[..|events| - 1]) + EventWrites(events[|events| - 1])
  }

  /** The step writes the entry of a UID. */
  predicate WritesTo(step: Step, u: string) {
    (step.Upsert? && step.c.uid == u) || (step.Delete? && step.uid == u)
  }

  /** The writes to one UID, in order. */
  function WritesAbout(steps: seq<Step>, u: string): seq<Step> {
    if steps == [] then []
    else
      var rest := WritesAbout(steps[..|steps| - 1], u);
      if WritesTo(steps[|steps| - 1], u) then rest + [steps[|steps| - 1]] else rest
  }

  function LastWrite(ws: seq<Step>): Option<Constraint> {
    if ws != [] && ws[|ws| - 1].Upsert? then Some(ws[|ws| - 1].c) else None
  }

  // ---------------------------------------------------------------- the index is determined by the last writes

  /** The index after some steps; only writes change it. */
  ghost function Written(steps: seq<Step>): Index {
    if steps == [] then map[]
    else
      var before, step := Written(steps[..|steps| - 1]), steps[|steps| - 1];
      if Mutates(step) then Mutated(before, step) else before
  }

  ghost predicate NoBulk(steps: seq<Step>) {
    forall step | step in steps :: !step.DeleteSource?
  }

  lemma {:induction false} WrittenIsLastWrite(steps: seq<Step>, u: string)
    requires NoBulk(steps)
    ensures Lookup(Written(steps), u) == LastWrite(WritesAbout(steps, u))
  {
    if steps != [] {
      var front, step := steps[..|steps| - 1], steps[|steps| - 1];
      assert step in steps && forall t | t in front :: t in steps;
      WrittenIsLastWrite(front, u);
    }
  }

  lemma SameWritesSameIndex(a: seq<Step>, b: seq<Step>)
    requires NoBulk(a) && NoBulk(b) && forall u :: WritesAbout(a, u) == WritesAbout(b, u)
    ensures Written(a) == Written(b)
  {
    forall u
      ensures Lookup(Written(a), u) == Lookup(Written(b), u)
    {
      WrittenIsLastWrite(a, u);
      WrittenIsLastWrite(b, u);
    }
    SameLookups(Written(a), Written(b));
  }

  lemma StepWrites(k: Cluster, s: State, step: Step)
    requires Enabled(k, s, step)
    ensures Next(k, s, step).index == if Mutates(step) then Mutated(s.index, step) else s.index
  {
  }

  lemma {:induction false} RunWrites(k: Cluster, states: seq<State>, steps: seq<Step>, i: nat)
    requires IsRun(k, states, steps) && i < |states| && states[0].index == map[]
    ensures states[i].index == Written(steps[..i])
  {
    if i > 0 {
      RunWrites(k, states, steps, i - 1);
      StepWrites(k, states[i - 1], steps[i - 1]);
      assert states[i] == Next(k, states[i - 1], steps[i - 1]);
      assert steps[..i][..i - 1] == steps[..i - 1];
    }
  }

  lemma {:induction false} UpsertsWrite(before: seq<Step>, cs: seq<Constraint>)
    ensures Written(before + Upserts(cs)) == D.UpsertAll(Written(before), cs)
  {
    if cs == [] {
      assert before + Upserts(cs) == before;
    } else {
      UpsertsWrite(before, cs[..|cs| - 1]);
      assert (before + Upserts(cs))[..|before| + |cs| - 1] == before + Upserts(cs[..|cs| - 1]);
    }
  }

  lemma RemovedInTurn(index: Index, us: set<string>, u: string)
    ensures index - us - {u} == index - (us + {u})
  {
  }

  lemma {:induction false} DeletesWrite(before: seq<Step>, cs: seq<Constraint>)
    ensures Written(before + Deletes(cs)) == Written(before) - D.Uids(cs)
  {
    if cs == [] {
      assert before + Deletes(cs) == before;
    } else {
      var last := |cs| - 1;
      DeletesWrite(before, cs[..last]);
      assert (before + Deletes(cs))[..|before| + last] == before + Deletes(cs[..last]);
      assert D.Uids(cs) == D.Uids(cs[..last]) + {cs[last].uid};
      RemovedInTurn(Written(before), D.Uids(cs[..last]), cs[last].uid);
    }
  }

  lemma EventWritesIndex(before: seq<Step>, w: L.World, e: L.Event)
    requires w.index == Written(before)
    ensures L.Next(w, e).index == Written(before + EventWrites(e))
  {
    var parsed := L.Parse(e.subject);
    if e.Seen? {
      if parsed.None? {
        assert before + [] == before;
      } else {
        UpsertsWrite(before, parsed.value);
      }
    } else if parsed.None? || parsed.value == [] {
      assert (before + [Delete(e.subject.uid)])[..|before|] == before;
    } else {
      DeletesWrite(before, parsed.value);
    }
  }

  lemma {:induction false} EventsWrite(worlds: seq<L.World>, events: seq<L.Event>, i: nat)
    requires L.IsRun(worlds, events) && i < |worlds|
    ensures worlds[i].index == Written(AllWrites(events[..i]))
  {
    if i > 0 {
      EventsWrite(worlds, events, i - 1);
      EventWritesIndex(AllWrites(events[..i - 1]), worlds[i - 1], events[i - 1]);
      assert events[..i][..i - 1] == events[..i - 1];
    }
  }

  lemma {:induction false} EventsWriteNoBulk(events: seq<L.Event>)
    ensures NoBulk(AllWrites(events))
  {
    if events != [] {
      EventsWriteNoBulk(events[..|events| - 1]);
    }
  }

  // ---------------------------------------------------------------- scopes

  /** The writes to one UID keep to scopes, and later constraints reach every namespace earlier ones reached. */
  ghost predicate InScope(k: Cluster, ws: seq<Step>) {
    && (forall i | 0 <= i < |ws| && ws[i].Upsert? :: ws[i].c.namespace != "" || ws[i].c.affected == [])
    && forall i, j, ns | 0 <= i < j < |ws| && ws[i].Upsert? && ws[j].Upsert? && ns in k.namespaces && Matches(ws[i].c, ns) ::
         Matches(ws[j].c, ns)
  }

  /** The parses of the events keep to scopes. */
  ghost predicate ScopedEvents(k: Cluster, events: seq<L.Event>) {
    forall u :: InScope(k, WritesAbout(AllWrites(events), u))
  }

  lemma {:induction false} EarlierWrites(steps: seq<Step>, i: nat, u: string)
    requires i <= |steps|
    ensures WritesAbout(steps[..i], u) <= WritesAbout(steps, u)
    decreases |steps|
  {
    if i == |steps| {
      assert steps[..i] == steps;
    } else {
      EarlierWrites(steps[..|steps| - 1], i, u);
      assert steps[..|steps| - 1][..i] == steps[..i];
    }
  }

  /** A run whose writes to every UID keep to scopes keeps to scopes. */
  lemma WritesKeepScope(k: Cluster, states: seq<State>, steps: seq<Step>, i: nat)
    requires IsRun(k, states, steps) && i < |steps| && states[0].index == map[] && NoBulk(steps)
    requires forall u :: InScope(k, WritesAbout(steps, u))
    ensures KeepsScope(k, states[i].index, steps[i])
  {
    if steps[i].Upsert? {
      var u := steps[i].c.uid;
      var before, all := WritesAbout(steps[..i], u), WritesAbout(steps, u);
      assert steps[..i + 1][..i] == steps[..i];
      EarlierWrites(steps, i, u);
      EarlierWrites(steps, i + 1, u);
      assert all[|before|] == steps[i] && InScope(k, all);
      RunWrites(k, states, steps, i);
      WrittenIsLastWrite(steps[..i], u);
      if u in states[i].index {
        assert all[|before| - 1] == before[|before| - 1] == Upsert(states[i].index[u]);
      }
    }
  }

  // ---------------------------------------------------------------- the main result

  /** The constraints of the live objects that concern a namespace. */
  ghost function LiveAnswer(w: L.World, ns: string): set<Constraint> {
    set uid, c | uid in w.live && c in w.live[uid] && Matches(c, ns) :: c
  }

  lemma ExactAnswers(w: L.World, length: nat, ns: string)
    requires L.Tracked(w, length) && L.Exact(w)
    ensures ByNamespace(w.index, ns) == LiveAnswer(w, ns)
  {
    forall c | c in LiveAnswer(w, ns)
      ensures c in ByNamespace(w.index, ns)
    {
      var uid :| uid in w.live && c in w.live[uid];
      assert L.TrackedOne(w, uid);
      assert Lookup(w.index, c.uid) == Some(c);
    }
  }

  /**
   Events of live objects change the index in any interleaving that keeps the order of writes per UID;
   callbacks and reconciler passes run beside them. If no event drops a UID, no call fails and the parses
   keep to scopes, then once nothing is on its way each report holds exactly the constraints of the live
   objects that concern its namespace.
   */
  lemma ReportsAreTheLiveObjects(k: Cluster, states: seq<State>, steps: seq<Step>, worlds: seq<L.World>, events: seq<L.Event>,
                                 length: nat, ns: string)
    requires IsRun(k, states, steps) && Inv(k, states[0]) && states[0].index == map[] && NoBulk(steps)
    requires forall i | 0 <= i < |steps| :: !Fails(steps[i])
    requires L.IsRun(worlds, events) && L.FixedLength(events, length)
    requires forall i | 0 <= i < |events| :: !L.Drops(worlds[i], events[i])
    requires ScopedEvents(k, events) && forall u :: WritesAbout(steps, u) == WritesAbout(AllWrites(events), u)
    requires Quiescent(states[|steps|]) && ns in k.namespaces
    ensures Report(states[|steps|], ns) == LiveAnswer(worlds[|events|], ns)
  {
    forall i | 0 <= i < |steps|
      ensures KeepsScope(k, states[i].index, steps[i])
    {
      WritesKeepScope(k, states, steps, i);
    }
    ScopedRunsConverge(k, states, steps, |steps|);
    RunWrites(k, states, steps, |steps|);
    EventsWrite(worlds, events, |events|);
    EventsWriteNoBulk(events);
    SameWritesSameIndex(steps, AllWrites(events));
    assert steps[..|steps|] == steps && events[..|events|] == events;
    L.IndexIsExact(worlds, events, length, |events|);
    ExactAnswers(worlds[|events|], length, ns);
  }
}
