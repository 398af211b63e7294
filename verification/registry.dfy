/**
 The adapter registry: three maps that route a resource to the adapter that parses it, by exact
 resource, by API group, or by name. The first adapter of a group answers for the whole group.
 */
module AdapterRegistry {
  import opened Kube

  datatype Adapter = Adapter(name: string, handles: seq<GVR>)

  datatype State = State(adapters: map<string, Adapter>, byGVR: map<GVR, Adapter>, byGroup: map<string, Adapter>)

  datatype Op =
    | Register(adapter: Adapter)
    | Unregister(name: string)
    | RegisterGVR(gvr: GVR, adapter: Adapter)
    | UnregisterGVR(gvr: GVR)

  const EMPTY := State(map[], map[], map[])

  // ---------------------------------------------------------------- the operations

  /** Maps one resource; the group keeps an earlier adapter. */
  function Claim(s: State, gvr: GVR, a: Adapter): State {
    s.(byGVR := s.byGVR[gvr := a],
       byGroup := if gvr.group in s.byGroup then s.byGroup else s.byGroup[gvr.group := a])
  }

  /** Maps the adapter's resources in turn, stopping at the first one that is taken; what was mapped stays. */
  function ClaimAll(s: State, a: Adapter, gvrs: seq<GVR>): (State, bool) {
    if gvrs == [] then (s, true)
    else
      var (t, ok) := ClaimAll(s, a, gvrs[..|gvrs| - 1]);
      var last := gvrs[|gvrs| - 1];
      if !ok || last in t.byGVR then (t, false) else (Claim(t, last, a), true)
  }

  function Registered(s: State, a: Adapter): State {
    if a.name in s.adapters then s
    else
      var (t, ok) := ClaimAll(s, a, a.handles);
      if ok then t.(adapters := t.adapters[a.name := a]) else t
  }

  ghost predicate InGroup(byGVR: map<GVR, Adapter>, group: string) {
    exists gvr | gvr in byGVR :: gvr.group == group
  }

  /** The adapter has a mapped resource in the group. */
  ghost predicate Owns(byGVR: map<GVR, Adapter>, group: string, name: string) {
    exists gvr | gvr in byGVR :: gvr.group == group && byGVR[gvr].name == name
  }

  ghost function Others(byGVR: map<GVR, Adapter>, name: string): map<GVR, Adapter> {
    map gvr | gvr in byGVR && byGVR[gvr].name != name :: byGVR[gvr]
  }

  /** The new adapter of a group some of whose resources were removed: any adapter left in the group. */
  ghost predicate Reassigned(byGVR: map<GVR, Adapter>, group: string, now: Option<Adapter>) {
    match now
    case Some(a) => exists gvr | gvr in byGVR :: gvr.group == group && byGVR[gvr] == a
    case None => !InGroup(byGVR, group)
  }

  function GroupAdapter(byGroup: map<string, Adapter>, group: string): Option<Adapter> {
    if group in byGroup then Some(byGroup[group]) else None
  }

  ghost predicate Unregisters(s: State, name: string, t: State) {
    if name !in s.adapters then t == s
    else
      && t.adapters == s.adapters - {name}
      && t.byGVR == Others(s.byGVR, name)
      && forall group ::
           if group in s.byGroup && s.byGroup[group].name == name && Owns(s.byGVR, group, name)
           then Reassigned(t.byGVR, group, GroupAdapter(t.byGroup, group))
           else GroupAdapter(t.byGroup, group) == GroupAdapter(s.byGroup, group)
  }

  ghost function UnregisteredGVR(s: State, gvr: GVR): State {
    if gvr !in s.byGVR then s
    else
      var left := s.byGVR - {gvr};
      var orphaned := gvr.group in s.byGroup && s.byGroup[gvr.group].name == s.byGVR[gvr].name && !InGroup(left, gvr.group);
      s.(byGVR := left, byGroup := if orphaned then s.byGroup - {gvr.group} else s.byGroup)
  }

  ghost predicate Step(s: State, op: Op, t: State) {
    match op
    case Register(a) => t == Registered(s, a)
    case Unregister(name) => Unregisters(s, name, t)
    case RegisterGVR(gvr, a) => t == Claim(s, gvr, a)
    case UnregisterGVR(gvr) => t == UnregisteredGVR(s, gvr)
  }

  ghost predicate IsRun(states: seq<State>, ops: seq<Op>) {
    && |states| == |ops| + 1 && states[0] == EMPTY
    && forall i | 0 <= i < |ops| :: Step(states[i], ops[i], states[i + 1])
  }

  // ---------------------------------------------------------------- coverage

  /** Every mapped resource's group has an adapter. */
  ghost predicate Covered(s: State) {
    forall gvr | gvr in s.byGVR :: gvr.group in s.byGroup
  }

  lemma {:induction false} ClaimAllKeeps(s: State, a: Adapter, gvrs: seq<GVR>)
    ensures var t := ClaimAll(s, a, gvrs).0;
            && (Covered(s) ==> Covered(t))
            && (Covered(s) && Tidy(s) ==> Tidy(t))
            && t.adapters == s.adapters
            && forall g | g in s.byGroup :: g in t.byGroup && t.byGroup[g] == s.byGroup[g]
  {
    if gvrs != [] {
      ClaimAllKeeps(s, a, gvrs[..|gvrs| - 1]);
      var t := ClaimAll(s, a, gvrs[..|gvrs| - 1]).0;
      if Covered(s) && Tidy(s) && gvrs[|gvrs| - 1] !in t.byGVR {
        ClaimKeepsTidy(t, gvrs[|gvrs| - 1], a);
      }
    }
  }

  ghost predicate Distinct(gvrs: seq<GVR>) {
    forall i, j | 0 <= i < j < |gvrs| :: gvrs[i] != gvrs[j]
  }

  /**
   A registration succeeds exactly if its resources are different and none is mapped, and then maps every
   one of them; whether it succeeds or not, it changes no mapping and maps nothing else.
   */
  lemma {:induction false} ClaimAllExactly(s: State, a: Adapter, gvrs: seq<GVR>)
    ensures var (t, ok) := ClaimAll(s, a, gvrs);
            && (ok <==> Distinct(gvrs) && forall g | g in gvrs :: g !in s.byGVR)
            && (ok ==> forall g | g in gvrs :: g in t.byGVR && t.byGVR[g] == a)
            && (forall g | g in s.byGVR :: g in t.byGVR && t.byGVR[g] == s.byGVR[g])
            && (forall g | g in t.byGVR && g !in s.byGVR :: g in gvrs && t.byGVR[g] == a)
  {
    if gvrs != [] {
      var front, last := gvrs[..|gvrs| - 1], gvrs[|gvrs| - 1];
      ClaimAllExactly(s, a, front);
      assert forall g :: g in gvrs <==> g in front || g == last;
      if Distinct(front) {
        assert Distinct(gvrs) <==> last !in front;
      }
    }
  }

  lemma StepKeepsCovered(s: State, op: Op, t: State)
    requires Covered(s) && Step(s, op, t)
    ensures Covered(t)
  {
    match op
    case Register(a) => ClaimAllKeeps(s, a, a.handles);
    case Unregister(name) =>
      forall gvr | gvr in t.byGVR
        ensures gvr.group in t.byGroup
      {
        assert GroupAdapter(t.byGroup, gvr.group).Some? by {
          assert gvr in s.byGVR && GroupAdapter(s.byGroup, gvr.group).Some?;
          assert InGroup(t.byGVR, gvr.group);
        }
      }
    case RegisterGVR(_, _) =>
    case UnregisterGVR(gvr) =>
  }

  /** In every reachable state, also after a registration that failed half way, each mapped group has an adapter. */
  lemma {:induction false} AlwaysCovered(states: seq<State>, ops: seq<Op>, i: nat)
    requires IsRun(states, ops) && i < |states|
    ensures Covered(states[i])
  {
    if i > 0 {
      AlwaysCovered(states, ops, i - 1);
      StepKeepsCovered(states[i - 1], ops[i - 1], states[i]);
    }
  }

  // ---------------------------------------------------------------- stability

  /** A group changes its adapter only when that adapter is unregistered or its last resource goes. */
  lemma GroupAdapterIsStable(s: State, op: Op, t: State, group: string)
    requires Step(s, op, t) && group in s.byGroup
    ensures GroupAdapter(t.byGroup, group) == GroupAdapter(s.byGroup, group) ||
            (op.Unregister? && op.name == s.byGroup[group].name) ||
            (op.UnregisterGVR? && op.gvr.group == group && !InGroup(t.byGVR, group))
  {
    match op
    case Register(a) => ClaimAllKeeps(s, a, a.handles);
    case Unregister(_) =>
    case RegisterGVR(_, _) =>
    case UnregisterGVR(_) =>
  }

  // ---------------------------------------------------------------- tidiness

  /** Every group's adapter has a resource of that group. */
  ghost predicate Tidy(s: State) {
    forall g | g in s.byGroup :: Owns(s.byGVR, g, s.byGroup[g].name)
  }

  lemma ClaimKeepsTidy(s: State, gvr: GVR, a: Adapter)
    requires Tidy(s) && gvr !in s.byGVR
    ensures Tidy(Claim(s, gvr, a))
  {
  }

  lemma UnregisterKeepsTidy(s: State, name: string, t: State)
    requires Tidy(s) && Unregisters(s, name, t)
    ensures Tidy(t)
  {
    if name in s.adapters {
      forall g | g in t.byGroup
        ensures Owns(t.byGVR, g, t.byGroup[g].name)
      {
        if g in s.byGroup && s.byGroup[g].name == name {
          assert Reassigned(t.byGVR, g, GroupAdapter(t.byGroup, g));
        } else {
          assert GroupAdapter(t.byGroup, g) == GroupAdapter(s.byGroup, g);
          var w :| w in s.byGVR && w.group == g && s.byGVR[w].name == s.byGroup[g].name;
          assert w in t.byGVR && t.byGVR[w] == s.byGVR[w];
        }
      }
    }
  }

  /** With coverage, tidiness makes the two sets of groups equal. */
  lemma TidyGroups(s: State)
    requires Tidy(s) && Covered(s)
    ensures forall g :: g in s.byGroup <==> InGroup(s.byGVR, g)
  {
  }

  /** Unmapping one resource leaves the groups tidy exactly when its group's adapter keeps another, or the group is done. */
  lemma UnregisterGVRKeepsTidyIff(s: State, gvr: GVR)
    requires Tidy(s) && Covered(s) && gvr in s.byGVR
    ensures Tidy(UnregisteredGVR(s, gvr)) <==>
            (s.byGVR[gvr].name != s.byGroup[gvr.group].name ||
             !InGroup(s.byGVR - {gvr}, gvr.group) ||
             Owns(s.byGVR - {gvr}, gvr.group, s.byGroup[gvr.group].name))
  {
  }

  /** Overwriting a mapping leaves the groups tidy exactly when the group's adapter still has a resource. */
  lemma OverwriteKeepsTidyIff(s: State, gvr: GVR, a: Adapter)
    requires Tidy(s) && Covered(s) && gvr in s.byGVR
    ensures Tidy(Claim(s, gvr, a)) <==>
            (a.name == s.byGroup[gvr.group].name ||
             Owns(s.byGVR - {gvr}, gvr.group, s.byGroup[gvr.group].name))
  {
  }

  /** The operation leaves each group with an adapter that has a resource in it. */
  ghost predicate Careful(s: State, op: Op) {
    match op
    case Register(_) => true
    case Unregister(_) => true
    case RegisterGVR(gvr, a) =>
      gvr in s.byGVR && gvr.group in s.byGroup ==>
        a.name == s.byGroup[gvr.group].name || Owns(s.byGVR - {gvr}, gvr.group, s.byGroup[gvr.group].name)
    case UnregisterGVR(gvr) =>
      gvr in s.byGVR && gvr.group in s.byGroup ==>
        || s.byGVR[gvr].name != s.byGroup[gvr.group].name
        || !InGroup(s.byGVR - {gvr}, gvr.group)
        || Owns(s.byGVR - {gvr}, gvr.group, s.byGroup[gvr.group].name)
  }

  lemma StepKeepsTidyIff(s: State, op: Op, t: State)
    requires Tidy(s) && Covered(s) && Step(s, op, t)
    ensures Tidy(t) <==> Careful(s, op)
  {
    match op
    case Register(a) => ClaimAllKeeps(s, a, a.handles);
    case Unregister(name) => UnregisterKeepsTidy(s, name, t);
    case RegisterGVR(gvr, a) =>
      if gvr in s.byGVR {
        OverwriteKeepsTidyIff(s, gvr, a);
      } else {
        ClaimKeepsTidy(s, gvr, a);
      }
    case UnregisterGVR(gvr) =>
      if gvr in s.byGVR {
        UnregisterGVRKeepsTidyIff(s, gvr);
      }
  }

  /**
   Over careful operations, registrations, unregistrations and mappings of unmapped resources among
   them, the groups with an adapter are exactly the groups of mapped resources, and each group's
   adapter has one of them.
   */
  lemma {:induction false} CarefulRunsAreTidy(states: seq<State>, ops: seq<Op>, i: nat)
    requires IsRun(states, ops) && i < |states|
    requires forall j | 0 <= j < i :: Careful(states[j], ops[j])
    ensures Tidy(states[i])
    ensures forall g :: g in states[i].byGroup <==> InGroup(states[i].byGVR, g)
  {
    if i > 0 {
      CarefulRunsAreTidy(states, ops, i - 1);
      AlwaysCovered(states, ops, i - 1);
      assert Careful(states[i - 1], ops[i - 1]);
      StepKeepsTidyIff(states[i - 1], ops[i - 1], states[i]);
    }
    AlwaysCovered(states, ops, i);
    TidyGroups(states[i]);
  }

  /** A run is tidy throughout exactly if each of its operations is careful. */
  lemma TidyThroughoutIff(states: seq<State>, ops: seq<Op>)
    requires IsRun(states, ops)
    ensures (forall i | 0 <= i < |states| :: Tidy(states[i])) <==> forall i | 0 <= i < |ops| :: Careful(states[i], ops[i])
  {
    if forall i | 0 <= i < |ops| :: Careful(states[i], ops[i]) {
      forall i | 0 <= i < |states|
        ensures Tidy(states[i])
      {
        CarefulRunsAreTidy(states, ops, i);
      }
    }
    if forall i | 0 <= i < |states| :: Tidy(states[i]) {
      forall i | 0 <= i < |ops|
        ensures Careful(states[i], ops[i])
      {
        AlwaysCovered(states, ops, i);
        assert Tidy(states[i]) && Tidy(states[i + 1]);
        StepKeepsTidyIff(states[i], ops[i], states[i + 1]);
      }
    }
  }

  /** Unmapping the first adapter's only resource leaves the group to an adapter with nothing in it. */
  lemma UnmappingOrphansOwner(a: Adapter, b: Adapter, first: GVR, second: GVR) returns (states: seq<State>, ops: seq<Op>)
    requires a.name != b.name && first != second && first.group == second.group
    ensures IsRun(states, ops) && ops == [RegisterGVR(first, a), RegisterGVR(second, b), UnregisterGVR(first)]
    ensures states[3].byGroup == map[first.group := a] && states[3].byGVR == map[second := b] && !Tidy(states[3])
  {
    var one := Claim(EMPTY, first, a);
    var two := Claim(one, second, b);
    var three := UnregisteredGVR(two, first);
    states, ops := [EMPTY, one, two, three], [RegisterGVR(first, a), RegisterGVR(second, b), UnregisterGVR(first)];
    assert second in two.byGVR - {first};
    assert three.byGVR == map[second := b];
    assert !Owns(three.byGVR, first.group, a.name);
    assert first.group in three.byGroup;
  }

  /** So does mapping that resource to another adapter. */
  lemma OverwritingOrphansOwner(a: Adapter, b: Adapter, gvr: GVR) returns (states: seq<State>, ops: seq<Op>)
    requires a.name != b.name
    ensures IsRun(states, ops) && ops == [RegisterGVR(gvr, a), RegisterGVR(gvr, b)]
    ensures states[2].byGroup == map[gvr.group := a] && states[2].byGVR == map[gvr := b] && !Tidy(states[2])
  {
    var one := Claim(EMPTY, gvr, a);
    var two := Claim(one, gvr, b);
    states, ops := [EMPTY, one, two], [RegisterGVR(gvr, a), RegisterGVR(gvr, b)];
    assert !Owns(two.byGVR, gvr.group, a.name);
    assert gvr.group in two.byGroup;
  }

  // ---------------------------------------------------------------- routing an object

  /** The profile the engine found for a resource: the name of an adapter, or "" or "generic". */
  datatype Route = ToAdapter(adapter: Adapter) | ToGeneric(withProfile: bool)

  function RouteOf(s: State, profile: Option<string>, gvr: GVR): Route {
    if profile.Some? && profile.value != "" && profile.value != "generic" && profile.value in s.adapters
    then ToAdapter(s.adapters[profile.value])
    else if gvr in s.byGVR then ToAdapter(s.byGVR[gvr])
    else if gvr.group in s.byGroup then ToAdapter(s.byGroup[gvr.group])
    else ToGeneric(profile.Some?)
  }

  /** The generic adapter is the last resort: it is reached only if no resource of the group is mapped at all. */
  lemma GenericIsLastResort(states: seq<State>, ops: seq<Op>, i: nat, profile: Option<string>, gvr: GVR)
    requires IsRun(states, ops) && i < |states|
    requires RouteOf(states[i], profile, gvr).ToGeneric?
    ensures !InGroup(states[i].byGVR, gvr.group)
  {
    AlwaysCovered(states, ops, i);
  }

  /** The operation may take the resource away from the adapter. */
  predicate Withdraws(op: Op, a: Adapter, gvr: GVR) {
    match op
    case Register(_) => false
    case Unregister(name) => name == a.name
    case RegisterGVR(other, _) => other == gvr
    case UnregisterGVR(other) => other == gvr
  }

  lemma MappingStays(s: State, op: Op, t: State, a: Adapter, gvr: GVR)
    requires Step(s, op, t) && gvr in s.byGVR && s.byGVR[gvr] == a && !Withdraws(op, a, gvr)
    ensures gvr in t.byGVR && t.byGVR[gvr] == a
  {
    if op.Register? {
      ClaimAllExactly(s, op.adapter, op.adapter.handles);
    }
  }

  /** A registration that succeeds maps each of the adapter's resources to it, until one is withdrawn. */
  lemma {:induction false} RegisteredIsMapped(states: seq<State>, ops: seq<Op>, i: nat, k: nat, gvr: GVR)
    requires IsRun(states, ops) && i < k < |states| && ops[i].Register? && gvr in ops[i].adapter.handles
    requires ops[i].adapter.name !in states[i].adapters && ops[i].adapter.name in states[i + 1].adapters
    requires forall j | i < j < k :: !Withdraws(ops[j], ops[i].adapter, gvr)
    ensures gvr in states[k].byGVR && states[k].byGVR[gvr] == ops[i].adapter
  {
    var a := ops[i].adapter;
    if k == i + 1 {
      ClaimAllExactly(states[i], a, a.handles);
      ClaimAllKeeps(states[i], a, a.handles);
    } else {
      RegisteredIsMapped(states, ops, i, k - 1, gvr);
      assert !Withdraws(ops[k - 1], a, gvr);
      MappingStays(states[k - 1], ops[k - 1], states[k], a, gvr);
    }
  }

  // ---------------------------------------------------------------- the registry in place

  class Registry {
    var adapters: map<string, Adapter>
    var gvrMap: map<GVR, Adapter>
    var groupMap: map<string, Adapter>

    constructor ()
      ensures Model() == EMPTY
    {
      adapters, gvrMap, groupMap := map[], map[], map[];
    }

    ghost function Model(): State
      reads this
    {
      State(adapters, gvrMap, groupMap)
    }

    /** Fails on a known name, or at the first resource that is taken, keeping the ones mapped so far. */
    method AddAdapter(adapter: Adapter) returns (ok: bool)
      modifies this
      ensures Step(old(Model()), Register(adapter), Model())
      ensures ok <==> adapter.name !in old(adapters) && Distinct(adapter.handles) && forall g | g in adapter.handles :: g !in old(gvrMap)
      ensures adapters == if ok then old(adapters)[adapter.name := adapter] else old(adapters)
      ensures ok ==> forall g | g in adapter.handles :: g in gvrMap && gvrMap[g] == adapter
      ensures forall g | g in old(gvrMap) :: g in gvrMap && gvrMap[g] == old(gvrMap)[g]
    {
      ClaimAllExactly(Model(), adapter, adapter.handles);
      ClaimAllKeeps(Model(), adapter, adapter.handles);
      if adapter.name in adapters {
        return false;
      }
      for i := 0 to |adapter.handles|
        invariant (Model(), true) == ClaimAll(old(Model()), adapter, adapter.handles[..i])
      {
        var gvr := adapter.handles[i];
        assert adapter.handles[..i + 1][..i] == adapter.handles[..i];
        if gvr in gvrMap {
          StuckStays(old(Model()), adapter, adapter.handles, i + 1);
          return false;
        }
        gvrMap := gvrMap[gvr := adapter];
        if gvr.group !in groupMap {
          groupMap := groupMap[gvr.group := adapter];
        }
      }
      assert adapter.handles[..|adapter.handles|] == adapter.handles;
      adapters := adapters[adapter.name := adapter];
      ok := true;
    }

    method RemoveAdapter(name: string) returns (ok: bool)
      modifies this
      ensures Step(old(Model()), Unregister(name), Model())
      ensures ok <==> name in old(adapters)
    {
      if name !in adapters {
        return false;
      }
      var affected := DropMappings(name);
      ReassignGroups(name, affected);
      adapters := adapters - {name};
      ok := true;
    }

    /** The first loop of the removal: unmaps the adapter's resources and notes their groups. */
    method DropMappings(name: string) returns (affected: set<string>)
      modifies this`gvrMap
      ensures gvrMap == Others(old(gvrMap), name)
      ensures forall g :: g in affected <==> Owns(old(gvrMap), g, name)
    {
      affected := {};
      var todo := gvrMap.Keys;
      ghost var was := gvrMap;
      while todo != {}
        invariant todo <= was.Keys
        invariant gvrMap == map gvr | gvr in was && (gvr in todo || was[gvr].name != name) :: was[gvr]
        invariant forall g | g in affected :: Owns(was, g, name)
        invariant forall gvr | gvr in was && gvr !in todo && was[gvr].name == name :: gvr.group in affected
        decreases todo
      {
        var gvr :| gvr in todo;
        if gvrMap[gvr].name == name {
          gvrMap := gvrMap - {gvr};
          affected := affected + {gvr.group};
        }
        todo := todo - {gvr};
      }
    }

    /** The second loop: each affected group the adapter answered for goes to any adapter left in it. */
    method ReassignGroups(name: string, affected: set<string>)
      modifies this`groupMap
      ensures forall g ::
                if g in affected && g in old(groupMap) && old(groupMap)[g].name == name
                then Reassigned(gvrMap, g, GroupAdapter(groupMap, g))
                else GroupAdapter(groupMap, g) == old(GroupAdapter(groupMap, g))
    {
      var todo := affected;
      while todo != {}
        invariant todo <= affected
        invariant forall g | g !in affected || g in todo :: GroupAdapter(groupMap, g) == old(GroupAdapter(groupMap, g))
        invariant forall g | g in affected && g !in todo ::
                    if g in old(groupMap) && old(groupMap)[g].name == name
                    then Reassigned(gvrMap, g, GroupAdapter(groupMap, g))
                    else GroupAdapter(groupMap, g) == old(GroupAdapter(groupMap, g))
        decreases todo
      {
        var group :| group in todo;
        if group in groupMap && groupMap[group].name == name {
          var left := AdapterInGroup(group);
          if left.Some? {
            groupMap := groupMap[group := left.value];
          } else {
            groupMap := groupMap - {group};
          }
        }
        todo := todo - {group};
      }
    }

    /** Searches the mapped resources in an arbitrary order for one of the group. */
    method AdapterInGroup(group: string) returns (found: Option<Adapter>)
      ensures Reassigned(gvrMap, group, found)
    {
      var todo := gvrMap.Keys;
      while todo != {}
        invariant todo <= gvrMap.Keys
        invariant forall gvr | gvr in gvrMap && gvr !in todo :: gvr.group != group
        decreases todo
      {
        var gvr :| gvr in todo;
        if gvr.group == group {
          return Some(gvrMap[gvr]);
        }
        todo := todo - {gvr};
      }
      found := None;
    }

    method MapGVR(gvr: GVR, adapter: Adapter)
      modifies this
      ensures Step(old(Model()), RegisterGVR(gvr, adapter), Model())
    {
      gvrMap := gvrMap[gvr := adapter];
      if gvr.group !in groupMap {
        groupMap := groupMap[gvr.group := adapter];
      }
    }

    method UnmapGVR(gvr: GVR)
      modifies this
      ensures Step(old(Model()), UnregisterGVR(gvr), Model())
    {
      if gvr in gvrMap {
        var adapter := gvrMap[gvr];
        gvrMap := gvrMap - {gvr};
        if gvr.group in groupMap && groupMap[gvr.group].name == adapter.name {
          var left := AdapterInGroup(gvr.group);
          if left.None? {
            groupMap := groupMap - {gvr.group};
          }
        }
      }
    }
  }

  /** Once a registration is stuck on a taken resource, the rest of its list changes nothing. */
  lemma {:induction false} StuckStays(s: State, a: Adapter, gvrs: seq<GVR>, i: nat)
    requires i <= |gvrs| && !ClaimAll(s, a, gvrs[..i]).1
    ensures ClaimAll(s, a, gvrs) == ClaimAll(s, a, gvrs[..i])
    decreases |gvrs|
  {
    if i == |gvrs| {
      assert gvrs[..i] == gvrs;
    } else {
      assert gvrs[..|gvrs| - 1][..i] == gvrs[..i];
      StuckStays(s, a, gvrs[..|gvrs| - 1], i);
    }
  }
}
