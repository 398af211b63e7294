/** Routing an object to an adapter: the engine's profiles first, then the registry, then the generic adapter. */
module Routing {
  import opened Kube
  import Discovery
  import opened AdapterRegistry

  /** A choice the engine may make among its profiles: map order decides between several enabled ones. */
  ghost predicate Chosen(profiles: map<string, Discovery.Profile>, gvr: GVR, adapter: Option<string>) {
    match adapter
    case None => !Discovery.Needed(profiles, gvr)
    case Some(a) => exists n | n in profiles :: profiles[n].enabled && profiles[n].gvr == gvr && profiles[n].adapter == a
  }

  /** An enabled profile of the resource that names a registered adapter. */
  predicate Names(s: State, p: Discovery.Profile, gvr: GVR) {
    p.enabled && p.gvr == gvr && p.adapter != "" && p.adapter != "generic" && p.adapter in s.adapters
  }

  /** No enabled profile of the resource names a registered adapter. */
  ghost predicate Unnamed(s: State, profiles: map<string, Discovery.Profile>, gvr: GVR) {
    forall n | n in profiles :: !Names(s, profiles[n], gvr)
  }

  /** Searches the profiles in an arbitrary order for an enabled one of the resource. */
  method FindProfile(engine: Discovery.Engine, gvr: GVR) returns (adapter: Option<string>)
    ensures Chosen(engine.profiles, gvr, adapter)
  {
    var todo := engine.profiles.Keys;
    while todo != {}
      invariant todo <= engine.profiles.Keys
      invariant forall n | n in engine.profiles && n !in todo ::
                  !(engine.profiles[n].enabled && engine.profiles[n].gvr == gvr)
      decreases todo
    {
      var n :| n in todo;
      if engine.profiles[n].enabled && engine.profiles[n].gvr == gvr {
        return Some(engine.profiles[n].adapter);
      }
      todo := todo - {n};
    }
    adapter := None;
  }

  /** Which adapter parses an object of the resource. */
  method Choose(engine: Discovery.Engine, registry: Registry, gvr: GVR) returns (route: Route)
    ensures exists profile :: Chosen(engine.profiles, gvr, profile) && route == RouteOf(registry.Model(), profile, gvr)
    ensures Unnamed(registry.Model(), engine.profiles, gvr) && gvr in registry.gvrMap ==> route == ToAdapter(registry.gvrMap[gvr])
    ensures Unnamed(registry.Model(), engine.profiles, gvr) && gvr !in registry.gvrMap && gvr.group in registry.groupMap ==>
              route == ToAdapter(registry.groupMap[gvr.group])
    ensures (exists n | n in engine.profiles :: Names(registry.Model(), engine.profiles[n], gvr)) &&
            (forall n | n in engine.profiles && engine.profiles[n].enabled && engine.profiles[n].gvr == gvr ::
               Names(registry.Model(), engine.profiles[n], gvr)) ==>
              exists n | n in engine.profiles && Names(registry.Model(), engine.profiles[n], gvr) ::
                route == ToAdapter(registry.adapters[engine.profiles[n].adapter])
  {
    var adapter := FindProfile(engine, gvr);
    if adapter.Some? && adapter.value != "" && adapter.value != "generic" {
      if adapter.value in registry.adapters {
        return ToAdapter(registry.adapters[adapter.value]);
      }
    }
    if gvr in registry.gvrMap {
      return ToAdapter(registry.gvrMap[gvr]);
    }
    if gvr.group in registry.groupMap {
      return ToAdapter(registry.groupMap[gvr.group]);
    }
    route := ToGeneric(adapter.Some?);
  }

  /**
   In a registry reached by careful operations, an object can end at the generic adapter exactly if
   nothing of its group is mapped and some choice of profile names no registered adapter.
   */
  lemma GenericReachableIff(
      states: seq<State>, ops: seq<Op>, i: nat, profiles: map<string, Discovery.Profile>, gvr: GVR, choice: Option<string>)
    requires IsRun(states, ops) && i < |states|
    requires forall j | 0 <= j < i :: Careful(states[j], ops[j])
    requires Chosen(profiles, gvr, choice)
    ensures RouteOf(states[i], choice, gvr).ToGeneric? <==>
            && !InGroup(states[i].byGVR, gvr.group)
            && (choice.None? || choice.value in ["", "generic"] || choice.value !in states[i].adapters)
    ensures Unnamed(states[i], profiles, gvr) ==>
              (RouteOf(states[i], choice, gvr).ToGeneric? <==> !InGroup(states[i].byGVR, gvr.group))
  {
    CarefulRunsAreTidy(states, ops, i);
  }

  /** Who parses an object: the adapter a profile names, else the one mapped to exactly its resource, else its group's. */
  lemma RoutePrecedence(s: State, profiles: map<string, Discovery.Profile>, gvr: GVR, choice: Option<string>)
    requires Chosen(profiles, gvr, choice)
    ensures (exists n | n in profiles :: Names(s, profiles[n], gvr) && choice == Some(profiles[n].adapter)) ==>
              RouteOf(s, choice, gvr) == ToAdapter(s.adapters[choice.value])
    ensures !(exists n | n in profiles :: Names(s, profiles[n], gvr) && choice == Some(profiles[n].adapter)) ==>
              if gvr in s.byGVR then RouteOf(s, choice, gvr) == ToAdapter(s.byGVR[gvr])
              else if gvr.group in s.byGroup then RouteOf(s, choice, gvr) == ToAdapter(s.byGroup[gvr.group])
              else RouteOf(s, choice, gvr).ToGeneric?
  {
  }

  /** From its registration until the resource is withdrawn, an adapter gets the objects of each of its resources. */
  lemma RegisteredIsRouted(states: seq<State>, ops: seq<Op>, i: nat, k: nat, profiles: map<string, Discovery.Profile>, gvr: GVR,
                           choice: Option<string>)
    requires IsRun(states, ops) && i < k < |states| && ops[i].Register? && gvr in ops[i].adapter.handles
    requires ops[i].adapter.name !in states[i].adapters && ops[i].adapter.name in states[i + 1].adapters
    requires forall j | i < j < k :: !Withdraws(ops[j], ops[i].adapter, gvr)
    requires Chosen(profiles, gvr, choice) && Unnamed(states[k], profiles, gvr)
    ensures RouteOf(states[k], choice, gvr) == ToAdapter(ops[i].adapter)
  {
    RegisteredIsMapped(states, ops, i, k, gvr);
    RoutePrecedence(states[k], profiles, gvr, choice);
  }
}
