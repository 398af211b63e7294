/**
 The in-memory constraint index: a map keyed by UID, the namespace query, and the stream of
 change events handed to the callback.
 */
module Indexing {
  import opened Kube

  type Index = map<string, Constraint>

  datatype Event = Upserted(constraint: Constraint) | Deleted(constraint: Constraint)

  /** Every constraint is stored under its own UID. */
  ghost predicate Keyed(index: Index) {
    forall u | u in index :: index[u].uid == u
  }

  /** Whether a constraint is reported for a namespace. */
  predicate Matches(c: Constraint, ns: string) {
    c.namespace == "" || c.namespace == ns || ns in c.affected
  }

  /** The namespace query; map iteration order is arbitrary, so the answer is a set. */
  ghost function ByNamespace(index: Index, ns: string): set<Constraint> {
    set u | u in index && Matches(index[u], ns) :: index[u]
  }

  /** The constraints of an index that come from one resource. */
  ghost function FromSource(index: Index, gvr: GVR): set<string> {
    set u | u in index && index[u].source == gvr
  }

  /** What a listener that mirrors the index does with one event. */
  function Apply(index: Index, e: Event): Index {
    match e
    case Upserted(c) => index[c.uid := c]
    case Deleted(c) => index - {c.uid}
  }

  /** The mirror a listener holds after a whole stream of events. */
  function Replay(es: seq<Event>): Index {
    if es == [] then map[] else Apply(Replay(es[..|es| - 1]), es[|es| - 1])
  }

  /** The events about one UID, in order. */
  function About(es: seq<Event>, uid: string): seq<Event> {
    if es == [] then []
    else
      var rest := About(es[..|es| - 1], uid);
      if es[|es| - 1].constraint.uid == uid then rest + [es[|es| - 1]] else rest
  }

  /** What a stream of events says about one UID: its last word on it. */
  function LastWord(es: seq<Event>): Option<Constraint> {
    if es == [] then None
    else match es[|es| - 1]
      case Upserted(c) => Some(c)
      case Deleted(_) => None
  }

  function Lookup(index: Index, uid: string): Option<Constraint> {
    if uid in index then Some(index[uid]) else None
  }

  lemma ReplayAppend(es: seq<Event>, e: Event)
    ensures Replay(es + [e]) == Apply(Replay(es), e)
  {
  }

  lemma {:induction false} ReplayIsLastWord(es: seq<Event>, uid: string)
    ensures Lookup(Replay(es), uid) == LastWord(About(es, uid))
  {
    if es != [] {
      ReplayIsLastWord(es[..|es| - 1], uid);
    }
  }

  lemma SameLookups(a: Index, b: Index)
    requires forall u :: Lookup(a, u) == Lookup(b, u)
    ensures a == b
  {
    assert forall u :: u in a <==> Lookup(a, u).Some?;
    assert forall u :: u in b <==> Lookup(b, u).Some?;
    forall u | u in a
      ensures u in b && a[u] == b[u]
    {
      assert Lookup(a, u) == Lookup(b, u);
    }
    forall u | u in b
      ensures u in a
    {
      assert Lookup(a, u) == Lookup(b, u);
    }
  }

  /** The two streams have the same last word about every UID. */
  ghost predicate LastWordsAgree(es: seq<Event>, fs: seq<Event>) {
    forall u :: LastWord(About(es, u)) == LastWord(About(fs, u))
  }

  /**
   The callback runs outside the index lock, so concurrent writers may deliver their events in
   another order than they changed the index. A mirror is still right exactly if the last words agree.
   */
  lemma MirrorsAgreeIff(es: seq<Event>, fs: seq<Event>)
    ensures Replay(es) == Replay(fs) <==> LastWordsAgree(es, fs)
  {
    if LastWordsAgree(es, fs) {
      forall u
        ensures Lookup(Replay(es), u) == Lookup(Replay(fs), u)
      {
        ReplayIsLastWord(es, u);
        ReplayIsLastWord(fs, u);
      }
      SameLookups(Replay(es), Replay(fs));
    }
    if Replay(es) == Replay(fs) {
      forall u
        ensures LastWord(About(es, u)) == LastWord(About(fs, u))
      {
        ReplayIsLastWord(es, u);
        ReplayIsLastWord(fs, u);
      }
    }
  }

  /** In particular, events about different UIDs may overtake each other. */
  lemma ReplayNeedsOnlyPerUidOrder(es: seq<Event>, fs: seq<Event>)
    requires forall u :: About(es, u) == About(fs, u)
    ensures Replay(es) == Replay(fs)
  {
    MirrorsAgreeIff(es, fs);
  }

  /** Two deliveries about the same UID in the wrong order leave the mirror wrong. */
  lemma SwappedDeliveriesDiverge(c: Constraint)
    ensures Replay([Upserted(c), Deleted(c)]) == map[]
    ensures Replay([Deleted(c), Upserted(c)]) == map[c.uid := c]
  {
    ReplayAppend([], Upserted(c));
    ReplayAppend([Upserted(c)], Deleted(c));
    ReplayAppend([], Deleted(c));
    ReplayAppend([Deleted(c)], Upserted(c));
  }

  ghost predicate Distinct<T>(s: seq<T>) {
    forall i, j | 0 <= i < j < |s| :: s[i] != s[j]
  }

  ghost function Elements<T>(s: seq<T>): set<T> {
    set x | x in s
  }

  lemma ElementsAppend<T>(s: seq<T>, x: T)
    ensures Elements(s + [x]) == Elements(s) + {x}
  {
  }

  lemma {:induction false} ElementsCount<T>(s: seq<T>)
    requires Distinct(s)
    ensures |Elements(s)| == |s|
  {
    if s != [] {
      var last := |s| - 1;
      ElementsCount(s[..last]);
      assert Elements(s) == Elements(s[..last]) + {s[last]};
      assert s[last] !in Elements(s[..last]);
    }
  }

  /** The two sizes a bulk delete relates. */
  lemma DeleteCounts(index: Index, gone: set<string>)
    requires gone <= index.Keys
    ensures |index - gone| == |index| - |gone|
  {
  }

  /** The events of deleting the given UIDs in the given order. */
  ghost function Deletions(index: Index, uids: seq<string>): seq<Event>
    requires Elements(uids) <= index.Keys
  {
    seq(|uids|, i requires 0 <= i < |uids| => assert uids[i] in Elements(uids); Deleted(index[uids[i]]))
  }

  class Indexer {
    var byUID: Index
    // The events passed to the change callback so far, oldest first.
    var emitted: seq<Event>

    /** A listener that has seen every event holds exactly the index. */
    ghost predicate Valid()
      reads this
    {
      Keyed(byUID) && Replay(emitted) == byUID
    }

    constructor ()
      ensures Valid() && byUID == map[] && emitted == []
    {
      byUID := map[];
      emitted := [];
    }

    method Upsert(c: Constraint)
      requires Valid()
      modifies this
      ensures Valid()
      ensures byUID == old(byUID)[c.uid := c]
      ensures emitted == old(emitted) + [Upserted(c)]
    {
      byUID := byUID[c.uid := c];
      emitted := emitted + [Upserted(c)];
      ReplayAppend(old(emitted), Upserted(c));
    }

    method Delete(uid: string)
      requires Valid()
      modifies this
      ensures Valid()
      ensures byUID == old(byUID) - {uid}
      ensures emitted == old(emitted) + (if uid in old(byUID) then [Deleted(old(byUID)[uid])] else [])
    {
      if uid in byUID {
        var c := byUID[uid];
        byUID := byUID - {uid};
        emitted := emitted + [Deleted(c)];
        ReplayAppend(old(emitted), Deleted(c));
      }
    }

    /** Collects the constraints of a namespace, visiting the index in an arbitrary order. */
    method QueryNamespace(ns: string) returns (result: seq<Constraint>)
      requires Valid()
      ensures multiset(result) == multiset(ByNamespace(byUID, ns))
    {
      result := [];
      var todo := byUID.Keys;
      while todo != {}
        invariant todo <= byUID.Keys
        invariant multiset(result) == multiset(ByNamespace(byUID - todo, ns))
        decreases todo
      {
        var u :| u in todo;
        ByNamespaceVisits(byUID, todo, u, ns);
        todo := todo - {u};
        if Matches(byUID[u], ns) {
          result := result + [byUID[u]];
        }
      }
      assert byUID - {} == byUID;
    }

    /** The UIDs of one resource, each once, in an arbitrary order. */
    method CollectSource(gvr: GVR) returns (uids: seq<string>)
      ensures Distinct(uids) && Elements(uids) == FromSource(byUID, gvr)
    {
      uids := [];
      var todo := byUID.Keys;
      while todo != {}
        invariant todo <= byUID.Keys
        invariant Distinct(uids) && Elements(uids) == FromSource(byUID, gvr) - todo
        decreases todo
      {
        var u :| u in todo;
        if byUID[u].source == gvr {
          ElementsAppend(uids, u);
          uids := uids + [u];
        }
        todo := todo - {u};
      }
    }

    /** Removes everything that came from one resource and says how much that was. */
    method DeleteBySource(gvr: GVR) returns (count: nat, ghost order: seq<string>)
      requires Valid()
      modifies this
      ensures Valid()
      ensures byUID == old(byUID) - FromSource(old(byUID), gvr)
      ensures count == |old(byUID)| - |byUID|
      ensures Distinct(order) && Elements(order) == FromSource(old(byUID), gvr)
      ensures emitted == old(emitted) + Deletions(old(byUID), order)
    {
      var uids := CollectSource(gvr);
      ElementsCount(uids);
      DeleteCounts(byUID, Elements(uids));
      DeleteListed(uids);
      count, order := |uids|, uids;
    }

    /** The second loop of the bulk delete. */
    method DeleteListed(uids: seq<string>)
      requires Valid() && Distinct(uids) && Elements(uids) <= byUID.Keys
      modifies this
      ensures Valid()
      ensures byUID == old(byUID) - Elements(uids)
      ensures emitted == old(emitted) + Deletions(old(byUID), uids)
    {
      for i := 0 to |uids|
        invariant Valid()
        invariant Elements(uids[..i]) <= Elements(uids)
        invariant byUID == old(byUID) - Elements(uids[..i])
        invariant emitted == old(emitted) + Deletions(old(byUID), uids[..i])
      {
        assert uids[..i + 1] == uids[..i] + [uids[i]];
        TakeOut(uids[i], uids[..i], old(byUID), old(emitted));
      }
      assert uids[..|uids|] == uids;
    }

    /** One iteration of the bulk delete: removes a UID not removed yet and reports it. */
    method TakeOut(uid: string, ghost before: seq<string>, ghost start: Index, ghost log: seq<Event>)
      requires Valid()
      requires Elements(before + [uid]) <= start.Keys && uid !in before
      requires byUID == start - Elements(before)
      requires emitted == log + Deletions(start, before)
      modifies this
      ensures Valid()
      ensures byUID == start - Elements(before + [uid])
      ensures emitted == log + Deletions(start, before + [uid])
    {
      ElementsAppend(before, uid);
      assert uid in byUID;
      var c := byUID[uid];
      ReplayAppend(emitted, Deleted(c));
      byUID := byUID - {uid};
      emitted := emitted + [Deleted(c)];
    }
  }

  /** Adding one unseen constraint to a keyed index adds it to the query, if it matches. */
  lemma ByNamespaceGrows(seen: Index, ns: string, c: Constraint)
    requires Keyed(seen) && c.uid !in seen
    ensures ByNamespace(seen[c.uid := c], ns) ==
            ByNamespace(seen, ns) + (if Matches(c, ns) then {c} else {})
    ensures c !in ByNamespace(seen, ns)
  {
    var bigger := seen[c.uid := c];
    forall x | x in ByNamespace(seen, ns)
      ensures x in ByNamespace(bigger, ns)
    {
      var u :| u in seen && Matches(seen[u], ns) && x == seen[u];
      assert bigger[u] == x;
    }
    if Matches(c, ns) {
      assert bigger[c.uid] == c;
    }
  }

  /** Visiting one more constraint adds it to the answer, if it matches. */
  lemma ByNamespaceVisits(index: Index, todo: set<string>, u: string, ns: string)
    requires Keyed(index) && todo <= index.Keys && u in todo
    ensures multiset(ByNamespace(index - (todo - {u}), ns)) ==
            multiset(ByNamespace(index - todo, ns)) + if Matches(index[u], ns) then multiset{index[u]} else multiset{}
  {
    var seen, c := index - todo, index[u];
    assert index - (todo - {u}) == seen[c.uid := c];
    ByNamespaceGrows(seen, ns, c);
  }

  /** Removing a constraint takes exactly it out of every query that showed it. */
  lemma ByNamespaceShrinks(index: Index, ns: string, uid: string)
    requires Keyed(index) && uid in index
    ensures ByNamespace(index - {uid}, ns) == ByNamespace(index, ns) - {index[uid]}
  {
    var smaller := index - {uid};
    assert Keyed(smaller);
    assert index == smaller[uid := index[uid]];
    ByNamespaceGrows(smaller, ns, index[uid]);
  }
}
