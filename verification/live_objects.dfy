/**
 From live cluster objects to the index: adapters that split one object into several constraints
 with synthetic UIDs, and the add, update and delete events that keep the index in step.
 */
module LiveObjects {
  import opened Kube
  import opened Decimal
  import opened Indexing
  import opened Discovery

  // One element of a policy's, limit range's or webhook configuration's list. An element the adapter
  // skips is malformed, a rule it cannot parse, or one of the monitor's own webhooks.
  datatype Item = Skipped | Item(body: Constraint)

  /** A version of an object as its adapter sees it; a missing spec is None. */
  datatype Object =
    | Policy(uid: string, rules: Option<seq<Item>>)
    | LimitRange(uid: string, limits: Option<seq<Item>>)
    | WebhookConfiguration(uid: string, webhooks: seq<Item>)
    | Unknown(uid: string, body: Constraint)

  const RULE := "-rule-"
  const ENTRY := "-"

  function SyntheticUid(uid: string, infix: string, i: nat): string {
    uid + infix + Itoa(i)
  }

  /** The constraints of the items that are not skipped, in order, each named by its position. */
  function Collected(uid: string, infix: string, items: seq<Item>): seq<Constraint> {
    if items == [] then []
    else
      var last := |items| - 1;
      var rest := Collected(uid, infix, items[..last]);
      if items[last].Skipped? then rest
      else rest + [items[last].body.(uid := SyntheticUid(uid, infix, last))]
  }

  /** What an adapter makes of an object; None is a parse error. */
  function Parse(o: Object): Option<seq<Constraint>> {
    match o
    case Policy(uid, rules) =>
      if rules.None? || Collected(uid, RULE, rules.value) == [] then None
      else Some(Collected(uid, RULE, rules.value))
    case LimitRange(uid, limits) => if limits.None? then None else Some(Collected(uid, ENTRY, limits.value))
    case WebhookConfiguration(uid, webhooks) => Some(Collected(uid, ENTRY, webhooks))
    case Unknown(uid, body) => Some([body.(uid := uid)])
  }

  // ---------------------------------------------------------------- the parse loops

  method ParsePolicy(uid: string, rules: Option<seq<Item>>) returns (r: Option<seq<Constraint>>)
    ensures r == Parse(Policy(uid, rules))
  {
    if rules.None? || |rules.value| == 0 {
      return None;
    }
    var items, constraints := rules.value, [];
    for i := 0 to |items|
      invariant constraints == Collected(uid, RULE, items[..i])
    {
      assert items[..i + 1][..i] == items[..i];
      match items[i]
      case Skipped =>
      case Item(body) => constraints := constraints + [body.(uid := SyntheticUid(uid, RULE, i))];
    }
    assert items[..|items|] == items;
    r := if |constraints| == 0 then None else Some(constraints);
  }

  method ParseLimitRange(uid: string, limits: Option<seq<Item>>) returns (r: Option<seq<Constraint>>)
    ensures r == Parse(LimitRange(uid, limits))
  {
    if limits.None? {
      return None;
    }
    var constraints := ParseEntries(uid, limits.value);
    r := Some(constraints);
  }

  /** The loop of the limit range and webhook adapters. */
  method ParseEntries(uid: string, items: seq<Item>) returns (constraints: seq<Constraint>)
    ensures Some(constraints) == Parse(WebhookConfiguration(uid, items))
  {
    constraints := [];
    for i := 0 to |items|
      invariant constraints == Collected(uid, ENTRY, items[..i])
    {
      assert items[..i + 1][..i] == items[..i];
      match items[i]
      case Skipped =>
      case Item(body) => constraints := constraints + [body.(uid := SyntheticUid(uid, ENTRY, i))];
    }
    assert items[..|items|] == items;
  }

  // ---------------------------------------------------------------- UIDs never collide

  lemma NumberHasNoDash(i: nat)
    ensures '-' !in Itoa(i)
  {
    DigitsReadBack(i);
  }

  /** Within a scheme, object and position can be read back from a synthetic UID. */
  lemma SyntheticUidInjective(a: string, i: nat, b: string, j: nat, infix: string)
    requires infix == RULE || infix == ENTRY
    requires SyntheticUid(a, infix, i) == SyntheticUid(b, infix, j)
    ensures a == b && i == j
  {
    NumberHasNoDash(i);
    NumberHasNoDash(j);
    var stem := infix[..|infix| - 1];
    assert infix == stem + "-";
    assert SyntheticUid(a, infix, i) == (a + stem) + "-" + Itoa(i);
    assert SyntheticUid(b, infix, j) == (b + stem) + "-" + Itoa(j);
    SplitsAtLast(a + stem, Itoa(i), b + stem, Itoa(j), '-');
    ItoaInjective(i, j);
    assert a == (a + stem)[..|a|] && b == (b + stem)[..|b|];
  }

  /** A rule's UID equals an entry's UID only if one object UID is the other with "-rule" appended. */
  lemma SchemesCollideIff(a: string, i: nat, b: string, j: nat)
    ensures SyntheticUid(a, RULE, i) == SyntheticUid(b, ENTRY, j) <==> b == a + "-rule" && i == j
  {
    NumberHasNoDash(i);
    NumberHasNoDash(j);
    assert SyntheticUid(a, RULE, i) == (a + "-rule") + "-" + Itoa(i);
    if SyntheticUid(a, RULE, i) == SyntheticUid(b, ENTRY, j) {
      SplitsAtLast(a + "-rule", Itoa(i), b, Itoa(j), '-');
      ItoaInjective(i, j);
    }
  }

  /** The UIDs constraints of an object can have. */
  ghost predicate Owns(uid: string, u: string) {
    || u == uid
    || (exists i: nat :: u == SyntheticUid(uid, RULE, i))
    || (exists i: nat :: u == SyntheticUid(uid, ENTRY, i))
  }

  /** Object UIDs of equal length own different constraint UIDs. */
  lemma OwnersAreDisjoint(a: string, b: string, u: string)
    requires |a| == |b| && Owns(a, u) && Owns(b, u)
    ensures a == b
  {
    if a != b {
      SharedUidRelates(a, b, u);
    }
  }

  /** The equal length is needed: a policy and a limit range can clash without it, and so can a limit range and a generic object. */
  lemma DifferentLengthsClash()
    ensures SyntheticUid("x", RULE, 0) == SyntheticUid("x-rule", ENTRY, 0)
    ensures SyntheticUid("x", ENTRY, 0) == "x-0"
  {
  }

  /** Exactly when two objects can share a constraint UID. */
  lemma OwnersClashIff(a: string, b: string)
    requires a != b
    ensures (exists u :: Owns(a, u) && Owns(b, u)) <==> Owns(a, b) || Owns(b, a) || b == a + "-rule" || a == b + "-rule"
  {
    if u :| Owns(a, u) && Owns(b, u) {
      SharedUidRelates(a, b, u);
    }
    if Owns(a, b) {
      assert Owns(b, b);
    } else if Owns(b, a) {
      assert Owns(a, a);
    } else if b == a + "-rule" {
      RuleSuffixClashes(a);
    } else if a == b + "-rule" {
      RuleSuffixClashes(b);
    }
  }

  lemma RuleSuffixClashes(a: string)
    ensures exists u :: Owns(a, u) && Owns(a + "-rule", u)
  {
    SchemesCollideIff(a, 0, a + "-rule", 0);
    assert Owns(a, SyntheticUid(a, RULE, 0)) && Owns(a + "-rule", SyntheticUid(a + "-rule", ENTRY, 0));
  }

  lemma SharedUidRelates(a: string, b: string, u: string)
    requires a != b && Owns(a, u) && Owns(b, u)
    ensures Owns(a, b) || Owns(b, a) || b == a + "-rule" || a == b + "-rule"
  {
    if u != a && u != b {
      if i: nat :| u == SyntheticUid(a, RULE, i) {
        if j: nat :| u == SyntheticUid(b, RULE, j) {
          SyntheticUidInjective(a, i, b, j, RULE);
        } else {
          var j: nat :| u == SyntheticUid(b, ENTRY, j);
          SchemesCollideIff(a, i, b, j);
        }
      } else {
        var i: nat :| u == SyntheticUid(a, ENTRY, i);
        if j: nat :| u == SyntheticUid(b, RULE, j) {
          SchemesCollideIff(b, j, a, i);
        } else {
          var j: nat :| u == SyntheticUid(b, ENTRY, j);
          SyntheticUidInjective(a, i, b, j, ENTRY);
        }
      }
    }
  }

  ghost predicate DistinctUids(cs: seq<Constraint>) {
    forall i, j | 0 <= i < j < |cs| :: cs[i].uid != cs[j].uid
  }

  /** Each item that is not skipped gives one constraint, and the UIDs differ. */
  lemma {:induction false} CollectedIsOnePerItem(uid: string, infix: string, items: seq<Item>)
    requires infix == RULE || infix == ENTRY
    ensures forall c | c in Collected(uid, infix, items) ::
              exists i | 0 <= i < |items| :: items[i].Item? && c == items[i].body.(uid := SyntheticUid(uid, infix, i))
    ensures forall i | 0 <= i < |items| && items[i].Item? ::
              items[i].body.(uid := SyntheticUid(uid, infix, i)) in Collected(uid, infix, items)
    ensures DistinctUids(Collected(uid, infix, items))
  {
    if items != [] {
      var last := |items| - 1;
      var front := Collected(uid, infix, items[..last]);
      CollectedIsOnePerItem(uid, infix, items[..last]);
      forall c | c in front
        ensures c.uid != SyntheticUid(uid, infix, last)
      {
        var i :| 0 <= i < last && items[i].Item? && c == items[i].body.(uid := SyntheticUid(uid, infix, i));
        if c.uid == SyntheticUid(uid, infix, last) {
          SyntheticUidInjective(uid, i, uid, last, infix);
        }
      }
      forall c | c in front
        ensures exists i | 0 <= i < |items| :: items[i].Item? && c == items[i].body.(uid := SyntheticUid(uid, infix, i))
      {
        var i :| 0 <= i < last && items[..last][i].Item? &&
                 c == items[..last][i].body.(uid := SyntheticUid(uid, infix, i));
        assert items[i] == items[..last][i];
      }
      forall i | 0 <= i < last && items[i].Item?
        ensures items[i].body.(uid := SyntheticUid(uid, infix, i)) in front
      {
        assert items[..last][i] == items[i];
      }
    }
  }

  /** Whatever the adapter, the constraints of one object have different UIDs, all its own. */
  lemma ParsedIsOwned(o: Object)
    requires Parse(o).Some?
    ensures DistinctUids(Parse(o).value)
    ensures forall c | c in Parse(o).value :: Owns(o.uid, c.uid)
  {
    match o
    case Policy(uid, rules) => CollectedIsOwned(uid, RULE, rules.value);
    case LimitRange(uid, limits) => CollectedIsOwned(uid, ENTRY, limits.value);
    case WebhookConfiguration(uid, webhooks) => CollectedIsOwned(uid, ENTRY, webhooks);
    case Unknown(_, _) =>
  }

  lemma CollectedIsOwned(uid: string, infix: string, items: seq<Item>)
    requires infix == RULE || infix == ENTRY
    ensures DistinctUids(Collected(uid, infix, items))
    ensures forall c | c in Collected(uid, infix, items) :: Owns(uid, c.uid)
  {
    CollectedIsOnePerItem(uid, infix, items);
    forall c | c in Collected(uid, infix, items)
      ensures Owns(uid, c.uid)
    {
      var i :| 0 <= i < |items| && items[i].Item? && c == items[i].body.(uid := SyntheticUid(uid, infix, i));
      assert c.uid == SyntheticUid(uid, infix, i);
    }
  }

  // ---------------------------------------------------------------- bulk upserts

  lemma {:induction false} UpsertAllElsewhere(index: Index, cs: seq<Constraint>, u: string)
    requires u !in Uids(cs)
    ensures Lookup(UpsertAll(index, cs), u) == Lookup(index, u)
  {
    if cs != [] {
      var last := |cs| - 1;
      assert cs[last] in cs;
      assert forall c | c in cs[..last] :: c in cs;
      UpsertAllElsewhere(index, cs[..last], u);
    }
  }

  lemma {:induction false} UpsertAllContents(index: Index, cs: seq<Constraint>, c: Constraint)
    requires DistinctUids(cs) && c in cs
    ensures Lookup(UpsertAll(index, cs), c.uid) == Some(c)
  {
    var last := |cs| - 1;
    if c != cs[last] {
      var i :| 0 <= i < |cs| && cs[i] == c;
      assert cs[..last][i] == c;
      UpsertAllContents(index, cs[..last], c);
      assert c.uid != cs[last].uid;
    }
  }

  // ---------------------------------------------------------------- runs of events

  /** The events an informer delivers for a watched resource; updates are handled like additions. */
  datatype Event = Seen(subject: Object) | Gone(subject: Object)

  // `live` holds, for every live object, the constraints of its latest version that parsed.
  datatype World = World(index: Index, live: map<string, seq<Constraint>>)

  const EMPTY := World(map[], map[])

  function Latest(w: World, uid: string): seq<Constraint> {
    if uid in w.live then w.live[uid] else []
  }

  ghost function Next(w: World, e: Event): World {
    match e
    case Seen(o) =>
      if Parse(o).None? then w.(live := w.live[o.uid := Latest(w, o.uid)])
      else World(UpsertAll(w.index, Parse(o).value), w.live[o.uid := Parse(o).value])
    case Gone(o) => World(Removing(w.index, o.uid, Parse(o)), w.live - {o.uid})
  }

  ghost predicate IsRun(worlds: seq<World>, events: seq<Event>) {
    && |worlds| == |events| + 1 && worlds[0] == EMPTY
    && forall i | 0 <= i < |events| :: worlds[i + 1] == Next(worlds[i], events[i])
  }

  /** API server UIDs have one length. */
  ghost predicate FixedLength(events: seq<Event>, length: nat) {
    forall e | e in events :: |e.subject.uid| == length
  }

  /** An event about one object leaves every UID alone that is not that object's. */
  lemma EventsAreLocal(w: World, e: Event, u: string)
    requires !Owns(e.subject.uid, u)
    ensures Lookup(Next(w, e).index, u) == Lookup(w.index, u)
  {
    var o := e.subject;
    if Parse(o).Some? {
      ParsedIsOwned(o);
      assert u !in Uids(Parse(o).value);
      UpsertAllElsewhere(w.index, Parse(o).value, u);
    }
  }

  ghost predicate Tracked(w: World, length: nat) {
    forall uid | uid in w.live :: |uid| == length && TrackedOne(w, uid)
  }

  /** The constraints of one live object are its own, and all of them are indexed. */
  ghost predicate TrackedOne(w: World, uid: string)
    requires uid in w.live
  {
    forall c | c in w.live[uid] :: Owns(uid, c.uid) && Lookup(w.index, c.uid) == Some(c)
  }

  lemma OthersStayTracked(w: World, e: Event, length: nat, uid: string)
    requires Tracked(w, length) && |e.subject.uid| == length && uid in w.live && uid != e.subject.uid
    ensures uid in Next(w, e).live && |uid| == length && TrackedOne(Next(w, e), uid)
  {
    var t := Next(w, e);
    assert t.live[uid] == w.live[uid];
    assert TrackedOne(w, uid);
    forall c | c in t.live[uid]
      ensures Owns(uid, c.uid) && Lookup(t.index, c.uid) == Some(c)
    {
      if Owns(e.subject.uid, c.uid) {
        OwnersAreDisjoint(uid, e.subject.uid, c.uid);
      }
      EventsAreLocal(w, e, c.uid);
    }
  }

  lemma SeenIsTracked(w: World, o: Object, length: nat)
    requires Tracked(w, length) && |o.uid| == length
    ensures TrackedOne(Next(w, Seen(o)), o.uid)
  {
    var t := Next(w, Seen(o));
    if Parse(o).Some? {
      ParsedIsOwned(o);
      forall c | c in t.live[o.uid]
        ensures Lookup(t.index, c.uid) == Some(c)
      {
        UpsertAllContents(w.index, Parse(o).value, c);
      }
    } else if o.uid in w.live {
      assert TrackedOne(w, o.uid);
    }
  }

  lemma StepKeepsTracked(w: World, e: Event, length: nat)
    requires Tracked(w, length) && |e.subject.uid| == length
    ensures Tracked(Next(w, e), length)
  {
    var t := Next(w, e);
    forall uid | uid in t.live
      ensures |uid| == length && TrackedOne(t, uid)
    {
      if uid == e.subject.uid {
        SeenIsTracked(w, e.subject, length);
      } else {
        OthersStayTracked(w, e, length, uid);
      }
    }
  }

  /** In every run, every constraint of the latest parsable version of every live object is in the index. */
  lemma {:induction false} LiveObjectsAreIndexed(worlds: seq<World>, events: seq<Event>, length: nat, i: nat)
    requires IsRun(worlds, events) && FixedLength(events, length) && i < |worlds|
    ensures Tracked(worlds[i], length)
  {
    if i > 0 {
      LiveObjectsAreIndexed(worlds, events, length, i - 1);
      assert events[i - 1] in events;
      StepKeepsTracked(worlds[i - 1], events[i - 1], length);
    }
  }

  // ---------------------------------------------------------------- nothing else is indexed

  /** Every indexed constraint comes from the latest version of a live object. */
  ghost predicate Exact(w: World) {
    forall u | u in w.index :: exists uid | uid in w.live :: w.index[u] in w.live[uid] && w.index[u].uid == u
  }

  /** The UIDs an event overwrites or removes. */
  ghost function Touched(e: Event): set<string> {
    var parsed := Parse(e.subject);
    if parsed.None? || parsed.value == [] then (if e.Gone? then {e.subject.uid} else {}) else Uids(parsed.value)
  }

  /** The event leaves a constraint of the previous version behind. */
  ghost predicate Drops(w: World, e: Event) {
    && (e.Gone? || Parse(e.subject).Some?)
    && exists c | c in Latest(w, e.subject.uid) :: c.uid !in Touched(e)
  }

  lemma DroppedIsLeftOver(w: World, e: Event, length: nat)
    requires Tracked(w, length) && |e.subject.uid| == length && Drops(w, e)
    ensures !Exact(Next(w, e))
  {
    var o, t := e.subject, Next(w, e);
    var c :| c in Latest(w, o.uid) && c.uid !in Touched(e);
    assert TrackedOne(w, o.uid);
    if Parse(o).Some? {
      UpsertAllElsewhere(w.index, Parse(o).value, c.uid);
    }
    assert Lookup(t.index, c.uid) == Some(c);
    if Exact(t) {
      var uid :| uid in t.live && c in t.live[uid];
      StepKeepsTracked(w, e, length);
      assert TrackedOne(t, uid);
      OwnersAreDisjoint(uid, o.uid, c.uid);
      assert false;
    }
  }

  /** A constraint the event wrote belongs to the object's new version. */
  lemma WrittenIsLive(w: World, o: Object, u: string)
    requires Parse(o).Some? && u in Uids(Parse(o).value)
    ensures var t := Next(w, Seen(o)); u in t.index && t.index[u] in t.live[o.uid] && t.index[u].uid == u
  {
    var c :| c in Parse(o).value && c.uid == u;
    ParsedIsOwned(o);
    UpsertAllContents(w.index, Parse(o).value, c);
  }

  /** A constraint the event did not write still belongs to a live object, unless a UID was dropped. */
  lemma UnwrittenIsLive(w: World, e: Event, u: string) returns (uid: string)
    requires Exact(w) && !Drops(w, e) && u in Next(w, e).index
    requires e.Seen? && Parse(e.subject).Some? ==> u !in Uids(Parse(e.subject).value)
    ensures var t := Next(w, e); uid in t.live && t.index[u] in t.live[uid] && t.index[u].uid == u
  {
    var o, t := e.subject, Next(w, e);
    if e.Seen? && Parse(o).Some? {
      UpsertAllElsewhere(w.index, Parse(o).value, u);
    }
    assert Lookup(t.index, u) == Lookup(w.index, u);
    uid :| uid in w.live && w.index[u] in w.live[uid] && w.index[u].uid == u;
    if uid == o.uid && (e.Gone? || Parse(o).Some?) {
      assert false;
    }
  }

  lemma KeptIsExact(w: World, e: Event)
    requires Exact(w) && !Drops(w, e)
    ensures Exact(Next(w, e))
  {
    var o, t := e.subject, Next(w, e);
    forall u | u in t.index
      ensures exists uid | uid in t.live :: t.index[u] in t.live[uid] && t.index[u].uid == u
    {
      if e.Seen? && Parse(o).Some? && u in Uids(Parse(o).value) {
        WrittenIsLive(w, o, u);
        assert o.uid in t.live;
      } else {
        var uid := UnwrittenIsLive(w, e, u);
      }
    }
  }

  /** An event keeps the index free of leftovers exactly when it drops no UID of the object's previous version. */
  lemma EventKeepsExactIff(w: World, e: Event, length: nat)
    requires Tracked(w, length) && |e.subject.uid| == length && Exact(w)
    ensures Exact(Next(w, e)) <==> !Drops(w, e)
  {
    if Drops(w, e) {
      DroppedIsLeftOver(w, e, length);
    } else {
      KeptIsExact(w, e);
    }
  }

  /** In runs where no event drops a UID, the index holds the latest version of the live objects and nothing else. */
  lemma {:induction false} IndexIsExact(worlds: seq<World>, events: seq<Event>, length: nat, i: nat)
    requires IsRun(worlds, events) && FixedLength(events, length) && i < |worlds|
    requires forall j | 0 <= j < i :: !Drops(worlds[j], events[j])
    ensures Tracked(worlds[i], length) && Exact(worlds[i])
  {
    LiveObjectsAreIndexed(worlds, events, length, i);
    if i > 0 {
      IndexIsExact(worlds, events, length, i - 1);
      assert events[i - 1] in events;
      EventKeepsExactIff(worlds[i - 1], events[i - 1], length);
    }
  }

  /** A run leaves nothing behind at any time exactly if none of its events drops a UID. */
  lemma ExactThroughoutIff(worlds: seq<World>, events: seq<Event>, length: nat)
    requires IsRun(worlds, events) && FixedLength(events, length)
    ensures (forall i | 0 <= i < |worlds| :: Exact(worlds[i])) <==> forall i | 0 <= i < |events| :: !Drops(worlds[i], events[i])
  {
    if i :| 0 <= i < |events| && Drops(worlds[i], events[i]) {
      LiveObjectsAreIndexed(worlds, events, length, i);
      assert events[i] in events;
      DroppedIsLeftOver(worlds[i], events[i], length);
      assert !Exact(worlds[i + 1]);
    } else {
      forall i | 0 <= i < |worlds|
        ensures Exact(worlds[i])
      {
        IndexIsExact(worlds, events, length, i);
      }
    }
  }

  /** A policy that loses its second rule leaves that rule's constraint behind, and its deletion does too. */
  lemma ShrinkingPolicyLeavesRule(uid: string, body: Constraint) returns (worlds: seq<World>, events: seq<Event>)
    ensures IsRun(worlds, events)
    ensures events == [Seen(Policy(uid, Some([Item(body), Item(body)]))), Seen(Policy(uid, Some([Item(body)]))),
                       Gone(Policy(uid, Some([Item(body)])))]
    ensures worlds[3].live == map[] && SyntheticUid(uid, RULE, 1) in worlds[3].index
  {
    var two, one := Policy(uid, Some([Item(body), Item(body)])), Policy(uid, Some([Item(body)]));
    events := [Seen(two), Seen(one), Gone(one)];
    var a := Next(EMPTY, Seen(two));
    var b := Next(a, Seen(one));
    var c := Next(b, Gone(one));
    worlds := [EMPTY, a, b, c];
    SmallPolicies(uid, body);
    var second := SyntheticUid(uid, RULE, 1);
    UpsertAllContents(map[], Parse(two).value, Parse(two).value[1]);
    UpsertAllElsewhere(a.index, Parse(one).value, second);
    assert c.live == map[];
  }

  /** A limit range whose last version lost its spec leaves its constraints behind when it is deleted. */
  lemma UnparsableDeletionLeavesEntry(uid: string, body: Constraint) returns (worlds: seq<World>, events: seq<Event>)
    ensures IsRun(worlds, events)
    ensures events == [Seen(LimitRange(uid, Some([Item(body)]))), Gone(LimitRange(uid, None))]
    ensures worlds[2].live == map[] && SyntheticUid(uid, ENTRY, 0) in worlds[2].index
  {
    var whole, bare := LimitRange(uid, Some([Item(body)])), LimitRange(uid, None);
    events := [Seen(whole), Gone(bare)];
    var a := Next(EMPTY, Seen(whole));
    var b := Next(a, Gone(bare));
    worlds := [EMPTY, a, b];
    SmallLimitRange(uid, body);
    UpsertAllContents(map[], Parse(whole).value, Parse(whole).value[0]);
    assert b.live == map[];
  }

  lemma SmallLimitRange(uid: string, body: Constraint)
    ensures var first := SyntheticUid(uid, ENTRY, 0);
            first != uid && Parse(LimitRange(uid, Some([Item(body)]))) == Some([body.(uid := first)])
  {
    assert |SyntheticUid(uid, ENTRY, 0)| > |uid|;
    assert [Item(body)][..0] == [];
    assert Collected(uid, ENTRY, [Item(body)]) == [body.(uid := SyntheticUid(uid, ENTRY, 0))];
  }

  lemma SmallPolicies(uid: string, body: Constraint)
    ensures var first, second := body.(uid := SyntheticUid(uid, RULE, 0)), body.(uid := SyntheticUid(uid, RULE, 1));
            && first.uid != second.uid
            && Parse(Policy(uid, Some([Item(body)]))) == Some([first])
            && Parse(Policy(uid, Some([Item(body), Item(body)]))) == Some([first, second])
  {
    var one, two := [Item(body)], [Item(body), Item(body)];
    var first, second := body.(uid := SyntheticUid(uid, RULE, 0)), body.(uid := SyntheticUid(uid, RULE, 1));
    assert one[..0] == [] && two[..1] == one;
    assert Collected(uid, RULE, one) == [first];
    assert Collected(uid, RULE, two) == [first, second];
    if SyntheticUid(uid, RULE, 0) == SyntheticUid(uid, RULE, 1) {
      SyntheticUidInjective(uid, 0, uid, 1, RULE);
    }
  }

  // ---------------------------------------------------------------- objects parsed generically

  /** The object goes to the generic adapter whenever it is seen. */
  ghost predicate Generic(events: seq<Event>, uid: string) {
    forall e | e in events && e.subject.uid == uid :: e.subject.Unknown?
  }

  /** A generic object never has a constraint under another UID. */
  lemma {:induction false} GenericHasNoOther(worlds: seq<World>, events: seq<Event>, length: nat, i: nat, uid: string, u: string)
    requires IsRun(worlds, events) && FixedLength(events, length) && i < |worlds|
    requires |uid| == length && Generic(events, uid) && Owns(uid, u) && u != uid
    ensures u !in worlds[i].index
  {
    if i > 0 {
      GenericHasNoOther(worlds, events, length, i - 1, uid, u);
      var e := events[i - 1];
      assert e in events;
      if e.subject.uid != uid {
        if Owns(e.subject.uid, u) {
          OwnersAreDisjoint(e.subject.uid, uid, u);
        }
        EventsAreLocal(worlds[i - 1], e, u);
      } else {
        UpsertAllElsewhere(worlds[i - 1].index, Parse(e.subject).value, u);
      }
      assert Lookup(worlds[i].index, u) == None;
    }
  }

  /**
   For an object parsed generically the index holds exactly its latest version while it is live, and
   nothing of it once it is gone, whatever happens to other objects.
   */
  lemma {:induction false} GenericIsExact(worlds: seq<World>, events: seq<Event>, length: nat, i: nat, uid: string)
    requires IsRun(worlds, events) && FixedLength(events, length) && i < |worlds|
    requires |uid| == length && Generic(events, uid)
    ensures uid in worlds[i].live ==> |worlds[i].live[uid]| == 1 && Lookup(worlds[i].index, uid) == Some(worlds[i].live[uid][0])
    ensures uid !in worlds[i].live ==> Lookup(worlds[i].index, uid) == None
    ensures forall u | Owns(uid, u) && u != uid :: u !in worlds[i].index
  {
    forall u | Owns(uid, u) && u != uid
      ensures u !in worlds[i].index
    {
      GenericHasNoOther(worlds, events, length, i, uid, u);
    }
    if i > 0 {
      GenericIsExact(worlds, events, length, i - 1, uid);
      var e := events[i - 1];
      assert e in events;
      if e.subject.uid != uid {
        if Owns(e.subject.uid, uid) {
          OwnersAreDisjoint(e.subject.uid, uid, uid);
        }
        EventsAreLocal(worlds[i - 1], e, uid);
      } else if e.Seen? {
        UpsertAllContents(worlds[i - 1].index, Parse(e.subject).value, Parse(e.subject).value[0]);
      } else {
        assert Parse(e.subject).value[0] in Parse(e.subject).value;
      }
    }
  }

  /** The live objects, kept the obvious way. */
  function LiveBodies(events: seq<Event>): Index {
    if events == [] then map[]
    else
      var rest, e := LiveBodies(events[..|events| - 1]), events[|events| - 1];
      if e.Seen? && e.subject.Unknown? then rest[e.subject.uid := e.subject.body.(uid := e.subject.uid)]
      else rest - {e.subject.uid}
  }

  /** When every object is parsed generically, the index is exactly the parse of the live objects. */
  lemma {:induction false} AllGenericIsExact(worlds: seq<World>, events: seq<Event>, i: nat)
    requires IsRun(worlds, events) && i < |worlds|
    requires forall e | e in events :: e.subject.Unknown?
    ensures worlds[i].index == LiveBodies(events[..i])
  {
    if i > 0 {
      AllGenericIsExact(worlds, events, i - 1);
      var e := events[i - 1];
      assert e in events;
      assert events[..i][..i - 1] == events[..i - 1];
      var c := e.subject.body.(uid := e.subject.uid);
      assert Parse(e.subject).value == [c] && [c][..0] == [];
      assert UpsertAll(worlds[i - 1].index, [c]) == UpsertAll(worlds[i - 1].index, [])[c.uid := c];
      assert Uids([c]) == {c.uid};
    }
  }

  // ---------------------------------------------------------------- the engine's handlers

  /** What the engine's event handler is called with. */
  function HandlerCall(gvr: GVR, e: Event): Op {
    match e
    case Seen(o) => Add(gvr, Parse(o))
    case Gone(o) => Delete(o.uid, Parse(o))
  }

  /** For a watched resource the engine's handlers change the index as the events of live objects do. */
  lemma HandlerRefines(s: Discovery.State, w: World, gvr: GVR, e: Event)
    requires s.index == w.index && gvr in s.watched
    ensures Discovery.Next(s, HandlerCall(gvr, e)).index == Next(w, e).index
  {
  }

  /** The calls are the events of objects, each of a resource watched at that time. */
  ghost predicate Handles(states: seq<Discovery.State>, ops: seq<Op>, events: seq<Event>) {
    && |states| == |ops| + 1 == |events| + 1
    && (forall i | 0 <= i < |ops| :: states[i + 1] == Discovery.Next(states[i], ops[i]))
    && forall i | 0 <= i < |ops| :: exists gvr | gvr in states[i].watched :: ops[i] == HandlerCall(gvr, events[i])
  }

  /** Over any sequence of events, the engine's index is that of the live objects. */
  lemma {:induction false} EngineIndexIsObjects(
      states: seq<Discovery.State>, ops: seq<Op>, worlds: seq<World>, events: seq<Event>, i: nat)
    requires Handles(states, ops, events) && IsRun(worlds, events) && states[0].index == map[] && i <= |events|
    ensures states[i].index == worlds[i].index
  {
    if i > 0 {
      EngineIndexIsObjects(states, ops, worlds, events, i - 1);
      var gvr :| gvr in states[i - 1].watched && ops[i - 1] == HandlerCall(gvr, events[i - 1]);
      HandlerRefines(states[i - 1], worlds[i - 1], gvr, events[i - 1]);
    }
  }
}
