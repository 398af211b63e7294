/**
 The summaries built from a list of constraints: the status of a namespace's report, and the
 annotations of a workload. The list comes from a map, so its order is arbitrary.
 */
module ReportStatus {
  import opened Kube
  import opened Indexing

  datatype Entry = Entry(name: string, constraintType: string, severity: string, source: string)

  datatype MachineEntry = MachineEntry(
    uid: string, name: string, constraintType: string, severity: string, source: GVR, tags: seq<string>)

  datatype Report = Report(
    total: nat, critical: nat, warning: nat, info: nat,
    entries: seq<Entry>, machine: seq<MachineEntry>, tags: seq<string>)

  /** At the summary level a constraint of another namespace is shown without its name. */
  function ScopedName(c: Constraint, viewer: string, summaryLevel: bool): string {
    if summaryLevel && c.namespace != "" && c.namespace != viewer then "cluster-policy" else c.name
  }

  function EntryOf(c: Constraint, viewer: string, summaryLevel: bool): Entry {
    Entry(ScopedName(c, viewer, summaryLevel), c.constraintType, c.severity, c.source.resource)
  }

  function MachineEntryOf(c: Constraint, viewer: string, summaryLevel: bool): MachineEntry {
    MachineEntry(c.uid, ScopedName(c, viewer, summaryLevel), c.constraintType, c.severity, c.source, c.tags)
  }

  function SeverityOrder(severity: string): nat {
    if severity == "Critical" then 0
    else if severity == "Warning" then 1
    else if severity == "Info" then 2
    else 3
  }

  predicate Known(severity: string) {
    SeverityOrder(severity) < 3
  }

  // ---------------------------------------------------------------- lists in any order

  /** What a list maps to, whatever its order. */
  ghost function Image<A, B>(f: A -> B, s: seq<A>): multiset<B> {
    if s == [] then multiset{} else Image(f, s[..|s| - 1]) + multiset{f(s[|s| - 1])}
  }

  function Without<A>(s: seq<A>, k: nat): seq<A>
    requires k < |s|
  {
    s[..k] + s[k + 1..]
  }

  lemma WithoutOne<A>(s: seq<A>, k: nat)
    requires k < |s|
    ensures multiset(s) == multiset(Without(s, k)) + multiset{s[k]}
  {
    assert s == s[..k] + [s[k]] + s[k + 1..];
  }

  lemma WithoutFront<A>(s: seq<A>, k: nat)
    requires k < |s| - 1
    ensures Without(s, k) == Without(s[..|s| - 1], k) + [s[|s| - 1]]
  {
  }

  lemma ImageAppend<A, B>(f: A -> B, s: seq<A>, x: A)
    ensures Image(f, s + [x]) == Image(f, s) + multiset{f(x)}
  {
  }

  lemma {:induction false} ImageWithoutOne<A, B>(f: A -> B, s: seq<A>, k: nat)
    requires k < |s|
    ensures Image(f, s) == Image(f, Without(s, k)) + multiset{f(s[k])}
    decreases |s|
  {
    var front, last := s[..|s| - 1], s[|s| - 1];
    if k == |s| - 1 {
      assert Without(s, k) == front;
    } else {
      ImageWithoutOne(f, front, k);
      WithoutFront(s, k);
      ImageAppend(f, Without(front, k), last);
    }
  }

  lemma {:induction false} ImagePermutes<A, B>(f: A -> B, a: seq<A>, b: seq<A>)
    requires multiset(a) == multiset(b)
    ensures Image(f, a) == Image(f, b)
    decreases |a|
  {
    if a == [] {
      assert |b| == |multiset(b)| == 0;
    } else {
      var last := |a| - 1;
      assert a[last] in multiset(b);
      var k :| 0 <= k < |b| && b[k] == a[last];
      WithoutOne(a, last);
      WithoutOne(b, k);
      assert multiset(Without(a, last)) == multiset(a) - multiset{b[k]} == multiset(Without(b, k));
      ImagePermutes(f, Without(a, last), Without(b, k));
      ImageWithoutOne(f, a, last);
      ImageWithoutOne(f, b, k);
    }
  }

  ghost predicate SortedBy<T>(le: (T, T) -> bool, s: seq<T>) {
    forall i, j | 0 <= i < j < |s| :: le(s[i], s[j])
  }

  ghost predicate Order<T(!new)>(le: (T, T) -> bool) {
    && (forall a, b :: le(a, b) || le(b, a))
    && forall a, b, c :: le(a, b) && le(b, c) ==> le(a, c)
  }

  function Insert<T>(le: (T, T) -> bool, x: T, s: seq<T>): seq<T> {
    if s == [] || le(x, s[0]) then [x] + s else [s[0]] + Insert(le, x, s[1..])
  }

  lemma {:induction false} InsertKeeps<T(!new)>(le: (T, T) -> bool, x: T, s: seq<T>)
    ensures multiset(Insert(le, x, s)) == multiset(s) + multiset{x}
  {
    if s != [] && !le(x, s[0]) {
      InsertKeeps(le, x, s[1..]);
      assert s == [s[0]] + s[1..];
    }
  }

  lemma {:induction false} InsertSorts<T(!new)>(le: (T, T) -> bool, x: T, s: seq<T>)
    requires Order(le) && SortedBy(le, s)
    ensures SortedBy(le, Insert(le, x, s))
  {
    if s != [] && !le(x, s[0]) {
      InsertSorts(le, x, s[1..]);
      InsertKeeps(le, x, s[1..]);
      var rest := Insert(le, x, s[1..]);
      forall j | 0 <= j < |rest|
        ensures le(s[0], rest[j])
      {
        assert rest[j] in multiset(rest);
        assert rest[j] == x || rest[j] in s[1..];
      }
    } else if s != [] {
      forall j | 0 <= j < |s|
        ensures le(x, s[j])
      {
        assert j > 0 ==> le(s[0], s[j]);
      }
    }
  }

  /** A library sort: some sorted arrangement of the list. */
  method Sort<T(!new)>(le: (T, T) -> bool, xs: seq<T>) returns (ys: seq<T>)
    requires Order(le)
    ensures SortedBy(le, ys) && multiset(ys) == multiset(xs)
  {
    ys := [];
    for i := 0 to |xs|
      invariant SortedBy(le, ys) && multiset(ys) == multiset(xs[..i])
    {
      InsertSorts(le, xs[i], ys);
      InsertKeeps(le, xs[i], ys);
      ys := Insert(le, xs[i], ys);
      assert xs[..i + 1] == xs[..i] + [xs[i]];
    }
    assert xs[..|xs|] == xs;
  }

  // ---------------------------------------------------------------- the order of strings

  predicate Less(a: string, b: string) {
    b != [] && (a == [] || a[0] < b[0] || (a[0] == b[0] && Less(a[1..], b[1..])))
  }

  lemma {:induction false} LessIsTotal(a: string, b: string)
    ensures a == b || Less(a, b) || Less(b, a)
  {
    if a != [] && b != [] {
      LessIsTotal(a[1..], b[1..]);
      assert a == [a[0]] + a[1..] && b == [b[0]] + b[1..];
    }
  }

  lemma {:induction false} LessIsStrict(a: string, b: string)
    requires Less(a, b)
    ensures a != b && !Less(b, a)
    decreases |a|
  {
    if a != [] && a[0] == b[0] {
      LessIsStrict(a[1..], b[1..]);
    }
  }

  lemma {:induction false} LessIsTransitive(a: string, b: string, c: string)
    requires Less(a, b) && Less(b, c)
    ensures Less(a, c)
    decreases |a|
  {
    if a != [] && a[0] == b[0] == c[0] {
      LessIsTransitive(a[1..], b[1..], c[1..]);
    }
  }

  predicate NotAfter(a: string, b: string) {
    a == b || Less(a, b)
  }

  lemma NotAfterIsOrder()
    ensures Order(NotAfter)
  {
    forall a, b
      ensures NotAfter(a, b) || NotAfter(b, a)
    {
      LessIsTotal(a, b);
    }
    forall a, b, c | NotAfter(a, b) && NotAfter(b, c)
      ensures NotAfter(a, c)
    {
      if a != b && b != c {
        LessIsTransitive(a, b, c);
      }
    }
  }

  ghost predicate StrictlySorted(s: seq<string>) {
    forall i, j | 0 <= i < j < |s| :: Less(s[i], s[j])
  }

  /** The elements determine a strictly sorted list. */
  lemma {:induction false} StrictlySortedIsUnique(a: seq<string>, b: seq<string>)
    requires StrictlySorted(a) && StrictlySorted(b) && Elements(a) == Elements(b)
    ensures a == b
    decreases |a|
  {
    if a == [] {
      assert forall i | 0 <= i < |b| :: b[i] in Elements(b);
    } else {
      assert a[0] in Elements(a);
      SameHead(a, b);
      forall x
        ensures x in Elements(a[1..]) <==> x in Elements(b[1..])
      {
        TailElements(a, x);
        TailElements(b, x);
      }
      StrictlySortedIsUnique(a[1..], b[1..]);
      assert a == [a[0]] + a[1..] && b == [b[0]] + b[1..];
    }
  }

  lemma TailElements(a: seq<string>, x: string)
    requires a != [] && StrictlySorted(a)
    ensures x in Elements(a[1..]) <==> x in Elements(a) && x != a[0]
  {
    assert a == [a[0]] + a[1..];
    if x in a[1..] {
      var i :| 1 <= i < |a| && a[i] == x;
      LessIsStrict(a[0], a[i]);
    }
  }

  lemma SameHead(a: seq<string>, b: seq<string>)
    requires StrictlySorted(a) && StrictlySorted(b) && Elements(a) == Elements(b) && a != []
    ensures b != [] && a[0] == b[0]
  {
    assert a[0] in Elements(b);
    assert b[0] in Elements(a);
    var i :| 0 <= i < |b| && b[i] == a[0];
    var j :| 0 <= j < |a| && a[j] == b[0];
    if i > 0 && j > 0 {
      LessIsStrict(b[0], b[i]);
    }
  }

  // ---------------------------------------------------------------- what a report says

  ghost function Count(cs: seq<Constraint>, severity: string): nat {
    Image((c: Constraint) => c.severity, cs)[severity]
  }

  ghost function TagUnion(cs: seq<Constraint>): set<string> {
    set c, t | c in cs && t in c.tags :: t
  }

  predicate EntryOrder(a: Entry, b: Entry) {
    SeverityOrder(a.severity) <= SeverityOrder(b.severity)
  }

  predicate MachineOrder(a: MachineEntry, b: MachineEntry) {
    SeverityOrder(a.severity) <= SeverityOrder(b.severity)
  }

  /** The report summarizes the list, whatever its order. */
  ghost predicate Summarizes(r: Report, cs: seq<Constraint>, viewer: string, summaryLevel: bool) {
    && r.total == |cs|
    && r.critical == Count(cs, "Critical") && r.warning == Count(cs, "Warning") && r.info == Count(cs, "Info")
    && SortedBy(EntryOrder, r.entries)
    && multiset(r.entries) == Image((c: Constraint) => EntryOf(c, viewer, summaryLevel), cs)
    && SortedBy(MachineOrder, r.machine)
    && multiset(r.machine) == Image((c: Constraint) => MachineEntryOf(c, viewer, summaryLevel), cs)
    && StrictlySorted(r.tags) && Elements(r.tags) == TagUnion(cs)
  }

  /** An entry of severity b may follow one of severity a: it is not more severe. */
  predicate MayFollow(a: string, b: string) {
    && (b == "Critical" ==> a == "Critical")
    && (b == "Warning" ==> a == "Critical" || a == "Warning")
    && (b == "Info" ==> a == "Critical" || a == "Warning" || a == "Info")
  }

  /** Critical entries come first, then warnings, then infos, then whatever else. */
  lemma MostSevereFirst(r: Report, cs: seq<Constraint>, viewer: string, summaryLevel: bool)
    requires Summarizes(r, cs, viewer, summaryLevel)
    ensures forall i, j | 0 <= i < j < |r.entries| :: MayFollow(r.entries[i].severity, r.entries[j].severity)
    ensures forall i, j | 0 <= i < j < |r.machine| :: MayFollow(r.machine[i].severity, r.machine[j].severity)
  {
    forall i, j | 0 <= i < j < |r.entries|
      ensures MayFollow(r.entries[i].severity, r.entries[j].severity)
    {
      assert EntryOrder(r.entries[i], r.entries[j]);
    }
    forall i, j | 0 <= i < j < |r.machine|
      ensures MayFollow(r.machine[i].severity, r.machine[j].severity)
    {
      assert MachineOrder(r.machine[i], r.machine[j]);
    }
  }

  lemma {:induction false} ImageMember<A, B>(f: A -> B, s: seq<A>, b: B)
    ensures b in Image(f, s) <==> exists a | a in s :: f(a) == b
  {
    if s != [] {
      var front, last := s[..|s| - 1], s[|s| - 1];
      ImageMember(f, front, b);
      assert forall a :: a in s <==> a in front || a == last;
    }
  }

  /** The name shown to a viewer. */
  ghost predicate ShownAs(c: Constraint, viewer: string, summaryLevel: bool, name: string) {
    name == if summaryLevel && c.namespace != "" && c.namespace != viewer then "cluster-policy" else c.name
  }

  /** Which constraint an entry is about, field by field. */
  ghost predicate Shows(e: Entry, c: Constraint, viewer: string, summaryLevel: bool) {
    && ShownAs(c, viewer, summaryLevel, e.name) && e.constraintType == c.constraintType
    && e.severity == c.severity && e.source == c.source.resource
  }

  ghost predicate MachineShows(m: MachineEntry, c: Constraint, viewer: string, summaryLevel: bool) {
    && m.uid == c.uid && ShownAs(c, viewer, summaryLevel, m.name) && m.constraintType == c.constraintType
    && m.severity == c.severity && m.source == c.source && m.tags == c.tags
  }

  /** Each constraint has an entry in both lists, and each entry a constraint. */
  lemma EntriesShowConstraints(r: Report, cs: seq<Constraint>, viewer: string, summaryLevel: bool)
    requires Summarizes(r, cs, viewer, summaryLevel)
    ensures |r.entries| == |cs| == |r.machine|
    ensures forall c | c in cs :: exists e | e in r.entries :: Shows(e, c, viewer, summaryLevel)
    ensures forall e | e in r.entries :: exists c | c in cs :: Shows(e, c, viewer, summaryLevel)
    ensures forall c | c in cs :: exists m | m in r.machine :: MachineShows(m, c, viewer, summaryLevel)
    ensures forall m | m in r.machine :: exists c | c in cs :: MachineShows(m, c, viewer, summaryLevel)
  {
    EntriesShow(r.entries, cs, viewer, summaryLevel);
    MachineEntriesShow(r.machine, cs, viewer, summaryLevel);
  }

  lemma {:induction false} ImageSize<A, B>(f: A -> B, s: seq<A>)
    ensures |Image(f, s)| == |s|
  {
    if s != [] {
      ImageSize(f, s[..|s| - 1]);
    }
  }

  lemma EntriesShow(entries: seq<Entry>, cs: seq<Constraint>, viewer: string, summaryLevel: bool)
    requires multiset(entries) == Image((c: Constraint) => EntryOf(c, viewer, summaryLevel), cs)
    ensures |entries| == |cs|
    ensures forall c | c in cs :: exists e | e in entries :: Shows(e, c, viewer, summaryLevel)
    ensures forall e | e in entries :: exists c | c in cs :: Shows(e, c, viewer, summaryLevel)
  {
    var f := (c: Constraint) => EntryOf(c, viewer, summaryLevel);
    ImageSize(f, cs);
    forall c | c in cs
      ensures exists e | e in entries :: Shows(e, c, viewer, summaryLevel)
    {
      ImageMember(f, cs, f(c));
      assert f(c) in multiset(entries) && Shows(f(c), c, viewer, summaryLevel);
    }
    forall e | e in entries
      ensures exists c | c in cs :: Shows(e, c, viewer, summaryLevel)
    {
      assert e in multiset(entries);
      ImageMember(f, cs, e);
      var c :| c in cs && f(c) == e;
    }
  }

  lemma MachineEntriesShow(machine: seq<MachineEntry>, cs: seq<Constraint>, viewer: string, summaryLevel: bool)
    requires multiset(machine) == Image((c: Constraint) => MachineEntryOf(c, viewer, summaryLevel), cs)
    ensures |machine| == |cs|
    ensures forall c | c in cs :: exists m | m in machine :: MachineShows(m, c, viewer, summaryLevel)
    ensures forall m | m in machine :: exists c | c in cs :: MachineShows(m, c, viewer, summaryLevel)
  {
    var f := (c: Constraint) => MachineEntryOf(c, viewer, summaryLevel);
    ImageSize(f, cs);
    forall c | c in cs
      ensures exists m | m in machine :: MachineShows(m, c, viewer, summaryLevel)
    {
      ImageMember(f, cs, f(c));
      assert f(c) in multiset(machine) && MachineShows(f(c), c, viewer, summaryLevel);
    }
    forall m | m in machine
      ensures exists c | c in cs :: MachineShows(m, c, viewer, summaryLevel)
    {
      assert m in multiset(machine);
      ImageMember(f, cs, m);
      var c :| c in cs && f(c) == m;
    }
  }

  lemma {:induction false} CountsAddUp(cs: seq<Constraint>)
    ensures var known := Count(cs, "Critical") + Count(cs, "Warning") + Count(cs, "Info");
            known <= |cs| && (known == |cs| <==> forall c | c in cs :: Known(c.severity))
  {
    if cs != [] {
      var front, last := cs[..|cs| - 1], cs[|cs| - 1];
      CountsAddUp(front);
      CountLast(cs, "Critical");
      CountLast(cs, "Warning");
      CountLast(cs, "Info");
      assert forall c :: c in cs <==> c in front || c == last;
    }
  }

  lemma CountLast(cs: seq<Constraint>, severity: string)
    requires cs != []
    ensures Count(cs, severity) == Count(cs[..|cs| - 1], severity) + if cs[|cs| - 1].severity == severity then 1 else 0
  {
  }

  /** The three counters add up to the total exactly when every severity is a known one. */
  lemma CountersCoverTotalIff(r: Report, cs: seq<Constraint>, viewer: string, summaryLevel: bool)
    requires Summarizes(r, cs, viewer, summaryLevel)
    ensures r.critical + r.warning + r.info <= r.total
    ensures r.critical + r.warning + r.info == r.total <==> forall c | c in cs :: Known(c.severity)
  {
    CountsAddUp(cs);
  }

  /** Two reports of the same constraints in different orders agree, up to the order of equally severe entries. */
  lemma ReportsAgree(r: Report, cs: seq<Constraint>, s: Report, ds: seq<Constraint>, viewer: string, summaryLevel: bool)
    requires multiset(cs) == multiset(ds)
    requires Summarizes(r, cs, viewer, summaryLevel) && Summarizes(s, ds, viewer, summaryLevel)
    ensures r == s.(entries := r.entries, machine := r.machine)
    ensures multiset(r.entries) == multiset(s.entries) && multiset(r.machine) == multiset(s.machine)
  {
    assert |cs| == |multiset(cs)| == |ds|;
    ImagePermutes((c: Constraint) => c.severity, cs, ds);
    ImagePermutes((c: Constraint) => EntryOf(c, viewer, summaryLevel), cs, ds);
    ImagePermutes((c: Constraint) => MachineEntryOf(c, viewer, summaryLevel), cs, ds);
    assert TagUnion(cs) == TagUnion(ds) by {
      assert forall c :: c in cs <==> c in multiset(cs);
      assert forall c :: c in ds <==> c in multiset(ds);
    }
    StrictlySortedIsUnique(r.tags, s.tags);
  }

  // ---------------------------------------------------------------- building the report

  method BuildReportStatus(cs: seq<Constraint>, viewer: string, summaryLevel: bool) returns (r: Report)
    ensures Summarizes(r, cs, viewer, summaryLevel)
  {
    var critical, warning, info := CountSeverities(cs);
    var entries, machine := BuildEntries(cs, viewer, summaryLevel);
    var tags := CollectTags(cs);
    entries := Sort(EntryOrder, entries);
    machine := Sort(MachineOrder, machine);
    tags := SortTags(tags);
    r := Report(|cs|, critical, warning, info, entries, machine, tags);
  }

  /** The three counters; severities outside the known three count nowhere. */
  method CountSeverities(cs: seq<Constraint>) returns (critical: nat, warning: nat, info: nat)
    ensures critical == Count(cs, "Critical") && warning == Count(cs, "Warning") && info == Count(cs, "Info")
  {
    critical, warning, info := 0, 0, 0;
    for i := 0 to |cs|
      invariant critical == Count(cs[..i], "Critical")
      invariant warning == Count(cs[..i], "Warning")
      invariant info == Count(cs[..i], "Info")
    {
      assert cs[..i + 1][..i] == cs[..i];
      if cs[i].severity == "Critical" {
        critical := critical + 1;
      } else if cs[i].severity == "Warning" {
        warning := warning + 1;
      } else if cs[i].severity == "Info" {
        info := info + 1;
      }
    }
    assert cs[..|cs|] == cs;
  }

  method BuildEntries(cs: seq<Constraint>, viewer: string, summaryLevel: bool)
      returns (entries: seq<Entry>, machine: seq<MachineEntry>)
    ensures multiset(entries) == Image((c: Constraint) => EntryOf(c, viewer, summaryLevel), cs)
    ensures multiset(machine) == Image((c: Constraint) => MachineEntryOf(c, viewer, summaryLevel), cs)
  {
    entries, machine := [], [];
    for i := 0 to |cs|
      invariant multiset(entries) == Image((c: Constraint) => EntryOf(c, viewer, summaryLevel), cs[..i])
      invariant multiset(machine) == Image((c: Constraint) => MachineEntryOf(c, viewer, summaryLevel), cs[..i])
    {
      assert cs[..i + 1][..i] == cs[..i];
      entries := entries + [EntryOf(cs[i], viewer, summaryLevel)];
      machine := machine + [MachineEntryOf(cs[i], viewer, summaryLevel)];
    }
    assert cs[..|cs|] == cs;
  }

  /** The tags of all constraints, each once. */
  method CollectTags(cs: seq<Constraint>) returns (tags: seq<string>)
    ensures Distinct(tags) && Elements(tags) == TagUnion(cs)
  {
    tags := [];
    for i := 0 to |cs|
      invariant Distinct(tags) && Elements(tags) == TagUnion(cs[..i])
    {
      tags := AddTags(tags, cs[i].tags);
      assert forall c :: c in cs[..i + 1] <==> c in cs[..i] || c == cs[i];
      assert TagUnion(cs[..i + 1]) == TagUnion(cs[..i]) + Elements(cs[i].tags);
    }
    assert cs[..|cs|] == cs;
  }

  method AddTags(tags: seq<string>, more: seq<string>) returns (all: seq<string>)
    requires Distinct(tags)
    ensures Distinct(all) && Elements(all) == Elements(tags) + Elements(more)
  {
    all := tags;
    for i := 0 to |more|
      invariant Distinct(all) && Elements(all) == Elements(tags) + Elements(more[..i])
    {
      assert more[..i + 1] == more[..i] + [more[i]];
      ElementsAppend(more[..i], more[i]);
      if more[i] !in all {
        ElementsAppend(all, more[i]);
        all := all + [more[i]];
      } else {
        assert more[i] in Elements(all);
      }
    }
    assert more[..|more|] == more;
  }

  method SortTags(tags: seq<string>) returns (sorted: seq<string>)
    requires Distinct(tags)
    ensures StrictlySorted(sorted) && Elements(sorted) == Elements(tags)
  {
    NotAfterIsOrder();
    sorted := Sort(NotAfter, tags);
    assert forall t :: t in sorted <==> t in multiset(sorted);
    assert forall t :: t in tags <==> t in multiset(tags);
    DistinctStays(tags, sorted);
  }

  lemma DistinctStays(a: seq<string>, b: seq<string>)
    requires Distinct(a) && multiset(a) == multiset(b)
    ensures Distinct(b)
  {
    forall i, j | 0 <= i < j < |b|
      ensures b[i] != b[j]
    {
      if b[i] == b[j] {
        TwiceCountsTwo(b, i, j);
        OnceCountsOne(a, b[i]);
      }
    }
  }

  lemma TwiceCountsTwo(b: seq<string>, i: nat, j: nat)
    requires i < j < |b| && b[i] == b[j]
    ensures multiset(b)[b[i]] >= 2
  {
    assert b == b[..j] + b[j..];
    assert b[i] in b[..j] && b[j] in b[j..];
  }

  lemma {:induction false} OnceCountsOne(a: seq<string>, x: string)
    requires Distinct(a)
    ensures multiset(a)[x] <= 1
  {
    if a != [] {
      var last := |a| - 1;
      OnceCountsOne(a[..last], x);
      assert a == a[..last] + [a[last]];
      assert a[last] !in a[..last];
    }
  }

  // ---------------------------------------------------------------- annotating a workload

  /** The annotations of a workload: removed when no constraint applies. */
  datatype Annotation =
    | Removed
    | Summary(total: nat, critical: nat, warning: nat, info: nat, maxSeverity: string)

  function Label(severity: string): string {
    if severity == "Critical" then "critical"
    else if severity == "Warning" then "warning"
    else if severity == "Info" then "info"
    else "none"
  }

  function Urgency(top: string): nat {
    if top == "critical" then 3 else if top == "warning" then 2 else if top == "info" then 1 else 0
  }

  /** The label of the most urgent known severity in the list, or "none". */
  ghost predicate IsMaximum(cs: seq<Constraint>, top: string) {
    && (top == "none" || exists c | c in cs :: Known(c.severity) && Label(c.severity) == top)
    && forall c | c in cs :: Urgency(Label(c.severity)) <= Urgency(top)
  }

  /** The maximum is unique, so it does not depend on the order of the list. */
  lemma MaximumIsUnique(cs: seq<Constraint>, a: string, ds: seq<Constraint>, b: string)
    requires multiset(cs) == multiset(ds) && IsMaximum(cs, a) && IsMaximum(ds, b)
    ensures a == b
  {
    assert forall c :: c in cs <==> c in multiset(cs);
    assert forall c :: c in ds <==> c in multiset(ds);
  }

  /** Which label the maximum is, for each severity present. */
  lemma MaximumIs(cs: seq<Constraint>, top: string)
    requires IsMaximum(cs, top) && top in ["none", "info", "warning", "critical"]
    ensures top == "critical" <==> exists c | c in cs :: c.severity == "Critical"
    ensures top == "warning" <==> (forall c | c in cs :: c.severity != "Critical") && exists c | c in cs :: c.severity == "Warning"
    ensures top == "info" <==>
            (forall c | c in cs :: c.severity != "Critical" && c.severity != "Warning") && exists c | c in cs :: c.severity == "Info"
  {
  }

  method BuildAnnotationPatch(cs: seq<Constraint>) returns (r: Annotation)
    ensures cs == [] <==> r == Removed
    ensures cs != [] ==>
              && r.total == |cs|
              && r.critical == Count(cs, "Critical") && r.warning == Count(cs, "Warning") && r.info == Count(cs, "Info")
              && IsMaximum(cs, r.maxSeverity) && r.maxSeverity in ["none", "info", "warning", "critical"]
  {
    if |cs| == 0 {
      return Removed;
    }
    var critical, warning, info := CountSeverities(cs);
    var top := MaxSeverity(cs);
    r := Summary(|cs|, critical, warning, info, top);
  }

  /** The running maximum of the annotation loop. */
  method MaxSeverity(cs: seq<Constraint>) returns (top: string)
    ensures IsMaximum(cs, top) && top in ["none", "info", "warning", "critical"]
  {
    top := "none";
    for i := 0 to |cs|
      invariant IsMaximum(cs[..i], top) && top in ["none", "info", "warning", "critical"]
    {
      assert forall c :: c in cs[..i + 1] <==> c in cs[..i] || c == cs[i];
      if cs[i].severity == "Critical" {
        top := "critical";
      } else if cs[i].severity == "Warning" {
        if top != "critical" {
          top := "warning";
        }
      } else if cs[i].severity == "Info" {
        if top == "none" {
          top := "info";
        }
      }
    }
    assert cs[..|cs|] == cs;
  }
}
