/**
 The discovery engine's lifecycle: profiles that start and stop the watching of a resource, the
 periodic scan, the stop channels of the informers, and the handlers that feed the index.
 */
module Discovery {
  import opened Kube
  import opened Indexing

  // Channels are numbered in the order they were made; `stop` is the one a profile holds.
  datatype Profile = Profile(gvr: GVR, adapter: string, enabled: bool, stop: Option<nat>)

  /** An informer for a resource; it runs until its channel is closed. */
  datatype Feed = Feed(gvr: GVR, channel: nat)

  // The engine's own stop channel, used by the informers that scans start.
  const OWN: nat := 0

  datatype State = State(
    profiles: map<string, Profile>,
    watched: set<GVR>,
    feeds: set<Feed>,
    made: nat,
    closed: set<nat>,
    panicked: bool,
    stopped: bool,
    index: Index)

  datatype Op =
    | RegisterProfile(name: string, gvr: GVR, adapter: string, enabled: bool)
    | UnregisterProfile(name: string)
    | Scan(discovered: seq<GVR>)
    | Stop
    | Add(gvr: GVR, parsed: Option<seq<Constraint>>)
    | Delete(uid: string, parsed: Option<seq<Constraint>>)

  const INITIAL := State(map[], {}, {}, 1, {}, false, false, map[])

  // ---------------------------------------------------------------- the operations

  /** Closes the channel a profile holds, if any; closing a closed channel panics. */
  function Closing(s: State, p: Profile): State {
    if p.stop.None? then s
    else s.(closed := s.closed + {p.stop.value}, panicked := s.panicked || p.stop.value in s.closed)
  }

  function Removed(s: State, name: string): State
    requires name in s.profiles
  {
    Closing(s, s.profiles[name]).(profiles := s.profiles - {name})
  }

  function Stored(s: State, name: string, p: Profile): State {
    s.(profiles := s.profiles[name := p])
  }

  /** Starts an informer on a channel of its own. */
  function Started(s: State, name: string, p: Profile): State {
    s.(profiles := s.profiles[name := p.(stop := Some(s.made))],
       feeds := s.feeds + {Feed(p.gvr, s.made)},
       made := s.made + 1)
  }

  /** A profile of the same name is stopped first, unless it stays enabled for the same resource. */
  predicate Replaces(s: State, name: string, gvr: GVR, enabled: bool) {
    name in s.profiles && (s.profiles[name].gvr != gvr || !enabled)
  }

  function Registering(s: State, name: string, gvr: GVR, adapter: string, enabled: bool): State {
    var s := if Replaces(s, name, gvr, enabled) then Removed(s, name) else s;
    var p := Profile(gvr, adapter, enabled, None);
    if !enabled then Stored(s, name, p).(watched := s.watched - {gvr})
    else if gvr in s.watched then Stored(s, name, p)
    else Started(s, name, p).(watched := s.watched + {gvr})
  }

  ghost predicate Needed(profiles: map<string, Profile>, gvr: GVR) {
    exists n | n in profiles :: profiles[n].enabled && profiles[n].gvr == gvr
  }

  ghost function Unregistering(s: State, name: string): State {
    if name !in s.profiles then s
    else
      var gvr := s.profiles[name].gvr;
      var left := Removed(s, name);
      if Needed(left.profiles, gvr) then left
      else left.(watched := s.watched - {gvr}, index := s.index - FromSource(s.index, gvr))
  }

  ghost predicate Suppressed(profiles: map<string, Profile>, gvr: GVR) {
    exists n | n in profiles :: !profiles[n].enabled && profiles[n].gvr == gvr
  }

  ghost function Found(s: State, discovered: seq<GVR>): set<GVR> {
    set g | g in discovered && !Suppressed(s.profiles, g) && g !in s.watched
  }

  ghost function Scanning(s: State, discovered: seq<GVR>): State {
    s.(watched := s.watched + Found(s, discovered),
       feeds := s.feeds + set g | g in Found(s, discovered) :: Feed(g, OWN))
  }

  ghost function Held(profiles: map<string, Profile>): set<nat> {
    set n | n in profiles && profiles[n].stop.Some? :: profiles[n].stop.value
  }

  ghost predicate HeldOnce(profiles: map<string, Profile>) {
    forall m, n | m in profiles && n in profiles && m != n && profiles[m].stop.Some? ::
      profiles[m].stop != profiles[n].stop
  }

  function Released(profiles: map<string, Profile>): map<string, Profile> {
    map n | n in profiles :: profiles[n].(stop := None)
  }

  /** Closes the engine's channel, then every profile's; a channel closed before or held twice panics. */
  ghost function Stopping(s: State): State {
    if s.stopped then s
    else
      var own := s.closed + {OWN};
      s.(stopped := true, profiles := Released(s.profiles), closed := own + Held(s.profiles),
         panicked := s.panicked || OWN in s.closed || own * Held(s.profiles) != {} || !HeldOnce(s.profiles))
  }

  function UpsertAll(index: Index, cs: seq<Constraint>): Index {
    if cs == [] then index
    else UpsertAll(index, cs[..|cs| - 1])[cs[|cs| - 1].uid := cs[|cs| - 1]]
  }

  ghost function Uids(cs: seq<Constraint>): set<string> {
    set c | c in cs :: c.uid
  }

  /** Add and update events are ignored for a resource that is not watched, and on a parse error. */
  function Adding(s: State, gvr: GVR, parsed: Option<seq<Constraint>>): State {
    if gvr in s.watched && parsed.Some? then s.(index := UpsertAll(s.index, parsed.value)) else s
  }

  ghost function Removing(index: Index, uid: string, parsed: Option<seq<Constraint>>): Index {
    if parsed.None? || parsed.value == [] then index - {uid} else index - Uids(parsed.value)
  }

  ghost function Next(s: State, op: Op): State {
    match op
    case RegisterProfile(name, gvr, adapter, enabled) => Registering(s, name, gvr, adapter, enabled)
    case UnregisterProfile(name) => Unregistering(s, name)
    case Scan(discovered) => Scanning(s, discovered)
    case Stop => Stopping(s)
    case Add(gvr, parsed) => Adding(s, gvr, parsed)
    case Delete(uid, parsed) => s.(index := Removing(s.index, uid, parsed))
  }

  ghost predicate IsRun(states: seq<State>, ops: seq<Op>) {
    && |states| == |ops| + 1 && states[0] == INITIAL
    && forall i | 0 <= i < |ops| :: states[i + 1] == Next(states[i], ops[i])
  }

  // ---------------------------------------------------------------- no channel is closed twice

  ghost predicate Sound(s: State) {
    && !s.panicked && s.made > OWN
    && (s.stopped <==> OWN in s.closed)
    && (forall c | c in s.closed :: c < s.made)
    && (forall f | f in s.feeds :: f.channel < s.made)
    && (forall n | n in s.profiles && s.profiles[n].stop.Some? :: SoundHold(s, s.profiles[n]))
    && HeldOnce(s.profiles)
  }

  /** The channel a profile holds is open and was made for the profile's resource. */
  ghost predicate SoundHold(s: State, p: Profile)
    requires p.stop.Some?
  {
    && OWN < p.stop.value < s.made
    && p.stop.value !in s.closed
    && forall f | f in s.feeds && f.channel == p.stop.value :: f.gvr == p.gvr
  }

  lemma RemovedIsSound(s: State, name: string)
    requires Sound(s) && name in s.profiles
    ensures Sound(Removed(s, name))
  {
  }

  lemma StoredIsSound(s: State, name: string, p: Profile)
    requires Sound(s) && p.stop.None?
    ensures Sound(Stored(s, name, p))
  {
  }

  lemma StartedIsSound(s: State, name: string, p: Profile)
    requires Sound(s)
    ensures Sound(Started(s, name, p))
  {
  }

  /** What is watched and what is indexed does not matter for channels. */
  lemma SoundElsewhere(s: State, t: State)
    requires Sound(s) && t == s.(watched := t.watched, index := t.index)
    ensures Sound(t)
  {
  }

  lemma RegisteringIsSound(s: State, name: string, gvr: GVR, adapter: string, enabled: bool)
    requires Sound(s)
    ensures Sound(Registering(s, name, gvr, adapter, enabled))
  {
    var base := s;
    if Replaces(s, name, gvr, enabled) {
      RemovedIsSound(s, name);
      base := Removed(s, name);
    }
    var p := Profile(gvr, adapter, enabled, None);
    StoredIsSound(base, name, p);
    SoundElsewhere(Stored(base, name, p), Stored(base, name, p).(watched := base.watched - {gvr}));
    StartedIsSound(base, name, p);
    SoundElsewhere(Started(base, name, p), Started(base, name, p).(watched := base.watched + {gvr}));
  }

  lemma UnregisteringIsSound(s: State, name: string)
    requires Sound(s)
    ensures Sound(Unregistering(s, name))
  {
  }

  lemma ScanningIsSound(s: State, discovered: seq<GVR>)
    requires Sound(s)
    ensures Sound(Scanning(s, discovered))
  {
  }

  lemma StoppingIsSound(s: State)
    requires Sound(s)
    ensures Sound(Stopping(s))
  {
  }

  lemma StepIsSound(s: State, op: Op)
    requires Sound(s)
    ensures Sound(Next(s, op))
  {
    match op
    case RegisterProfile(name, gvr, adapter, enabled) => RegisteringIsSound(s, name, gvr, adapter, enabled);
    case UnregisterProfile(name) => UnregisteringIsSound(s, name);
    case Scan(discovered) => ScanningIsSound(s, discovered);
    case Stop => StoppingIsSound(s);
    case Add(_, _) => SoundElsewhere(s, Next(s, op));
    case Delete(_, _) => SoundElsewhere(s, Next(s, op));
  }

  lemma {:induction false} AlwaysSound(states: seq<State>, ops: seq<Op>, i: nat)
    requires IsRun(states, ops) && i < |states|
    ensures Sound(states[i])
  {
    if i > 0 {
      AlwaysSound(states, ops, i - 1);
      StepIsSound(states[i - 1], ops[i - 1]);
    }
  }

  /** Over every sequence of operations no channel is closed twice. */
  lemma NoChannelClosedTwice(states: seq<State>, ops: seq<Op>, i: nat)
    requires IsRun(states, ops) && i < |states|
    ensures !states[i].panicked
  {
    AlwaysSound(states, ops, i);
  }

  // ---------------------------------------------------------------- no channel is lost

  /** Every profile channel is closed, or held by a profile that can still close it. */
  ghost predicate Accounted(s: State) {
    forall c: nat | OWN < c < s.made :: c in s.closed || c in Held(s.profiles)
  }

  /** Registering an enabled profile again for the same resource forgets the channel it held. */
  predicate Loses(s: State, op: Op) {
    && op.RegisterProfile? && op.enabled && op.name in s.profiles
    && s.profiles[op.name].gvr == op.gvr && s.profiles[op.name].stop.Some?
  }

  lemma RemovedAccounts(s: State, name: string)
    requires Accounted(s) && name in s.profiles
    ensures Accounted(Removed(s, name))
  {
    var t := Removed(s, name);
    forall c: nat | OWN < c < s.made && c !in t.closed
      ensures c in Held(t.profiles)
    {
      var n :| n in s.profiles && s.profiles[n].stop == Some(c);
      assert n in t.profiles && t.profiles[n] == s.profiles[n];
    }
  }

  predicate Holds(s: State, name: string) {
    name in s.profiles && s.profiles[name].stop.Some?
  }

  lemma StoringAccountsIff(s: State, name: string, p: Profile)
    requires Sound(s) && Accounted(s) && p.stop.None?
    ensures Accounted(Stored(s, name, p)) <==> !Holds(s, name)
    ensures Accounted(Started(s, name, p)) <==> !Holds(s, name)
  {
    var stored, started := Stored(s, name, p), Started(s, name, p);
    if Holds(s, name) {
      var c := s.profiles[name].stop.value;
      assert SoundHold(s, s.profiles[name]);
      assert c !in Held(stored.profiles) && c !in Held(started.profiles);
    } else {
      forall c: nat | OWN < c < s.made && c !in s.closed
        ensures c in Held(stored.profiles) && c in Held(started.profiles)
      {
        var n :| n in s.profiles && s.profiles[n].stop == Some(c);
        assert n in stored.profiles && n in started.profiles;
        assert stored.profiles[n] == started.profiles[n] == s.profiles[n];
      }
      assert name in started.profiles && s.made in Held(started.profiles);
    }
  }

  lemma RegisteringAccountsIff(s: State, name: string, gvr: GVR, adapter: string, enabled: bool)
    requires Sound(s) && Accounted(s)
    ensures Accounted(Registering(s, name, gvr, adapter, enabled)) <==>
            !Loses(s, RegisterProfile(name, gvr, adapter, enabled))
  {
    var base := s;
    if Replaces(s, name, gvr, enabled) {
      RemovedIsSound(s, name);
      RemovedAccounts(s, name);
      base := Removed(s, name);
    }
    StoringAccountsIff(base, name, Profile(gvr, adapter, enabled, None));
  }

  /** The one operation that loses a channel is the repeated registration of an enabled profile. */
  lemma ChannelsAccountedIff(s: State, op: Op)
    requires Sound(s) && Accounted(s)
    ensures Accounted(Next(s, op)) <==> !Loses(s, op)
  {
    match op
    case RegisterProfile(name, gvr, adapter, enabled) => RegisteringAccountsIff(s, name, gvr, adapter, enabled);
    case UnregisterProfile(name) =>
      if name in s.profiles {
        RemovedAccounts(s, name);
      }
    case Scan(_) =>
    case Stop =>
    case Add(_, _) =>
    case Delete(_, _) =>
  }

  ghost predicate Lost(s: State, c: nat) {
    OWN < c < s.made && c !in s.closed && c !in Held(s.profiles)
  }

  lemma LostUntouched(s: State, name: string, p: Profile, c: nat)
    requires Lost(s, c)
    ensures name in s.profiles ==> Lost(Removed(s, name), c)
    ensures p.stop.None? ==> Lost(Stored(s, name, p), c) && Lost(Started(s, name, p), c)
  {
  }

  lemma LostStaysLost(s: State, op: Op, c: nat)
    requires Lost(s, c)
    ensures Lost(Next(s, op), c)
  {
    match op
    case RegisterProfile(name, gvr, adapter, enabled) =>
      var p := Profile(gvr, adapter, enabled, None);
      LostUntouched(s, name, p, c);
      LostUntouched(if Replaces(s, name, gvr, enabled) then Removed(s, name) else s, name, p, c);
    case UnregisterProfile(name) => LostUntouched(s, name, Profile(GVR("", "", ""), "", false, None), c);
    case _ =>
  }

  /** A lost channel is never closed again, whatever follows: its informer runs on. */
  lemma {:induction false} LostForever(states: seq<State>, ops: seq<Op>, i: nat, j: nat, c: nat)
    requires IsRun(states, ops) && i <= j < |states| && Lost(states[i], c)
    ensures Lost(states[j], c)
  {
    if i < j {
      LostForever(states, ops, i, j - 1, c);
      LostStaysLost(states[j - 1], ops[j - 1], c);
    }
  }

  /** The channel a repeated registration forgets is lost. */
  lemma LosesAChannel(s: State, op: Op) returns (c: nat)
    requires Sound(s) && Loses(s, op)
    ensures Lost(Next(s, op), c)
  {
    c := s.profiles[op.name].stop.value;
    assert SoundHold(s, s.profiles[op.name]);
    var t := Next(s, op);
    forall n | n in t.profiles
      ensures t.profiles[n].stop != Some(c)
    {
      assert n != op.name ==> s.profiles[n].stop != s.profiles[op.name].stop;
    }
  }

  lemma LostIsUnaccounted(states: seq<State>, ops: seq<Op>, j: nat, i: nat)
    requires IsRun(states, ops) && j < i < |states| && Loses(states[j], ops[j])
    ensures !Accounted(states[i])
  {
    AlwaysSound(states, ops, j);
    var c := LosesAChannel(states[j], ops[j]);
    LostForever(states, ops, j + 1, i, c);
  }

  lemma {:induction false} AccountedUntilLost(states: seq<State>, ops: seq<Op>, i: nat)
    requires IsRun(states, ops) && i < |states|
    requires forall j | 0 <= j < i :: !Loses(states[j], ops[j])
    ensures Accounted(states[i])
  {
    if i > 0 {
      AccountedUntilLost(states, ops, i - 1);
      AlwaysSound(states, ops, i - 1);
      assert !Loses(states[i - 1], ops[i - 1]);
      ChannelsAccountedIff(states[i - 1], ops[i - 1]);
    }
  }

  /** In every run, all channels are accounted for exactly as long as no enabled profile was registered again. */
  lemma RunAccountsIff(states: seq<State>, ops: seq<Op>, i: nat)
    requires IsRun(states, ops) && i < |states|
    ensures Accounted(states[i]) <==> forall j | 0 <= j < i :: !Loses(states[j], ops[j])
  {
    if j :| 0 <= j < i && Loses(states[j], ops[j]) {
      LostIsUnaccounted(states, ops, j, i);
    } else {
      AccountedUntilLost(states, ops, i);
    }
  }

  /** An informer runs as long as its channel is open. */
  ghost predicate Runs(s: State, f: Feed) {
    f in s.feeds && f.channel !in s.closed
  }

  ghost predicate AllEnded(s: State) {
    forall f :: !Runs(s, f)
  }

  ghost predicate HasFeed(feeds: set<Feed>, c: nat) {
    exists f | f in feeds :: f.channel == c
  }

  /** Every channel made was made for an informer. */
  ghost predicate Fitted(s: State) {
    forall c: nat | OWN < c < s.made :: HasFeed(s.feeds, c)
  }

  lemma RegisteringFeedsGrow(s: State, name: string, gvr: GVR, adapter: string, enabled: bool)
    ensures var t := Registering(s, name, gvr, adapter, enabled);
            s.feeds <= t.feeds && (t.made == s.made || (t.made == s.made + 1 && Feed(gvr, s.made) in t.feeds))
  {
    var base := if Replaces(s, name, gvr, enabled) then Removed(s, name) else s;
    assert base.feeds == s.feeds && base.made == s.made;
  }

  lemma FeedsGrow(s: State, op: Op)
    ensures var t := Next(s, op);
            && s.feeds <= t.feeds
            && (t.made == s.made || (t.made == s.made + 1 && op.RegisterProfile? && Feed(op.gvr, s.made) in t.feeds))
  {
    match op
    case RegisterProfile(name, gvr, adapter, enabled) => RegisteringFeedsGrow(s, name, gvr, adapter, enabled);
    case _ =>
  }

  lemma StepKeepsFitted(s: State, op: Op)
    requires Fitted(s)
    ensures Fitted(Next(s, op))
  {
    var t := Next(s, op);
    FeedsGrow(s, op);
    forall c: nat | OWN < c < t.made
      ensures HasFeed(t.feeds, c)
    {
      if c < s.made {
        assert HasFeed(s.feeds, c);
      }
    }
  }

  lemma {:induction false} AlwaysFitted(states: seq<State>, ops: seq<Op>, i: nat)
    requires IsRun(states, ops) && i < |states|
    ensures Fitted(states[i])
  {
    if i > 0 {
      AlwaysFitted(states, ops, i - 1);
      StepKeepsFitted(states[i - 1], ops[i - 1]);
    }
  }

  lemma StopEndsFeeds(s: State)
    requires Sound(s) && Accounted(s) && !s.stopped
    ensures AllEnded(Next(s, Stop))
  {
    var t := Next(s, Stop);
    forall f | f in t.feeds
      ensures f.channel in t.closed
    {
      if f.channel != OWN {
        assert f.channel in s.closed || f.channel in Held(s.profiles);
      }
    }
  }

  /** Stopping the engine for the first time ends every informer, exactly if no enabled profile was registered again before. */
  lemma StopEndsEverythingIff(states: seq<State>, ops: seq<Op>, i: nat)
    requires IsRun(states, ops) && i < |ops| && ops[i].Stop? && !states[i].stopped
    ensures AllEnded(states[i + 1]) <==> forall j | 0 <= j < i :: !Loses(states[j], ops[j])
  {
    if j :| 0 <= j < i && Loses(states[j], ops[j]) {
      AlwaysSound(states, ops, j);
      var c := LosesAChannel(states[j], ops[j]);
      LostForever(states, ops, j + 1, i + 1, c);
      AlwaysFitted(states, ops, i + 1);
      assert HasFeed(states[i + 1].feeds, c);
      var f :| f in states[i + 1].feeds && f.channel == c;
      assert Runs(states[i + 1], f);
    } else {
      AlwaysSound(states, ops, i);
      RunAccountsIff(states, ops, i);
      StopEndsFeeds(states[i]);
    }
  }

  /** Stopping again does nothing: an informer a profile started after the first stop runs on. */
  lemma SecondStopEndsNothing(gvr: GVR) returns (states: seq<State>, ops: seq<Op>)
    ensures IsRun(states, ops) && ops == [Stop, RegisterProfile("a", gvr, "", true), Stop]
    ensures Runs(states[3], Feed(gvr, 1))
  {
    var one := Stopping(INITIAL);
    var two := Registering(one, "a", gvr, "", true);
    states, ops := [INITIAL, one, two, Stopping(two)], [Stop, RegisterProfile("a", gvr, "", true), Stop];
    assert Held(INITIAL.profiles) == {} && one.closed == {OWN};
  }

  // ---------------------------------------------------------------- suppression

  /** The named profile disables the resource. */
  ghost predicate Disables(s: State, name: string, gvr: GVR) {
    name in s.profiles && !s.profiles[name].enabled && s.profiles[name].gvr == gvr
  }

  /** The operations that may end a suppression. */
  predicate Lifts(op: Op, name: string, gvr: GVR) {
    || (op.RegisterProfile? && op.enabled && (op.gvr == gvr || op.name == name))
    || (op.RegisterProfile? && op.name == name && op.gvr != gvr)
    || (op.UnregisterProfile? && op.name == name)
  }

  lemma StepKeepsSuppressed(s: State, op: Op, name: string, gvr: GVR)
    requires Disables(s, name, gvr) && gvr !in s.watched && !Lifts(op, name, gvr)
    ensures Disables(Next(s, op), name, gvr) && gvr !in Next(s, op).watched
    ensures op.Add? && op.gvr == gvr ==> Next(s, op) == s
  {
  }

  /**
   From the registration of a disabled profile until it is removed or changed, or an enabled one
   for the same resource arrives, the resource stays unwatched through any number of scans, and
   add and update events for it change nothing.
   */
  lemma {:induction false} SuppressionHolds(states: seq<State>, ops: seq<Op>, i: nat, j: nat)
    requires IsRun(states, ops) && i < j < |states|
    requires ops[i].RegisterProfile? && !ops[i].enabled
    requires forall k | i < k < j :: !Lifts(ops[k], ops[i].name, ops[i].gvr)
    ensures Disables(states[j], ops[i].name, ops[i].gvr)
    ensures ops[i].gvr !in states[j].watched
    ensures j < |ops| && ops[j].Add? && ops[j].gvr == ops[i].gvr ==> states[j + 1].index == states[j].index
  {
    if j > i + 1 {
      SuppressionHolds(states, ops, i, j - 1);
      StepKeepsSuppressed(states[j - 1], ops[j - 1], ops[i].name, ops[i].gvr);
    } else {
      assert states[j] == Next(states[i], ops[i]);
    }
    if j < |ops| {
      assert states[j + 1] == Next(states[j], ops[j]);
    }
  }

  // ---------------------------------------------------------------- watched resources and informers

  /** Some informer of the resource, other than the ones on one channel, is running. */
  ghost predicate FedApart(s: State, gvr: GVR, apart: Option<nat>) {
    exists f | f in s.feeds :: f.gvr == gvr && f.channel !in s.closed && apart != Some(f.channel)
  }

  ghost predicate Fed(s: State, gvr: GVR) {
    FedApart(s, gvr, None)
  }

  ghost predicate AllFed(s: State) {
    forall g | g in s.watched :: Fed(s, g)
  }

  /** The profile started the only running informer of its resource, and the resource is watched. */
  ghost predicate Feeds(s: State, name: string) {
    && name in s.profiles
    && var p := s.profiles[name];
       p.stop.Some? && p.gvr in s.watched && !FedApart(s, p.gvr, p.stop)
  }

  /** The operation closes the last informer of a resource and leaves the resource watched. */
  ghost predicate Starves(s: State, op: Op) {
    match op
    case RegisterProfile(name, gvr, _, _) => Feeds(s, name) && gvr != s.profiles[name].gvr
    case UnregisterProfile(name) => Feeds(s, name) && Needed(s.profiles - {name}, s.profiles[name].gvr)
    case _ => false
  }

  lemma RegisteringFeeds(s: State, name: string, gvr: GVR, adapter: string, enabled: bool, g: GVR)
    requires Sound(s)
    ensures var t := Registering(s, name, gvr, adapter, enabled);
            Fed(t, g) <==>
            || (enabled && gvr !in s.watched && g == gvr)
            || FedApart(s, g, if Replaces(s, name, gvr, enabled) && g == s.profiles[name].gvr
                              then s.profiles[name].stop else None)
  {
  }

  lemma RegisteringFedIff(s: State, name: string, gvr: GVR, adapter: string, enabled: bool)
    requires Sound(s) && AllFed(s)
    ensures AllFed(Registering(s, name, gvr, adapter, enabled)) <==>
            !Starves(s, RegisterProfile(name, gvr, adapter, enabled))
  {
    var t := Registering(s, name, gvr, adapter, enabled);
    if Starves(s, RegisterProfile(name, gvr, adapter, enabled)) {
      var before := s.profiles[name].gvr;
      RegisteringFeeds(s, name, gvr, adapter, enabled, before);
      assert before in t.watched && !Fed(t, before);
    } else {
      forall g | g in t.watched
        ensures Fed(t, g)
      {
        RegisteringFeeds(s, name, gvr, adapter, enabled, g);
        assert g == gvr || Fed(s, g);
      }
    }
  }

  lemma UnregisteringFedIff(s: State, name: string)
    requires Sound(s) && AllFed(s)
    ensures AllFed(Unregistering(s, name)) <==> !Starves(s, UnregisterProfile(name))
  {
  }

  /** While the engine runs, every watched resource keeps a running informer, except across exactly these operations. */
  lemma WatchedIsFedIff(s: State, op: Op)
    requires Sound(s) && AllFed(s) && !s.stopped && !op.Stop?
    ensures AllFed(Next(s, op)) <==> !Starves(s, op)
  {
    var t := Next(s, op);
    match op
    case RegisterProfile(name, gvr, adapter, enabled) => RegisteringFedIff(s, name, gvr, adapter, enabled);
    case UnregisterProfile(name) => UnregisteringFedIff(s, name);
    case Scan(discovered) =>
      forall g | g in t.watched
        ensures Fed(t, g)
      {
        if g in s.watched {
          var f :| f in s.feeds && f.gvr == g && f.channel !in s.closed;
          assert f in t.feeds;
        } else {
          assert Feed(g, OWN) in t.feeds;
        }
      }
    case Add(_, _) => SameFed(s, t);
    case Delete(_, _) => SameFed(s, t);
  }

  lemma SameFed(s: State, t: State)
    requires AllFed(s) && t == s.(index := t.index)
    ensures AllFed(t)
  {
  }

  lemma {:induction false} RunsUntilStopped(states: seq<State>, ops: seq<Op>, i: nat)
    requires IsRun(states, ops) && i < |states| && forall j | 0 <= j < |ops| :: !ops[j].Stop?
    ensures !states[i].stopped
  {
    if i > 0 {
      RunsUntilStopped(states, ops, i - 1);
      assert !ops[i - 1].Stop?;
    }
  }

  lemma {:induction false} FedUntilStarved(states: seq<State>, ops: seq<Op>, i: nat)
    requires IsRun(states, ops) && i < |states| && forall j | 0 <= j < |ops| :: !ops[j].Stop?
    requires forall j | 0 <= j < i :: !Starves(states[j], ops[j])
    ensures AllFed(states[i])
  {
    if i > 0 {
      FedUntilStarved(states, ops, i - 1);
      AlwaysSound(states, ops, i - 1);
      RunsUntilStopped(states, ops, i - 1);
      assert !Starves(states[i - 1], ops[i - 1]);
      WatchedIsFedIff(states[i - 1], ops[i - 1]);
    }
  }

  /** Until the engine is stopped, every watched resource is fed throughout exactly if no operation starves one. */
  lemma FedThroughoutIff(states: seq<State>, ops: seq<Op>)
    requires IsRun(states, ops) && forall i | 0 <= i < |ops| :: !ops[i].Stop?
    ensures (forall i | 0 <= i < |states| :: AllFed(states[i])) <==> forall i | 0 <= i < |ops| :: !Starves(states[i], ops[i])
  {
    if forall i | 0 <= i < |ops| :: !Starves(states[i], ops[i]) {
      forall i | 0 <= i < |states|
        ensures AllFed(states[i])
      {
        FedUntilStarved(states, ops, i);
      }
    }
    if forall i | 0 <= i < |states| :: AllFed(states[i]) {
      forall i | 0 <= i < |ops|
        ensures !Starves(states[i], ops[i])
      {
        AlwaysSound(states, ops, i);
        RunsUntilStopped(states, ops, i);
        assert AllFed(states[i]) && AllFed(states[i + 1]);
        WatchedIsFedIff(states[i], ops[i]);
      }
    }
  }

  lemma StarvedStays(s: State, op: Op, gvr: GVR)
    requires Sound(s) && gvr in s.watched && gvr in Next(s, op).watched && !Fed(s, gvr)
    ensures !Fed(Next(s, op), gvr)
  {
    match op
    case RegisterProfile(name, other, adapter, enabled) => RegisteringFeeds(s, name, other, adapter, enabled, gvr);
    case _ =>
  }

  /** A starved resource stays starved as long as it is watched: no scan or registration restarts it. */
  lemma {:induction false} StarvedForever(states: seq<State>, ops: seq<Op>, i: nat, j: nat, gvr: GVR)
    requires IsRun(states, ops) && i <= j < |states| && !Fed(states[i], gvr)
    requires forall k | i <= k <= j :: gvr in states[k].watched
    ensures !Fed(states[j], gvr)
  {
    if i < j {
      StarvedForever(states, ops, i, j - 1, gvr);
      AlwaysSound(states, ops, j - 1);
      assert gvr in states[j - 1].watched && gvr in states[j].watched;
      StarvedStays(states[j - 1], ops[j - 1], gvr);
    }
  }

  /** Two enabled profiles for one resource: removing the one that started the informer starves the other. */
  lemma SharedResourceStarves(gvr: GVR) returns (states: seq<State>, ops: seq<Op>)
    ensures IsRun(states, ops)
    ensures ops == [RegisterProfile("a", gvr, "", true), RegisterProfile("b", gvr, "", true), UnregisterProfile("a")]
    ensures Needed(states[3].profiles, gvr) && gvr in states[3].watched && !Fed(states[3], gvr)
  {
    var one := Registering(INITIAL, "a", gvr, "", true);
    var two := Registering(one, "b", gvr, "", true);
    var three := Unregistering(two, "a");
    states := [INITIAL, one, two, three];
    ops := [RegisterProfile("a", gvr, "", true), RegisterProfile("b", gvr, "", true), UnregisterProfile("a")];
    assert "b" in two.profiles - {"a"};
    assert three.feeds == {Feed(gvr, 1)} && three.closed == {1};
  }

  /** Registering an enabled profile twice and removing it leaves its first informer running for good. */
  lemma RepeatedRegistrationLeaks(gvr: GVR) returns (states: seq<State>, ops: seq<Op>)
    ensures IsRun(states, ops)
    ensures ops == [RegisterProfile("a", gvr, "", true), RegisterProfile("a", gvr, "", true), UnregisterProfile("a")]
    ensures states[3].profiles == map[] && Fed(states[3], gvr) && !Accounted(states[3])
  {
    var one := Registering(INITIAL, "a", gvr, "", true);
    var two := Registering(one, "a", gvr, "", true);
    var three := Unregistering(two, "a");
    states := [INITIAL, one, two, three];
    ops := [RegisterProfile("a", gvr, "", true), RegisterProfile("a", gvr, "", true), UnregisterProfile("a")];
    assert three.profiles == map[];
    assert Feed(gvr, 1) in three.feeds && 1 !in three.closed;
    assert Held(three.profiles) == {};
  }

  /** Closing the held channels one by one meets a closed one. */
  ghost predicate Clashes(profiles: map<string, Profile>, closed: set<nat>) {
    closed * Held(profiles) != {} || !HeldOnce(profiles)
  }

  /** What one more profile adds to the channels closed, and when that panics. */
  lemma CloseGrows(done: map<string, Profile>, name: string, p: Profile, closed: set<nat>)
    requires name !in done
    ensures var more := done[name := p];
            && closed + Held(more) == closed + Held(done) + (if p.stop.Some? then {p.stop.value} else {})
            && (Clashes(more, closed) <==>
                Clashes(done, closed) || (p.stop.Some? && p.stop.value in closed + Held(done)))
  {
    HeldGrows(done, name, p);
    var more := done[name := p];
    assert closed * Held(more) ==
           closed * Held(done) + if p.stop.Some? && p.stop.value in closed then {p.stop.value} else {};
  }

  /** The profiles once some of them were released. */
  ghost function Partly(was: map<string, Profile>, done: map<string, Profile>): map<string, Profile> {
    map n | n in was :: if n in done then was[n].(stop := None) else was[n]
  }

  lemma PartlyGrows(was: map<string, Profile>, done: map<string, Profile>, n: string)
    requires n in was && n !in done
    ensures Partly(was, done)[n] == was[n]
    ensures Partly(was, done)[n := was[n].(stop := None)] == Partly(was, done[n := was[n]])
  {
  }

  lemma HeldGrows(done: map<string, Profile>, name: string, p: Profile)
    requires name !in done
    ensures var more := done[name := p];
            && Held(more) == Held(done) + (if p.stop.Some? then {p.stop.value} else {})
            && (HeldOnce(more) <==> HeldOnce(done) && (p.stop.Some? ==> p.stop.value !in Held(done)))
  {
    var more := done[name := p];
    forall n | n in done
      ensures more[n] == done[n]
    {
    }
    forall c | c in Held(done)
      ensures c in Held(more)
    {
      var n :| n in done && done[n].stop == Some(c);
      assert n in more && more[n].stop == Some(c);
    }
    if p.stop.Some? {
      assert name in more && more[name].stop.Some?;
      if p.stop.value in Held(done) {
        var n :| n in done && done[n].stop == p.stop;
        assert n in more && more[n].stop == more[name].stop;
      }
    }
    if HeldOnce(more) {
      forall m, n | m in done && n in done && m != n && done[m].stop.Some?
        ensures done[m].stop != done[n].stop
      {
        assert more[m].stop != more[n].stop;
      }
    }
  }

  // ---------------------------------------------------------------- registering a profile

  /** What a registration stores, and what it makes watched or not. */
  lemma RegistrationStores(s: State, name: string, gvr: GVR, adapter: string, enabled: bool)
    ensures var t := Next(s, RegisterProfile(name, gvr, adapter, enabled));
            && name in t.profiles && t.profiles[name].(stop := None) == Profile(gvr, adapter, enabled, None)
            && (forall n | n != name :: (n in t.profiles <==> n in s.profiles) && (n in s.profiles ==> t.profiles[n] == s.profiles[n]))
            && (forall g :: g in t.watched <==> if g == gvr then enabled else g in s.watched)
            && t.index == s.index
  {
  }

  /** A scan watches exactly the discovered resources that no disabled profile is for, besides those watched already. */
  lemma ScanWatchesExactly(s: State, discovered: seq<GVR>, g: GVR)
    ensures var t := Next(s, Scan(discovered));
            && (g in t.watched <==> g in s.watched || (g in discovered && forall n | n in s.profiles && s.profiles[n].gvr == g :: s.profiles[n].enabled))
            && (g in t.watched && g !in s.watched ==> Runs(t, Feed(g, OWN)) || OWN in s.closed)
  {
  }

  // ---------------------------------------------------------------- removing a profile

  lemma NeededByOthers(s: State, name: string)
    requires name in s.profiles
    ensures Needed(s.profiles - {name}, s.profiles[name].gvr) <==>
            exists n | n in s.profiles && n != name :: s.profiles[n].enabled && s.profiles[n].gvr == s.profiles[name].gvr
  {
    if n :| n in s.profiles && n != name && s.profiles[n].enabled && s.profiles[n].gvr == s.profiles[name].gvr {
      assert n in s.profiles - {name};
    }
  }

  /**
   Removing a profile takes exactly the constraints of its resource out of the index, unless another
   enabled profile is for the resource; then the index stays as it is.
   */
  lemma RemovalCleansExactly(s: State, name: string, u: string)
    requires name in s.profiles
    ensures var gvr := s.profiles[name].gvr;
            var needed := exists n | n in s.profiles && n != name :: s.profiles[n].enabled && s.profiles[n].gvr == gvr;
            Lookup(Next(s, UnregisterProfile(name)).index, u) ==
            if u in s.index && (needed || s.index[u].source != gvr) then Some(s.index[u]) else None
  {
    NeededByOthers(s, name);
  }

  // ---------------------------------------------------------------- disabling a resource

  /** Registering a disabled profile cleans the resource's constraints up only if there are none. */
  lemma DisablingCleansIff(s: State, name: string, gvr: GVR, adapter: string)
    ensures FromSource(Next(s, RegisterProfile(name, gvr, adapter, false)).index, gvr) == {} <==> FromSource(s.index, gvr) == {}
  {
  }

  /** Only a delete event or the removal of a profile takes a constraint out of the index. */
  lemma {:induction false} IndexedStays(states: seq<State>, ops: seq<Op>, i: nat, j: nat, u: string)
    requires IsRun(states, ops) && i <= j < |states| && u in states[i].index
    requires forall k | i <= k < j :: !ops[k].Delete? && !ops[k].UnregisterProfile?
    ensures u in states[j].index
  {
    if i < j {
      IndexedStays(states, ops, i, j - 1, u);
      assert !ops[j - 1].Delete? && !ops[j - 1].UnregisterProfile?;
      if ops[j - 1].Add? && ops[j - 1].parsed.Some? {
        UpsertAllKeeps(states[j - 1].index, ops[j - 1].parsed.value);
      }
    }
  }

  lemma {:induction false} UpsertAllKeeps(index: Index, cs: seq<Constraint>)
    ensures index.Keys <= UpsertAll(index, cs).Keys
  {
    if cs != [] {
      UpsertAllKeeps(index, cs[..|cs| - 1]);
    }
  }

  /** A resource is found and an object of it indexed; disabling the resource leaves the constraint indexed. */
  lemma DisablingLeavesConstraint(gvr: GVR, c: Constraint) returns (states: seq<State>, ops: seq<Op>)
    ensures IsRun(states, ops)
    ensures ops == [Scan([gvr]), Add(gvr, Some([c])), RegisterProfile("a", gvr, "", false)]
    ensures Suppressed(states[3].profiles, gvr) && gvr !in states[3].watched && states[3].index == map[c.uid := c]
  {
    var one := Scanning(INITIAL, [gvr]);
    var two := Adding(one, gvr, Some([c]));
    var three := Registering(two, "a", gvr, "", false);
    states := [INITIAL, one, two, three];
    ops := [Scan([gvr]), Add(gvr, Some([c])), RegisterProfile("a", gvr, "", false)];
    assert gvr in [gvr] && gvr in Found(INITIAL, [gvr]);
    assert [c][..0] == [] && UpsertAll(map[], [c]) == UpsertAll(map[], [])[c.uid := c];
    assert "a" in three.profiles;
  }

  // ---------------------------------------------------------------- the engine in place

  /** Stopping a profile in place and then overwriting it is the same as removing it first. */
  lemma StoredOver(s: State, mid: State, name: string, p: Profile)
    requires name in s.profiles
    requires mid == Stored(Closing(s, s.profiles[name]), name, s.profiles[name].(stop := None))
    ensures Stored(mid, name, p) == Stored(Removed(s, name), name, p)
    ensures Started(mid, name, p) == Started(Removed(s, name), name, p)
  {
    OverwritesBoth(s.profiles, name, s.profiles[name].(stop := None), p);
    OverwritesBoth(s.profiles, name, s.profiles[name].(stop := None), p.(stop := Some(s.made)));
  }

  lemma OverwritesBoth(profiles: map<string, Profile>, name: string, was: Profile, p: Profile)
    ensures profiles[name := was][name := p] == (profiles - {name})[name := p]
  {
  }

  class Engine {
    var profiles: map<string, Profile>
    var watchedGVRs: set<GVR>
    var feeds: set<Feed>
    var made: nat
    var closed: set<nat>
    var panicked: bool
    var stopped: bool
    const idx: Indexer

    ghost function Model(): State
      reads this, idx
    {
      State(profiles, watchedGVRs, feeds, made, closed, panicked, stopped, idx.byUID)
    }

    constructor (idx: Indexer)
      requires idx.Valid() && idx.byUID == map[]
      ensures this.idx == idx && Model() == INITIAL
    {
      profiles, watchedGVRs, feeds, made, closed := map[], {}, {}, 1, {};
      panicked, stopped := false, false;
      this.idx := idx;
    }

    /** Closes a channel; the run time panics if it is closed already. */
    method Close(channel: nat)
      modifies this`closed, this`panicked
      ensures closed == old(closed) + {channel}
      ensures panicked == (old(panicked) || channel in old(closed))
    {
      if channel in closed {
        panicked := true;
      }
      closed := closed + {channel};
    }

    method StopProfileInformer(name: string)
      requires name in profiles
      modifies this`closed, this`panicked, this`profiles
      ensures var p := old(profiles)[name];
              && profiles == old(profiles)[name := p.(stop := None)]
              && closed == old(closed) + (if p.stop.Some? then {p.stop.value} else {})
              && panicked == (old(panicked) || (p.stop.Some? && p.stop.value in old(closed)))
    {
      var p := profiles[name];
      if p.stop.Some? {
        Close(p.stop.value);
        profiles := profiles[name := p.(stop := None)];
      } else {
        assert profiles == profiles[name := p.(stop := None)];
      }
    }

    method Register(name: string, gvr: GVR, adapter: string, enabled: bool)
      modifies this
      ensures Model() == Next(old(Model()), RegisterProfile(name, gvr, adapter, enabled))
    {
      ghost var before := Model();
      if name in profiles {
        if profiles[name].gvr != gvr || !enabled {
          StopProfileInformer(name);
        }
      }
      ghost var mid := Model();
      var p := Profile(gvr, adapter, enabled, None);
      if Replaces(before, name, gvr, enabled) {
        StoredOver(before, mid, name, p);
      }
      StoreProfile(name, p);
    }

    /** The second half of a registration, once the profile it replaces is stopped. */
    method StoreProfile(name: string, profile: Profile)
      requires profile.stop.None?
      modifies this
      ensures Model() == if !profile.enabled then Stored(old(Model()), name, profile).(watched := old(watchedGVRs) - {profile.gvr})
                         else if profile.gvr in old(watchedGVRs) then Stored(old(Model()), name, profile)
                         else Started(old(Model()), name, profile).(watched := old(watchedGVRs) + {profile.gvr})
    {
      profiles := profiles[name := profile];
      if !profile.enabled {
        watchedGVRs := watchedGVRs - {profile.gvr};
        return;
      }
      if profile.gvr !in watchedGVRs {
        watchedGVRs := watchedGVRs + {profile.gvr};
        var channel := made;
        made := made + 1;
        profiles := profiles[name := profile.(stop := Some(channel))];
        feeds := feeds + {Feed(profile.gvr, channel)};
      }
    }

    /** The loop that asks whether another enabled profile is for the resource. */
    method StillNeeded(gvr: GVR) returns (needed: bool)
      ensures needed <==> Needed(profiles, gvr)
    {
      var todo := profiles.Keys;
      while todo != {}
        invariant todo <= profiles.Keys
        invariant forall n | n in profiles && n !in todo :: !(profiles[n].enabled && profiles[n].gvr == gvr)
        decreases todo
      {
        var n :| n in todo;
        if profiles[n].enabled && profiles[n].gvr == gvr {
          return true;
        }
        todo := todo - {n};
      }
      needed := false;
    }

    method Unregister(name: string)
      requires idx.Valid()
      modifies this, idx
      ensures idx.Valid() && Model() == Next(old(Model()), UnregisterProfile(name))
    {
      if name !in profiles {
        return;
      }
      var gvr := profiles[name].gvr;
      RemoveProfile(name);
      var needed := StillNeeded(gvr);
      if !needed {
        watchedGVRs := watchedGVRs - {gvr};
        var count, order := idx.DeleteBySource(gvr);
      }
    }

    method RemoveProfile(name: string)
      requires name in profiles
      modifies this
      ensures Model() == Removed(old(Model()), name)
    {
      StopProfileInformer(name);
      profiles := profiles - {name};
      assert profiles == old(profiles) - {name};
    }

    /** The second half of a scan, once the constraint-like resources are listed. */
    method WatchDiscovered(discovered: seq<GVR>)
      modifies this
      ensures Model() == Next(old(Model()), Scan(discovered))
    {
      var suppressed := CollectSuppressed();
      ghost var start := Model();
      ghost var fed := feeds;
      for i := 0 to |discovered|
        invariant unchanged(idx)
        invariant Model() == start.(watched := watchedGVRs, feeds := feeds)
        invariant watchedGVRs == start.watched + Found(start, discovered[..i])
        invariant feeds == start.feeds + set g | g in Found(start, discovered[..i]) :: Feed(g, OWN)
      {
        var gvr := discovered[i];
        assert forall g :: g in discovered[..i + 1] <==> g in discovered[..i] || g == gvr;
        if gvr in suppressed {
          assert Found(start, discovered[..i + 1]) == Found(start, discovered[..i]);
          continue;
        }
        if gvr !in watchedGVRs {
          assert Found(start, discovered[..i + 1]) == Found(start, discovered[..i]) + {gvr};
          watchedGVRs := watchedGVRs + {gvr};
          feeds := feeds + {Feed(gvr, OWN)};
        } else {
          assert Found(start, discovered[..i + 1]) == Found(start, discovered[..i]);
        }
      }
      assert discovered[..|discovered|] == discovered;
    }

    method CollectSuppressed() returns (suppressed: set<GVR>)
      ensures forall g :: g in suppressed <==> Suppressed(profiles, g)
    {
      suppressed := {};
      var todo := profiles.Keys;
      while todo != {}
        invariant todo <= profiles.Keys
        invariant forall g | g in suppressed :: Suppressed(profiles, g)
        invariant forall n | n in profiles && n !in todo && !profiles[n].enabled :: profiles[n].gvr in suppressed
        decreases todo
      {
        var n :| n in todo;
        if !profiles[n].enabled {
          suppressed := suppressed + {profiles[n].gvr};
        }
        todo := todo - {n};
      }
    }

    /** Runs its body once however often it is called. */
    method StopAll()
      modifies this
      ensures Model() == Next(old(Model()), Stop)
    {
      if stopped {
        return;
      }
      stopped := true;
      Close(OWN);
      ReleaseAll();
    }

    /** The loop over the profiles, in any order. */
    method ReleaseAll()
      modifies this`profiles, this`closed, this`panicked
      ensures profiles == Released(old(profiles))
      ensures closed == old(closed) + Held(old(profiles))
      ensures panicked == (old(panicked) || Clashes(old(profiles), old(closed)))
    {
      var todo := profiles.Keys;
      ghost var was, done := profiles, map[];
      while todo != {}
        invariant todo <= was.Keys && done == was - todo
        invariant profiles == Partly(was, done)
        invariant closed == old(closed) + Held(done)
        invariant panicked == (old(panicked) || Clashes(done, old(closed)))
        decreases todo
      {
        var n :| n in todo;
        ReleaseOne(n, was, done, old(closed), old(panicked));
        done := done[n := was[n]];
        todo := todo - {n};
      }
      assert done == was;
    }

    method ReleaseOne(n: string, ghost was: map<string, Profile>, ghost done: map<string, Profile>,
                      ghost closedBefore: set<nat>, ghost panickedBefore: bool)
      requires n in was && n !in done && profiles == Partly(was, done)
      requires closed == closedBefore + Held(done)
      requires panicked == (panickedBefore || Clashes(done, closedBefore))
      modifies this`profiles, this`closed, this`panicked
      ensures profiles == Partly(was, done[n := was[n]])
      ensures closed == closedBefore + Held(done[n := was[n]])
      ensures panicked == (panickedBefore || Clashes(done[n := was[n]], closedBefore))
    {
      CloseGrows(done, n, was[n], closedBefore);
      PartlyGrows(was, done, n);
      StopProfileInformer(n);
    }

    /** Add and update events; `parsed` is what the adapter made of the object, or nothing on an error. */
    method HandleAdd(gvr: GVR, parsed: Option<seq<Constraint>>)
      requires idx.Valid()
      modifies idx
      ensures idx.Valid() && Model() == Next(old(Model()), Add(gvr, parsed))
    {
      if gvr !in watchedGVRs || parsed.None? {
        return;
      }
      var cs := parsed.value;
      for i := 0 to |cs|
        invariant idx.Valid() && idx.byUID == UpsertAll(old(idx.byUID), cs[..i])
      {
        assert cs[..i + 1][..i] == cs[..i];
        idx.Upsert(cs[i]);
      }
      assert cs[..|cs|] == cs;
    }

    /** Delete events; without constraints to go by, the object's own UID is deleted. */
    method HandleDelete(uid: string, parsed: Option<seq<Constraint>>)
      requires idx.Valid()
      modifies idx
      ensures idx.Valid() && Model() == Next(old(Model()), Delete(uid, parsed))
      ensures parsed.Some? && parsed.value != [] ==>
                && (forall c | c in parsed.value :: c.uid !in idx.byUID)
                && forall u | (forall c | c in parsed.value :: c.uid != u) :: Lookup(idx.byUID, u) == Lookup(old(idx.byUID), u)
      ensures parsed.None? || parsed.value == [] ==>
                uid !in idx.byUID && forall u | u != uid :: Lookup(idx.byUID, u) == Lookup(old(idx.byUID), u)
    {
      if parsed.None? || |parsed.value| == 0 {
        idx.Delete(uid);
      } else {
        var cs := parsed.value;
        for i := 0 to |cs|
          invariant idx.Valid() && idx.byUID == old(idx.byUID) - Uids(cs[..i])
        {
          assert Uids(cs[..i + 1]) == Uids(cs[..i]) + {cs[i].uid} by {
            assert forall c :: c in cs[..i + 1] <==> c in cs[..i] || c == cs[i];
          }
          idx.Delete(cs[i].uid);
        }
        assert cs[..|cs|] == cs;
      }
    }
  }
}
