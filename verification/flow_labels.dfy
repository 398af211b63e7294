/** Flow labels: lists of "source:key=value" strings turned into maps, and what survives the trip. */
module FlowLabels {
  import opened Kube
  import opened Decimal

  datatype Label = Label(source: string, key: string, value: string)

  function Print(l: Label): string {
    l.source + ":" + l.key + "=" + l.value
  }

  /** The position of the first occurrence, if any. */
  function IndexOf(s: string, c: char): (r: Option<nat>)
    ensures r.None? <==> c !in s
    ensures r.Some? ==> r.value < |s| && s[r.value] == c && c !in s[..r.value]
  {
    if s == [] then None
    else if s[0] == c then Some(0)
    else
      match IndexOf(s[1..], c)
      case None => assert s == [s[0]] + s[1..]; None
      case Some(i) => assert s[..i + 1] == [s[0]] + s[1..][..i]; Some(i + 1)
  }

  /** The parts before and after the first occurrence. */
  function Cut(s: string, c: char): Option<(string, string)> {
    match IndexOf(s, c)
    case None => None
    case Some(i) => Some((s[..i], s[i + 1..]))
  }

  /** Drops everything up to the first colon. */
  function Stripped(s: string): string {
    match Cut(s, ':')
    case None => s
    case Some((_, after)) => after
  }

  /** Files what follows the source: cut at the first '='; without one it is a key, unless it is empty. */
  function FiledRest(labels: map<string, string>, rest: string): map<string, string> {
    match Cut(rest, '=')
    case Some((key, value)) => labels[key := value]
    case None => if rest != "" then labels[rest := ""] else labels
  }

  function Filed(labels: map<string, string>, s: string): map<string, string> {
    FiledRest(labels, Stripped(s))
  }

  function AllFiled(ss: seq<string>): map<string, string> {
    if ss == [] then map[] else Filed(AllFiled(ss[..|ss| - 1]), ss[|ss| - 1])
  }

  method ParseLabels(ss: seq<string>) returns (r: Option<map<string, string>>)
    ensures r == if ss == [] then None else Some(AllFiled(ss))
  {
    if |ss| == 0 {
      return None;
    }
    var labels: map<string, string> := map[];
    for i := 0 to |ss|
      invariant labels == AllFiled(ss[..i])
    {
      assert ss[..i + 1][..i] == ss[..i];
      labels := FileLabel(labels, ss[i]);
    }
    assert ss[..|ss|] == ss;
    r := Some(labels);
  }

  /** One iteration of the parse loop. */
  method FileLabel(labels: map<string, string>, s: string) returns (r: map<string, string>)
    ensures r == Filed(labels, s)
  {
    var l := s;
    var colon := Cut(l, ':');
    if colon.Some? {
      l := colon.value.1;
    }
    var parts := Cut(l, '=');
    if parts.Some? {
      r := labels[parts.value.0 := parts.value.1];
    } else if l != "" {
      r := labels[l := ""];
    } else {
      r := labels;
    }
  }

  // ---------------------------------------------------------------- round trip

  function Printed(ls: seq<Label>): seq<string> {
    seq(|ls|, i requires 0 <= i < |ls| => Print(ls[i]))
  }

  /** Later labels override earlier ones with the same key. */
  function Override(ls: seq<Label>): map<string, string> {
    if ls == [] then map[]
    else Override(ls[..|ls| - 1])[ls[|ls| - 1].key := ls[|ls| - 1].value]
  }

  predicate Plain(l: Label) {
    ':' !in l.source && '=' !in l.key
  }

  /** A part without the separator is cut off whole. */
  lemma CutFirst(a: string, b: string, sep: char)
    requires sep !in a
    ensures Cut(a + [sep] + b, sep) == Some((a, b))
  {
    var s := a + [sep] + b;
    assert s[|a|] == sep;
    var i := IndexOf(s, sep).value;
    assert s == s[..i] + [sep] + s[i + 1..];
    SplitsAtFirst(s[..i], s[i + 1..], a, b, sep);
  }

  lemma StrippedSource(source: string, rest: string)
    requires ':' !in source
    ensures Stripped(source + ":" + rest) == rest
  {
    CutFirst(source, rest, ':');
  }

  lemma PrintSplits(l: Label)
    ensures Print(l) == l.source + ":" + (l.key + "=" + l.value)
  {
  }

  /** A plain label is filed under its key with its value, whatever characters the value has. */
  lemma PlainIsFiled(labels: map<string, string>, l: Label)
    requires Plain(l)
    ensures Filed(labels, Print(l)) == labels[l.key := l.value]
  {
    PrintSplits(l);
    StrippedSource(l.source, l.key + "=" + l.value);
    CutFirst(l.key, l.value, '=');
  }

  /** Parsing a list of printed plain labels gives the left-to-right override, and nothing only for the empty list. */
  lemma {:induction false} RoundTrip(ls: seq<Label>)
    requires forall l | l in ls :: Plain(l)
    ensures AllFiled(Printed(ls)) == Override(ls)
  {
    if ls != [] {
      var last := |ls| - 1;
      assert ls[last] in ls;
      assert forall l | l in ls[..last] :: l in ls;
      RoundTrip(ls[..last]);
      assert Printed(ls)[..last] == Printed(ls[..last]);
      PlainIsFiled(Override(ls[..last]), ls[last]);
    }
  }

  /** What is left of a printed label once everything up to the first colon is gone. */
  lemma StrippedLabel(l: Label) returns (left: string)
    ensures Stripped(Print(l)) == left + l.key + "=" + l.value
    ensures left == "" <==> ':' !in l.source
  {
    PrintSplits(l);
    if ':' !in l.source {
      left := "";
      StrippedSource(l.source, l.key + "=" + l.value);
      assert left + l.key == l.key;
    } else {
      var i := IndexOf(l.source, ':').value;
      left := l.source[i + 1..] + ":";
      var rest := left + l.key + "=" + l.value;
      assert Print(l) == l.source[..i] + ":" + rest;
      StrippedSource(l.source[..i], rest);
    }
  }

  /** Filing text with an '=' makes one entry, whose key is what precedes the first '='. */
  lemma FiledEntry(rest: string) returns (key: string, value: string)
    requires '=' in rest
    ensures FiledRest(map[], rest) == map[key := value] && rest == key + "=" + value && '=' !in key
  {
    var i := IndexOf(rest, '=').value;
    key, value := rest[..i], rest[i + 1..];
  }

  /** One label survives the trip exactly when its source has no ':' and its key no '='. */
  lemma LabelSurvivesIff(l: Label)
    ensures Filed(map[], Print(l)) == map[l.key := l.value] <==> Plain(l)
  {
    if Plain(l) {
      PlainIsFiled(map[], l);
    } else {
      var left := StrippedLabel(l);
      var rest := left + l.key + "=" + l.value;
      assert rest[|left + l.key|] == '=';
      var key, value := FiledEntry(rest);
      if map[key := value] == map[l.key := l.value] {
        SameEntry(key, value, l.key, l.value);
      }
    }
  }

  lemma ColonInSourceLosesLabel()
    ensures Filed(map[], Print(Label("a:b", "k", "v"))) != map["k" := "v"]
  {
    var l := Label("a:b", "k", "v");
    assert l.source[1] == ':';
    LabelSurvivesIff(l);
  }

  lemma SameEntry(k: string, v: string, key: string, value: string)
    requires map[k := v] == map[key := value]
    ensures k == key && v == value
  {
    assert k in map[key := value];
    assert map[k := v][k] == v;
  }
}
