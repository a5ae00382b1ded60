/** The drift report and the way its recommendations come back as deploy targets
    (internal/reconcile/reconcile.go). Strings are sequences of code points here. */
module Drift {
  import opened Text
  import opened Versions
  import Targets
  import NetAddr

  datatype Agent = Agent(resourceId: string, name: string, hostName: string, ip: string, version: string,
      status: string)

  /** ref copies every field. */
  type HostRef = Agent

  // ---------------------------------------------------------------- classification

  datatype Class = Down | Up | Unknown

  /** What (?i) identifies with a lower-case letter: the capital, and for s and k one more code point each. */
  function Folded(c: char): char {
    if 'A' <= c <= 'Z' then (c as int + 32) as char
    else if c == '\U{17F}' then 's'
    else if c == '\U{212A}' then 'k'
    else c
  }

  /** A letter is matched by itself, by its capital, and for s and k by the long s and the Kelvin sign. */
  lemma FoldedIs(c: char, w: char)
    requires 'a' <= w <= 'z'
    ensures Folded(c) == w <==>
      c == w || c as int == w as int - 32 || (w == 's' && c == '\U{17F}') || (w == 'k' && c == '\U{212A}')
  {
  }

  predicate MatchesAt(s: string, w: string, i: nat) {
    i + |w| <= |s| && forall k :: 0 <= k < |w| ==> Folded(s[i + k]) == w[k]
  }

  predicate Mentions(s: string, w: string) {
    exists i: nat :: i <= |s| && MatchesAt(s, w, i)
  }

  const DOWN_WORDS: seq<string> := ["down", "inactive", "offline", "error", "suspend", "dead", "stoped", "stopped",
      "disconnect"]

  const UP_WORDS: seq<string> := ["active", "up", "online", "running", "connect"]

  predicate MentionsAny(s: string, ws: seq<string>) {
    exists i :: 0 <= i < |ws| && Mentions(s, ws[i])
  }

  function Classify(status: string): Class {
    var s := TrimSpace(status);
    if s == "" then Unknown
    else if MentionsAny(s, DOWN_WORDS) then Down
    else if MentionsAny(s, UP_WORDS) then Up
    else Unknown
  }

  /** A word that begins and ends with a letter no white space folds to. */
  predicate Solid(w: string) {
    w != "" && 'a' <= w[0] <= 'z' && 'a' <= w[|w| - 1] <= 'z'
  }

  lemma WordsAreSolid()
    ensures forall i :: 0 <= i < |DOWN_WORDS| ==> Solid(DOWN_WORDS[i])
    ensures forall i :: 0 <= i < |UP_WORDS| ==> Solid(UP_WORDS[i])
  {
  }

  lemma {:induction false} TrimLeftMentions(s: string, w: string)
    requires Solid(w)
    ensures Mentions(TrimLeft(s), w) <==> Mentions(s, w)
  {
    if s != "" && IsSpace(s[0]) {
      TrimLeftMentions(s[1..], w);
      if Mentions(s, w) {
        var i: nat :| i <= |s| && MatchesAt(s, w, i);
        assert Folded(s[i]) == w[0];
        assert MatchesAt(s[1..], w, i - 1);
      }
      if Mentions(s[1..], w) {
        var i: nat :| i <= |s[1..]| && MatchesAt(s[1..], w, i);
        assert MatchesAt(s, w, i + 1);
      }
    }
  }

  lemma {:induction false} TrimRightMentions(s: string, w: string)
    requires Solid(w)
    ensures Mentions(TrimRight(s), w) <==> Mentions(s, w)
  {
    var last := |s| - 1;
    if s != "" && IsSpace(s[last]) {
      TrimRightMentions(s[..last], w);
      if Mentions(s, w) {
        var i: nat :| i <= |s| && MatchesAt(s, w, i);
        assert Folded(s[i + |w| - 1]) == w[|w| - 1];
        assert MatchesAt(s[..last], w, i);
      }
      if Mentions(s[..last], w) {
        var i: nat :| i <= |s[..last]| && MatchesAt(s[..last], w, i);
        assert MatchesAt(s, w, i);
      }
    }
  }

  lemma TrimMentions(s: string, ws: seq<string>)
    requires forall i :: 0 <= i < |ws| ==> Solid(ws[i])
    ensures MentionsAny(TrimSpace(s), ws) <==> MentionsAny(s, ws)
  {
    hide Mentions;
    forall i | 0 <= i < |ws| ensures Mentions(TrimSpace(s), ws[i]) <==> Mentions(s, ws[i]) {
      TrimLeftMentions(s, ws[i]);
      TrimRightMentions(TrimLeft(s), ws[i]);
    }
  }

  lemma WordsAre(s: string)
    ensures MentionsAny(s, DOWN_WORDS) <==>
      || Mentions(s, "down") || Mentions(s, "inactive") || Mentions(s, "offline") || Mentions(s, "error")
      || Mentions(s, "suspend") || Mentions(s, "dead") || Mentions(s, "stoped") || Mentions(s, "stopped")
      || Mentions(s, "disconnect")
    ensures MentionsAny(s, UP_WORDS) <==>
      || Mentions(s, "active") || Mentions(s, "up") || Mentions(s, "online") || Mentions(s, "running")
      || Mentions(s, "connect")
  {
    hide Mentions;
    var d, u := DOWN_WORDS, UP_WORDS;
    assert d[0] == "down" && d[1] == "inactive" && d[2] == "offline" && d[3] == "error" && d[4] == "suspend";
    assert d[5] == "dead" && d[6] == "stoped" && d[7] == "stopped" && d[8] == "disconnect" && |d| == 9;
    assert u[0] == "active" && u[1] == "up" && u[2] == "online" && u[3] == "running" && u[4] == "connect" && |u| == 5;
  }

  /** The class does not depend on white space around the status, and a word for down outweighs any word for
      up, although "inactive" and "disconnect" contain one. */
  lemma ClassifyIs(s: string)
    ensures Classify(s) == if MentionsAny(s, DOWN_WORDS) then Down else if MentionsAny(s, UP_WORDS) then Up else Unknown
    ensures Mentions(s, "inactive") || Mentions(s, "disconnect") ==> MentionsAny(s, UP_WORDS) && Classify(s) == Down
    ensures MentionsAny(s, DOWN_WORDS) <==>
      || Mentions(s, "down") || Mentions(s, "inactive") || Mentions(s, "offline") || Mentions(s, "error")
      || Mentions(s, "suspend") || Mentions(s, "dead") || Mentions(s, "stoped") || Mentions(s, "stopped")
      || Mentions(s, "disconnect")
    ensures MentionsAny(s, UP_WORDS) <==>
      || Mentions(s, "active") || Mentions(s, "up") || Mentions(s, "online") || Mentions(s, "running")
      || Mentions(s, "connect")
  {
    WordsAre(s);
    WordsAreSolid();
    TrimMentions(s, DOWN_WORDS);
    TrimMentions(s, UP_WORDS);
    NothingMentioned(DOWN_WORDS);
    NothingMentioned(UP_WORDS);
    assert DOWN_WORDS[1] == "inactive" && DOWN_WORDS[8] == "disconnect";
    assert UP_WORDS[0] == "active" && UP_WORDS[4] == "connect";
    Suffix(s, "in", "active");
    Suffix(s, "dis", "connect");
    assert "in" + "active" == "inactive" && "dis" + "connect" == "disconnect";
  }

  lemma NothingMentioned(ws: seq<string>)
    requires forall i :: 0 <= i < |ws| ==> Solid(ws[i])
    ensures !MentionsAny("", ws)
  {
  }

  lemma Suffix(s: string, v: string, w: string)
    ensures Mentions(s, v + w) ==> Mentions(s, w)
  {
    if Mentions(s, v + w) {
      var i: nat :| i <= |s| && MatchesAt(s, v + w, i);
      forall k | 0 <= k < |w| ensures Folded(s[i + |v| + k]) == w[k] {
        assert (v + w)[|v| + k] == w[k];
      }
      assert MatchesAt(s, w, i + |v|);
    }
  }

  // ---------------------------------------------------------------- counting agents

  ghost function Tally(agents: seq<Agent>, p: Agent -> bool): (n: nat)
    ensures n <= |agents|
  {
    if agents == [] then 0 else Tally(agents[..|agents| - 1], p) + if p(agents[|agents| - 1]) then 1 else 0
  }

  lemma TallySnoc(agents: seq<Agent>, i: nat, p: Agent -> bool)
    requires i < |agents|
    ensures Tally(agents[..i + 1], p) == Tally(agents[..i], p) + if p(agents[i]) then 1 else 0
  {
    assert agents[..i + 1][..i] == agents[..i];
  }

  /** Predicates of which each agent satisfies as many of the one side as of the other. */
  lemma {:induction false} TallySplit(agents: seq<Agent>, p: Agent -> bool, q: Agent -> bool, r: Agent -> bool)
    requires forall a :: a in agents ==> (r(a) <==> p(a) || q(a)) && !(p(a) && q(a))
    ensures Tally(agents, r) == Tally(agents, p) + Tally(agents, q)
  {
    if agents != [] {
      assert agents == agents[..|agents| - 1] + [agents[|agents| - 1]];
      TallySplit(agents[..|agents| - 1], p, q, r);
    }
  }

  lemma {:induction false} TallySame(agents: seq<Agent>, p: Agent -> bool, q: Agent -> bool)
    requires forall a :: a in agents ==> (p(a) <==> q(a))
    ensures Tally(agents, p) == Tally(agents, q)
  {
    if agents != [] {
      assert agents == agents[..|agents| - 1] + [agents[|agents| - 1]];
      TallySame(agents[..|agents| - 1], p, q);
    }
  }

  lemma {:induction false} TallyAll(agents: seq<Agent>, p: Agent -> bool)
    requires forall a :: a in agents ==> p(a)
    ensures Tally(agents, p) == |agents|
  {
    if agents != [] {
      assert agents == agents[..|agents| - 1] + [agents[|agents| - 1]];
      TallyAll(agents[..|agents| - 1], p);
    }
  }

  lemma {:induction false} TallyNone(agents: seq<Agent>, p: Agent -> bool)
    requires forall a :: a in agents ==> !p(a)
    ensures Tally(agents, p) == 0
  {
    if agents != [] {
      assert agents == agents[..|agents| - 1] + [agents[|agents| - 1]];
      TallyNone(agents[..|agents| - 1], p);
    }
  }

  ghost function Pick(agents: seq<Agent>, p: Agent -> bool): seq<Agent> {
    if agents == [] then []
    else Pick(agents[..|agents| - 1], p) + if p(agents[|agents| - 1]) then [agents[|agents| - 1]] else []
  }

  lemma PickSnoc(agents: seq<Agent>, i: nat, p: Agent -> bool)
    requires i < |agents|
    ensures Pick(agents[..i + 1], p) == Pick(agents[..i], p) + if p(agents[i]) then [agents[i]] else []
  {
    assert agents[..i + 1][..i] == agents[..i];
  }

  lemma {:induction false} PickSame(agents: seq<Agent>, p: Agent -> bool, q: Agent -> bool)
    requires forall a :: a in agents ==> (p(a) <==> q(a))
    ensures Pick(agents, p) == Pick(agents, q)
  {
    if agents != [] {
      assert agents == agents[..|agents| - 1] + [agents[|agents| - 1]];
      PickSame(agents[..|agents| - 1], p, q);
    }
  }

  // ---------------------------------------------------------------- histogram and newest version

  function VersionOf(a: Agent): string { TrimSpace(a.version) }

  function Label(a: Agent): string {
    if VersionOf(a) == "" then "unknown" else VersionOf(a)
  }

  ghost function Labelled(l: string): Agent -> bool { a => Label(a) == l }

  ghost function LabelledIn(ls: set<string>): Agent -> bool { a => Label(a) in ls }

  /** The label counts of the agents. */
  ghost predicate Counts(agents: seq<Agent>, counts: map<string, nat>) {
    && (forall l :: l in counts ==> counts[l] == Tally(agents, Labelled(l)) && counts[l] > 0)
    && (forall a :: a in agents ==> Label(a) in counts)
  }

  /** A version that no agent's is newer than, taken from the agents unless none has any. */
  ghost predicate Newest(agents: seq<Agent>, latest: string) {
    && (forall a :: a in agents ==> !Older(latest, VersionOf(a)))
    && (latest == "" || exists a :: a in agents && VersionOf(a) == latest)
  }

  lemma CountsSnoc(agents: seq<Agent>, i: nat, counts: map<string, nat>, counts': map<string, nat>)
    requires i < |agents| && Counts(agents[..i], counts)
    requires var l := Label(agents[i]); counts' == counts[l := (if l in counts then counts[l] else 0) + 1]
    ensures Counts(agents[..i + 1], counts')
  {
    hide Label;
    var a := agents[i];
    assert agents[..i + 1] == agents[..i] + [a];
    forall l | l in counts' ensures counts'[l] == Tally(agents[..i + 1], Labelled(l)) {
      TallySnoc(agents, i, Labelled(l));
      if l !in counts {
        TallyNone(agents[..i], Labelled(l));
      }
    }
  }

  lemma NewestSnoc(agents: seq<Agent>, i: nat, latest: string, latest': string)
    requires i < |agents| && Newest(agents[..i], latest)
    requires var v := VersionOf(agents[i]);
      (latest' == v && Older(latest, v)) || (latest' == latest && (!Older(latest, v) || v == "" || v == "unknown"))
    ensures Newest(agents[..i + 1], latest')
  {
    hide VersionOf, Older;
    var a := agents[i];
    var v := VersionOf(a);
    assert agents[..i + 1] == agents[..i] + [a];
    if latest' == v && Older(latest, v) {
      OlderOneWay(latest, v);
      NotOlderItself(v);
      forall b | b in agents[..i] ensures !Older(v, VersionOf(b)) {
        if Older(v, VersionOf(b)) {
          OlderTransitive(latest, v, VersionOf(b));
        }
      }
      assert a in agents[..i + 1];
    } else {
      if v == "" || v == "unknown" {
        assert forall k :: 0 <= k < |v| ==> !IsDigit(v[k]);
        WithoutDigits(v, latest);
      }
      if latest != "" {
        var b :| b in agents[..i] && VersionOf(b) == latest;
        assert b in agents[..i + 1];
      }
    }
  }

  lemma NotOlderItself(v: string)
    ensures !Older(v, v)
  {
    if Older(v, v) {
      OlderOneWay(v, v);
    }
  }

  /** The first loop of Evaluate. */
  method CountVersions(agents: seq<Agent>) returns (counts: map<string, nat>, latest: string)
    ensures Counts(agents, counts) && Newest(agents, latest)
  {
    hide Counts, Newest, Older, SameFields;
    counts, latest := map[], "";
    NoAgents(agents[..0]);
    var i := 0;
    while i < |agents|
      invariant 0 <= i <= |agents| && Counts(agents[..i], counts) && Newest(agents[..i], latest)
    {
      ghost var counts0, latest0 := counts, latest;
      var v := TrimSpace(agents[i].version);
      if v == "" {
        v := "unknown";
      }
      counts := counts[v := (if v in counts then counts[v] else 0) + 1];
      CountsSnoc(agents, i, counts0, counts);
      if v != "unknown" {
        var c := CompareVersion(v, latest);
        if c > 0 {
          latest := v;
        }
      }
      NewestSnoc(agents, i, latest0, latest);
      i := i + 1;
    }
    assert agents[..i] == agents;
  }

  lemma NoAgents(agents: seq<Agent>)
    requires agents == []
    ensures Counts(agents, map[]) && Newest(agents, "")
  {
  }

  ghost function Sum(vs: seq<VersionCount>): nat {
    if vs == [] then 0 else Sum(vs[..|vs| - 1]) + vs[|vs| - 1].count
  }

  lemma {:induction false} SumTakenOut(vs: seq<VersionCount>, k: nat)
    requires k < |vs|
    ensures Sum(vs) == Sum(vs[..k] + vs[k + 1..]) + vs[k].count
  {
    var last := |vs| - 1;
    if k == last {
      assert vs[..k] + vs[k + 1..] == vs[..last];
    } else {
      SumTakenOut(vs[..last], k);
      var rest := vs[..k] + vs[k + 1..];
      assert rest[..|rest| - 1] == vs[..last][..k] + vs[..last][k + 1..];
    }
  }

  lemma TakenOut(vs: seq<VersionCount>, k: nat)
    requires k < |vs|
    ensures multiset(vs[..k] + vs[k + 1..]) == multiset(vs) - multiset{vs[k]}
  {
    assert vs == vs[..k] + [vs[k]] + vs[k + 1..];
  }

  lemma PlaceOf(r: VersionCount, vs: seq<VersionCount>, ws: seq<VersionCount>) returns (k: nat)
    requires multiset(vs) == multiset(ws) && r in vs
    ensures k < |ws| && ws[k] == r
  {
    assert r in multiset(vs) && r in multiset(ws);
    assert r in ws;
    k :| k < |ws| && ws[k] == r;
  }

  lemma {:induction false} SumPermuted(vs: seq<VersionCount>, ws: seq<VersionCount>)
    requires multiset(vs) == multiset(ws)
    ensures Sum(vs) == Sum(ws)
    decreases |vs|
  {
    hide Sum;
    if vs == [] {
      assert |multiset(ws)| == 0;
      assert ws == vs;
    } else {
      var k := PlaceOf(vs[0], vs, ws);
      TakenOut(vs, 0);
      TakenOut(ws, k);
      SumPermuted(vs[..0] + vs[1..], ws[..k] + ws[k + 1..]);
      SumTakenOut(vs, 0);
      SumTakenOut(ws, k);
    }
  }

  lemma TallyOneMore(agents: seq<Agent>, done: set<string>, v: string)
    requires v !in done
    ensures Tally(agents, LabelledIn(done + {v})) == Tally(agents, LabelledIn(done)) + Tally(agents, Labelled(v))
  {
    TallySplit(agents, LabelledIn(done), Labelled(v), LabelledIn(done + {v}));
  }

  /** Rows of the histogram: each holds its label's count, and every label has a row. */
  ghost predicate IsHistogram(agents: seq<Agent>, vs: seq<VersionCount>) {
    && (forall r :: r in vs ==> r.count == Tally(agents, Labelled(r.version)) && r.count > 0)
    && (forall a :: a in agents ==> exists r :: r in vs && r.version == Label(a))
    && Sum(vs) == |agents|
  }

  /** The rows of some labels, with the agents that carry them. */
  ghost predicate RowsOf(agents: seq<Agent>, counts: map<string, nat>, vs: seq<VersionCount>, done: set<string>) {
    && done <= counts.Keys
    && (forall r :: r in vs ==> r.version in counts && r.count == counts[r.version])
    && (forall l :: l in done ==> VersionCount(l, counts[l]) in vs)
    && Sum(vs) == Tally(agents, LabelledIn(done))
  }

  lemma NoRows(agents: seq<Agent>, counts: map<string, nat>)
    ensures RowsOf(agents, counts, [], {})
  {
    TallyNone(agents, LabelledIn({}));
  }

  lemma OneMoreRow(agents: seq<Agent>, counts: map<string, nat>, vs: seq<VersionCount>, done: set<string>, v: string)
    requires Counts(agents, counts) && RowsOf(agents, counts, vs, done) && v in counts && v !in done
    ensures RowsOf(agents, counts, vs + [VersionCount(v, counts[v])], done + {v})
  {
    hide Tally, LabelledIn, Labelled;
    TallyOneMore(agents, done, v);
    var r := VersionCount(v, counts[v]);
    assert (vs + [r])[..|vs|] == vs;
    forall l | l in done + {v} ensures VersionCount(l, counts[l]) in vs + [r] {
      if l == v {
        assert (vs + [r])[|vs|] == r;
      }
    }
  }

  /** `for v, n := range counts`, in any order, then sorted. */
  method Histogram(agents: seq<Agent>, counts: map<string, nat>) returns (vs: seq<VersionCount>)
    requires Counts(agents, counts)
    ensures IsHistogram(agents, vs) && Descending(vs)
  {
    hide *;
    vs := [];
    var rest := counts.Keys;
    NoRows(agents, counts);
    assert counts.Keys - rest == {};
    while rest != {}
      invariant rest <= counts.Keys && RowsOf(agents, counts, vs, counts.Keys - rest)
      decreases rest
    {
      var v :| v in rest;
      OneMoreRow(agents, counts, vs, counts.Keys - rest, v);
      assert counts.Keys - rest + {v} == counts.Keys - (rest - {v});
      vs := vs + [VersionCount(v, counts[v])];
      rest := rest - {v};
    }
    assert counts.Keys - rest == counts.Keys;
    HistogramOf(agents, counts, vs);
    var arr := new VersionCount[|vs|](i requires 0 <= i < |vs| => vs[i]);
    assert arr[..] == vs;
    SortVersionsDesc(arr);
    HistogramSorted(agents, vs, arr[..]);
    vs := arr[..];
  }

  lemma HistogramOf(agents: seq<Agent>, counts: map<string, nat>, vs: seq<VersionCount>)
    requires Counts(agents, counts) && RowsOf(agents, counts, vs, counts.Keys)
    ensures IsHistogram(agents, vs)
  {
    hide Label, Sum, Tally, Labelled;
    assert forall a :: a in agents ==> LabelledIn(counts.Keys)(a);
    TallyAll(agents, LabelledIn(counts.Keys));
    forall a | a in agents ensures exists r :: r in vs && r.version == Label(a) {
      assert VersionCount(Label(a), counts[Label(a)]) in vs;
    }
  }

  lemma HistogramSorted(agents: seq<Agent>, vs: seq<VersionCount>, ws: seq<VersionCount>)
    requires IsHistogram(agents, vs) && multiset(vs) == multiset(ws)
    ensures IsHistogram(agents, ws)
  {
    hide Label, Sum, Tally;
    SumPermuted(vs, ws);
    assert forall r :: r in ws <==> r in multiset(ws);
    assert forall r :: r in vs <==> r in multiset(vs);
    forall a | a in agents ensures exists r :: r in ws && r.version == Label(a) {
      var r :| r in vs && r.version == Label(a);
      assert r in ws;
    }
  }

  // ---------------------------------------------------------------- the report

  datatype Recommendation = Recommendation(kind: string, targetSpec: string, hosts: seq<HostRef>)

  datatype Report = Report(
    total: nat, active: nat, down: nat, unknown: nat,
    latest: string, outdated: nat,
    versions: seq<VersionCount>,
    recommendations: seq<Recommendation>)

  ghost function InClass(c: Class): Agent -> bool { (a: Agent) => Classify(a.status) == c }

  /** Not blank, and strictly older than the version of some agent. */
  ghost function Behind(agents: seq<Agent>): Agent -> bool {
    a => VersionOf(a) != "" && exists b :: b in agents && Older(VersionOf(a), VersionOf(b))
  }

  ghost function BehindLatest(latest: string): Agent -> bool {
    a => latest != "" && VersionOf(a) != "" && Older(VersionOf(a), latest)
  }

  ghost function Addressed(p: Agent -> bool): Agent -> bool {
    a => p(a) && a.ip != ""
  }

  function Ips(hs: seq<HostRef>): seq<string> {
    seq(|hs|, i requires 0 <= i < |hs| => hs[i].ip)
  }

  function Advice(kind: string, hs: seq<HostRef>): seq<Recommendation> {
    if hs == [] then [] else [Recommendation(kind, Join(Ips(hs), ','), hs)]
  }

  /** What a report says about the fleet. */
  ghost predicate Reports(agents: seq<Agent>, r: Report) {
    && r.total == |agents|
    && r.active == Tally(agents, InClass(Up)) && r.down == Tally(agents, InClass(Down))
    && r.unknown == Tally(agents, InClass(Unknown))
    && IsHistogram(agents, r.versions) && Descending(r.versions)
    && Newest(agents, r.latest)
    && r.outdated == Tally(agents, Behind(agents))
    && r.recommendations ==
         Advice("repair", Pick(agents, Addressed(InClass(Down))))
         + Advice("upgrade", Pick(agents, Addressed(Behind(agents))))
  }

  /** The newest version stands for all of them. */
  lemma BehindIsBehindLatest(agents: seq<Agent>, latest: string, a: Agent)
    requires Newest(agents, latest)
    ensures BehindLatest(latest)(a) <==> Behind(agents)(a)
  {
    hide VersionOf, Older;
    var v := VersionOf(a);
    if BehindLatest(latest)(a) {
      var b :| b in agents && VersionOf(b) == latest;
    }
    if Behind(agents)(a) {
      var b :| b in agents && Older(v, VersionOf(b));
      if !Older(v, latest) {
        NotOlderTransitive(v, latest, VersionOf(b));
      }
      if latest == "" {
        WithoutDigits("", v);
      }
    }
  }

  /** Every agent is in exactly one class. */
  lemma ClassesPartition(agents: seq<Agent>)
    ensures Tally(agents, InClass(Up)) + Tally(agents, InClass(Down)) + Tally(agents, InClass(Unknown)) == |agents|
  {
    hide Classify;
    var known: Agent -> bool := (a: Agent) => Classify(a.status) != Unknown;
    var any: Agent -> bool := a => true;
    TallySplit(agents, InClass(Up), InClass(Down), known);
    TallySplit(agents, known, InClass(Unknown), any);
    TallyAll(agents, any);
  }

  /** The second loop of Evaluate. */
  method Survey(agents: seq<Agent>, latest: string)
    returns (active: nat, down: nat, unknown: nat, outdated: nat, downHosts: seq<HostRef>, oldHosts: seq<HostRef>)
    ensures active == Tally(agents, InClass(Up)) && down == Tally(agents, InClass(Down))
      && unknown == Tally(agents, InClass(Unknown))
    ensures outdated == Tally(agents, BehindLatest(latest))
    ensures downHosts == Pick(agents, Addressed(InClass(Down)))
      && oldHosts == Pick(agents, Addressed(BehindLatest(latest)))
  {
    hide Classify, Older, SameFields;
    active, down, unknown, outdated, downHosts, oldHosts := 0, 0, 0, 0, [], [];
    var i := 0;
    while i < |agents|
      invariant 0 <= i <= |agents|
      invariant active == Tally(agents[..i], InClass(Up)) && down == Tally(agents[..i], InClass(Down))
      invariant unknown == Tally(agents[..i], InClass(Unknown)) && outdated == Tally(agents[..i], BehindLatest(latest))
      invariant downHosts == Pick(agents[..i], Addressed(InClass(Down)))
      invariant oldHosts == Pick(agents[..i], Addressed(BehindLatest(latest)))
    {
      var a := agents[i];
      Round(agents, i, latest);
      match Classify(a.status) {
        case Down =>
          down := down + 1;
          if a.ip != "" {
            downHosts := downHosts + [a];
          }
        case Up => active := active + 1;
        case Unknown => unknown := unknown + 1;
      }
      var v := TrimSpace(a.version);
      if latest != "" && v != "" {
        var c := CompareVersion(v, latest);
        if c < 0 {
          outdated := outdated + 1;
          if a.ip != "" {
            oldHosts := oldHosts + [a];
          }
        }
      }
      i := i + 1;
    }
    assert agents[..i] == agents;
  }

  lemma Round(agents: seq<Agent>, i: nat, latest: string)
    requires i < |agents|
    ensures forall c: Class ::
      (Tally(agents[..i + 1], InClass(c)) ==
      Tally(agents[..i], InClass(c)) + if Classify(agents[i].status) == c then 1 else 0)
    ensures Tally(agents[..i + 1], BehindLatest(latest)) ==
      Tally(agents[..i], BehindLatest(latest)) + if BehindLatest(latest)(agents[i]) then 1 else 0
    ensures Pick(agents[..i + 1], Addressed(InClass(Down))) ==
      Pick(agents[..i], Addressed(InClass(Down)))
      + if Classify(agents[i].status) == Down && agents[i].ip != "" then [agents[i]] else []
    ensures Pick(agents[..i + 1], Addressed(BehindLatest(latest))) ==
      Pick(agents[..i], Addressed(BehindLatest(latest)))
      + if BehindLatest(latest)(agents[i]) && agents[i].ip != "" then [agents[i]] else []
  {
    hide Classify, BehindLatest, Tally, Pick;
    forall c: Class
      ensures Tally(agents[..i + 1], InClass(c)) ==
        Tally(agents[..i], InClass(c)) + if Classify(agents[i].status) == c then 1 else 0
    {
      TallySnoc(agents, i, InClass(c));
    }
    TallySnoc(agents, i, BehindLatest(latest));
    PickSnoc(agents, i, Addressed(InClass(Down)));
    PickSnoc(agents, i, Addressed(BehindLatest(latest)));
  }

  method JoinIps(hs: seq<HostRef>) returns (s: string)
    ensures s == Join(Ips(hs), ',')
  {
    var ips: seq<string> := [];
    var i := 0;
    while i < |hs|
      invariant 0 <= i <= |hs| && ips == Ips(hs)[..i]
    {
      ips := ips + [hs[i].ip];
      i := i + 1;
    }
    assert Ips(hs)[..i] == Ips(hs);
    s := Join(ips, ',');
  }

  /** Evaluate. */
  method Evaluate(agents: seq<Agent>) returns (r: Report)
    ensures Reports(agents, r)
    ensures r.active + r.down + r.unknown == r.total == Sum(r.versions)
  {
    hide Counts, Newest, IsHistogram, Descending, Tally, Pick, InClass, Addressed, BehindLatest, Behind, Sum, Join, Ips;
    var counts, latest := CountVersions(agents);
    var vs := Histogram(agents, counts);
    var active, down, unknown, outdated, downHosts, oldHosts := Survey(agents, latest);
    ClassesPartition(agents);
    OutdatedAgree(agents, latest);
    HistogramSum(agents, vs);
    var recs: seq<Recommendation> := [];
    if |downHosts| > 0 {
      var spec := JoinIps(downHosts);
      recs := recs + [Recommendation("repair", spec, downHosts)];
    }
    if |oldHosts| > 0 {
      var spec := JoinIps(oldHosts);
      recs := recs + [Recommendation("upgrade", spec, oldHosts)];
    }
    r := Report(|agents|, active, down, unknown, latest, outdated, vs, recs);
  }

  lemma HistogramSum(agents: seq<Agent>, vs: seq<VersionCount>)
    requires IsHistogram(agents, vs)
    ensures Sum(vs) == |agents|
  {
  }

  lemma OutdatedAgree(agents: seq<Agent>, latest: string)
    requires Newest(agents, latest)
    ensures Tally(agents, BehindLatest(latest)) == Tally(agents, Behind(agents))
    ensures Pick(agents, Addressed(BehindLatest(latest))) == Pick(agents, Addressed(Behind(agents)))
  {
    hide Newest, Behind, BehindLatest;
    forall a: Agent ensures BehindLatest(latest)(a) <==> Behind(agents)(a) {
      BehindIsBehindLatest(agents, latest, a);
    }
    TallySame(agents, BehindLatest(latest), Behind(agents));
    PickSame(agents, Addressed(BehindLatest(latest)), Addressed(Behind(agents)));
  }

  // ---------------------------------------------------------------- from the report to a deploy

  /** A token that names one host: an IPv4 or IPv6 address, or a name without a dash. */
  predicate Bare(ip: string) {
    ip != "" && Free(ip, Targets.IsSep) && '/' !in ip && '-' !in ip
  }

  /** Main result: the target list of a recommendation expands to the addresses of its hosts, each once, in
      order, whenever they are bare and at most 1024 of them differ; more than that are refused. */
  method DeployAdvice(t: NetAddr.Text6, hs: seq<HostRef>) returns (r: Result<seq<string>, Targets.Error>)
    requires t.Law() && hs != [] && forall i :: 0 <= i < |hs| ==> Bare(hs[i].ip)
    ensures r.Ok? <==> |Dedup(Ips(hs))| <= Targets.MAX_TARGETS
    ensures r.Ok? ==> r.value == Dedup(Ips(hs))
  {
    var spec := JoinIps(hs);
    var ips := Ips(hs);
    FieldsJoin(ips, ',', Targets.IsSep);
    Targets.FlattenThemselves(Targets.Denoting(t), ips);
    DedupElements(ips);
    assert ips[0] in Dedup(ips);
    r := Targets.ExpandTargets(t, spec);
  }
}
