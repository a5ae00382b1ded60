/** Group resolution and the offers built from it: the reply to a message (internal/opampserver/reconcile.go)
    and the push (internal/opampserver/push.go). */
module Offers {
  import opened Text
  import opened ConfigCodec

  datatype Group = Group(name: string, selector: map<string, string>)

  datatype Package = Package(name: string, kind: int, version: string, contentHash: string)

  datatype Version = Version(files: Files, hash: string)

  datatype Agent = Agent(
    uid: string,
    assignment: Option<string>,
    identifying: map<string, string>,
    nonIdentifying: map<string, string>,
    acceptsConfig: bool,
    acceptsPackages: bool)

  /** What the store answers; None and missing keys stand for its errors. */
  datatype Catalog = Catalog(
    defaultGroup: string,
    groups: Option<seq<Group>>,
    current: map<string, Version>,
    packages: map<string, seq<Package>>)
  {
    /** The primary key (group, package name) and hex digests of one length. */
    ghost predicate Valid() {
      forall g :: g in packages ==> DistinctNames(packages[g])
    }
  }

  ghost predicate DistinctNames(ps: seq<Package>) {
    forall i, j :: 0 <= i < j < |ps| ==> ps[i].name != ps[j].name
  }

  // ---------------------------------------------------------------- which group governs an agent

  /** A missing attribute reads as the empty string. */
  function Attr(attrs: map<string, string>, k: string): string {
    if k in attrs then attrs[k] else ""
  }

  predicate SelectorMatches(selector: map<string, string>, attrs: map<string, string>) {
    forall k :: k in selector ==> Attr(attrs, k) == selector[k]
  }

  function Attributes(a: Agent): map<string, string> {
    a.identifying + a.nonIdentifying
  }

  predicate Candidate(defaultGroup: string, g: Group, a: Agent) {
    g.name != defaultGroup && g.selector != map[] && SelectorMatches(g.selector, Attributes(a))
  }

  /** The names of the groups whose selector claims the agent. */
  ghost function Claimants(defaultGroup: string, groups: seq<Group>, a: Agent): set<string> {
    set g | g in groups && Candidate(defaultGroup, g, a) :: g.name
  }

  ghost predicate IsLeast(x: string, s: set<string>) {
    x in s && forall y :: y in s ==> x == y || Less(x, y)
  }

  /** `name` governs the agent: its explicit assignment, else the least claimant, else the default group. */
  ghost predicate Governs(name: string, cat: Catalog, a: Agent) {
    if a.assignment.Some? && a.assignment.value != "" then name == a.assignment.value
    else if cat.groups.None? then name == cat.defaultGroup
    else
      var c := Claimants(cat.defaultGroup, cat.groups.value, a);
      if c == {} then name == cat.defaultGroup else IsLeast(name, c)
  }

  /** At most one group governs, and it does not depend on the order in which the groups are listed. */
  lemma GoverningIsUnique(x: string, y: string, cat: Catalog, cat': Catalog, a: Agent)
    requires Governs(x, cat, a) && Governs(y, cat', a)
    requires cat'.defaultGroup == cat.defaultGroup && cat'.groups.Some? == cat.groups.Some?
    requires cat.groups.Some? ==> multiset(cat.groups.value) == multiset(cat'.groups.value)
    ensures x == y
  {
    if cat.groups.Some? {
      assert forall g :: g in cat.groups.value <==> g in multiset(cat.groups.value);
      assert forall g :: g in cat'.groups.value <==> g in multiset(cat'.groups.value);
      assert Claimants(cat.defaultGroup, cat.groups.value, a) == Claimants(cat.defaultGroup, cat'.groups.value, a);
    }
    LessTotal(x, y);
  }

  /** Every value the selector asks for; the attribute is the non-identifying one, else the identifying one, else
      blank. */
  ghost predicate HasLabels(selector: map<string, string>, identifying: map<string, string>,
                            other: map<string, string>) {
    forall k :: k in selector ==>
      selector[k] == if k in other then other[k] else if k in identifying then identifying[k] else ""
  }

  ghost predicate Selects(g: Group, name: string, a: Agent) {
    g.name == name && g.selector != map[] && HasLabels(g.selector, a.identifying, a.nonIdentifying)
  }

  /** A group that governs by its selector has one, and the agent has every label in it. */
  lemma GoverningSelects(name: string, cat: Catalog, a: Agent)
    requires Governs(name, cat, a) && name != cat.defaultGroup
    requires a.assignment.None? || a.assignment.value == ""
    ensures cat.groups.Some?
    ensures exists g :: g in cat.groups.value && Selects(g, name, a)
  {
    var g :| g in cat.groups.value && Candidate(cat.defaultGroup, g, a) && g.name == name;
    assert Selects(g, name, a);
  }

  /** And whatever group has a selector that the agent meets, the one that governs is that one or one before it by
      name. */
  lemma SelectorClaims(name: string, cat: Catalog, a: Agent, g: Group)
    requires Governs(name, cat, a) && cat.groups.Some? && g in cat.groups.value
    requires a.assignment.None? || a.assignment.value == ""
    requires g.name != cat.defaultGroup && g.selector != map[]
    requires HasLabels(g.selector, a.identifying, a.nonIdentifying)
    ensures name == g.name || Less(name, g.name)
    ensures name != cat.defaultGroup
  {
    assert g.name in Claimants(cat.defaultGroup, cat.groups.value, a);
  }

  predicate ByName(gs: seq<Group>) {
    forall i, j :: 0 <= i < j < |gs| ==> !Less(gs[j].name, gs[i].name)
  }

  /** sort.Slice by name. */
  method SortGroups(gs: seq<Group>) returns (r: seq<Group>)
    ensures ByName(r) && multiset(r) == multiset(gs)
  {
    r := [];
    var n := 0;
    while n < |gs|
      invariant 0 <= n <= |gs| && ByName(r) && multiset(r) == multiset(gs[..n])
    {
      var i := 0;
      while i < |r| && !Less(gs[n].name, r[i].name)
        invariant 0 <= i <= |r|
        invariant forall k :: 0 <= k < i ==> !Less(gs[n].name, r[k].name)
      {
        i := i + 1;
      }
      InsertByName(r, i, gs[n]);
      assert r == r[..i] + r[i..];
      assert gs[..n + 1] == gs[..n] + [gs[n]];
      r := r[..i] + [gs[n]] + r[i..];
      n := n + 1;
    }
    assert gs[..n] == gs;
  }

  lemma InsertByName(r: seq<Group>, i: nat, g: Group)
    requires ByName(r) && i <= |r|
    requires forall k :: 0 <= k < i ==> !Less(g.name, r[k].name)
    requires i < |r| ==> Less(g.name, r[i].name)
    ensures ByName(r[..i] + [g] + r[i..])
  {
    forall j | i <= j < |r| ensures !Less(r[j].name, g.name) {
      LessTotal(g.name, r[j].name);
      LessTotal(r[i].name, r[j].name);
      if j > i && r[i].name != r[j].name {
        LessTransitive(g.name, r[i].name, r[j].name);
      }
    }
  }

  method MergeAttributes(a: Agent) returns (attrs: map<string, string>)
    ensures attrs == Attributes(a)
  {
    attrs := map[];
    var rest := a.identifying.Keys;
    while rest != {}
      invariant rest <= a.identifying.Keys && attrs == map k | k in a.identifying.Keys - rest :: a.identifying[k]
      decreases rest
    {
      var k :| k in rest;
      attrs, rest := attrs[k := a.identifying[k]], rest - {k};
    }
    assert attrs == a.identifying;
    rest := a.nonIdentifying.Keys;
    while rest != {}
      invariant rest <= a.nonIdentifying.Keys
      invariant attrs == a.identifying + map k | k in a.nonIdentifying.Keys - rest :: a.nonIdentifying[k]
      decreases rest
    {
      var k :| k in rest;
      attrs, rest := attrs[k := a.nonIdentifying[k]], rest - {k};
    }
    assert (map k | k in a.nonIdentifying.Keys - rest :: a.nonIdentifying[k]) == a.nonIdentifying;
  }

  /** resolveGroup: the first match in the sorted list is the least claimant. */
  method ResolveGroup(cat: Catalog, a: Agent) returns (name: string)
    ensures Governs(name, cat, a)
  {
    if a.assignment.Some? && a.assignment.value != "" {
      return a.assignment.value;
    }
    if cat.groups.None? {
      return cat.defaultGroup;
    }
    var attrs := MergeAttributes(a);
    var groups := SortGroups(cat.groups.value);
    SameElements(groups, cat.groups.value);
    ghost var c := Claimants(cat.defaultGroup, cat.groups.value, a);
    var i := 0;
    while i < |groups|
      invariant 0 <= i <= |groups|
      invariant forall k :: 0 <= k < i ==> !Candidate(cat.defaultGroup, groups[k], a)
    {
      var g := groups[i];
      if g.name != cat.defaultGroup && g.selector != map[] {
        if SelectorMatches(g.selector, attrs) {
          FirstIsLeast(cat.defaultGroup, groups, a, i);
          assert c == Claimants(cat.defaultGroup, groups, a);
          return g.name;
        }
      }
      i := i + 1;
    }
    assert c == Claimants(cat.defaultGroup, groups, a) == {};
    name := cat.defaultGroup;
  }

  lemma SameElements<T>(xs: seq<T>, ys: seq<T>)
    requires multiset(xs) == multiset(ys)
    ensures forall x :: x in xs <==> x in ys
  {
    assert forall x :: x in xs <==> x in multiset(xs);
    assert forall x :: x in ys <==> x in multiset(ys);
  }

  lemma FirstIsLeast(defaultGroup: string, groups: seq<Group>, a: Agent, i: nat)
    requires ByName(groups) && i < |groups| && Candidate(defaultGroup, groups[i], a)
    requires forall k :: 0 <= k < i ==> !Candidate(defaultGroup, groups[k], a)
    ensures IsLeast(groups[i].name, Claimants(defaultGroup, groups, a))
  {
    assert groups[i] in groups;
    forall y | y in Claimants(defaultGroup, groups, a) ensures groups[i].name == y || Less(groups[i].name, y) {
      var g :| g in groups && Candidate(defaultGroup, g, a) && g.name == y;
      var j :| 0 <= j < |groups| && groups[j] == g;
      LessTotal(groups[i].name, y);
    }
  }

  // ---------------------------------------------------------------- packages

  datatype PackageAvailable = PackageAvailable(kind: int, version: string, url: string, hash: string)

  datatype PackagesAvailable = PackagesAvailable(packages: map<string, PackageAvailable>, allHash: string)

  ghost function DigestsOf(ps: seq<Package>): Digests
    requires DistinctNames(ps)
  {
    if ps == [] then map[] else DigestsOf(ps[..|ps| - 1])[ps[|ps| - 1].name := ps[|ps| - 1].contentHash]
  }

  function PackageUrl(base: string, name: string): string {
    base + "/api/v1/packages/" + name + "/content"
  }

  function Available(base: string, p: Package): PackageAvailable {
    PackageAvailable(p.kind, p.version, PackageUrl(base, p.name), p.contentHash)
  }

  /** Each package under its name, and nothing else. */
  ghost predicate Collected(base: string, ps: seq<Package>, packages: map<string, PackageAvailable>) {
    && (forall p :: p in ps ==> p.name in packages && packages[p.name] == Available(base, p))
    && (forall n :: n in packages ==> exists p :: p in ps && p.name == n)
  }

  /** The offer holds exactly the assigned packages, with the hash of all of them. */
  ghost predicate OffersPackages(hash: Hash, base: string, ps: seq<Package>, pa: PackagesAvailable) {
    && Collected(base, ps, pa.packages)
    && (DistinctNames(ps) ==> pa.allHash == hash(EncodePackages(DigestsOf(ps))))
  }

  lemma CollectedStep(base: string, ps: seq<Package>, n: nat, packages: map<string, PackageAvailable>)
    requires DistinctNames(ps) && n < |ps| && Collected(base, ps[..n], packages)
    ensures Collected(base, ps[..n + 1], packages[ps[n].name := Available(base, ps[n])])
  {
    hide Available;
    var q := ps[n];
    var more := packages[q.name := Available(base, q)];
    assert ps[..n + 1] == ps[..n] + [q];
    NewName(ps, n, ps[..n]);
    forall p | p in ps[..n + 1] ensures p.name in more && more[p.name] == Available(base, p) {
      if p in ps[..n] {
        var k :| 0 <= k < n && ps[..n][k] == p;
      }
    }
    forall m | m in more ensures exists p :: p in ps[..n + 1] && p.name == m {
      if m == q.name {
        assert q in ps[..n + 1];
      } else {
        var p :| p in ps[..n] && p.name == m;
        assert p in ps[..n + 1];
      }
    }
  }

  lemma SameCollected(base: string, ps: seq<Package>, qs: seq<Package>, packages: map<string, PackageAvailable>)
    requires Collected(base, ps, packages) && forall p :: p in ps <==> p in qs
    ensures Collected(base, qs, packages)
  {
    forall n | n in packages ensures exists p :: p in qs && p.name == n {
      var p :| p in ps && p.name == n;
      assert p in qs;
    }
  }

  lemma {:induction false} DigestsAre(ps: seq<Package>)
    requires DistinctNames(ps)
    ensures forall p :: p in ps ==> p.name in DigestsOf(ps) && DigestsOf(ps)[p.name] == p.contentHash
    ensures forall n :: n in DigestsOf(ps) ==> exists p :: p in ps && p.name == n
  {
    if ps != [] {
      var last := |ps| - 1;
      var init, q := ps[..last], ps[last];
      DigestsAre(init);
      NewName(ps, last, init);
      assert ps == init + [q];
      var some, all := DigestsOf(init), DigestsOf(ps);
      assert all == some[q.name := q.contentHash];
      DigestsOneMore(init, q, ps, some, all);
    }
  }

  lemma DigestsOneMore(init: seq<Package>, q: Package, ps: seq<Package>, some: Digests, all: Digests)
    requires ps == init + [q] && all == some[q.name := q.contentHash]
    requires forall p :: p in init ==> p.name != q.name && p.name in some && some[p.name] == p.contentHash
    requires forall n :: n in some ==> exists p :: p in init && p.name == n
    ensures forall p :: p in ps ==> p.name in all && all[p.name] == p.contentHash
    ensures forall n :: n in all ==> exists p :: p in ps && p.name == n
  {
    forall n | n in all ensures exists p :: p in ps && p.name == n {
      if n == q.name {
        assert q in ps;
      } else {
        var p :| p in init && p.name == n;
        assert p in ps;
      }
    }
  }

  /** Two offers of the same packages, listed in any order, are the same offer. */
  lemma OfferedPackagesUnique(hash: Hash, base: string, ps: seq<Package>, qs: seq<Package>, x: PackagesAvailable,
      y: PackagesAvailable)
    requires DistinctNames(ps) && DistinctNames(qs) && multiset(ps) == multiset(qs)
    requires OffersPackages(hash, base, ps, x) && OffersPackages(hash, base, qs, y)
    ensures x == y
  {
    SameElements(ps, qs);
    SamePackageMaps(base, ps, qs, x.packages, y.packages);
    SameDigests(ps, qs);
  }

  lemma SamePackageMaps(base: string, ps: seq<Package>, qs: seq<Package>, x: map<string, PackageAvailable>,
      y: map<string, PackageAvailable>)
    requires forall p :: p in ps <==> p in qs
    requires forall p :: p in ps ==> p.name in x && x[p.name] == Available(base, p)
    requires forall p :: p in qs ==> p.name in y && y[p.name] == Available(base, p)
    requires forall n :: n in x ==> exists p :: p in ps && p.name == n
    requires forall n :: n in y ==> exists p :: p in qs && p.name == n
    ensures x == y
  {
    forall n | n in x ensures n in y && y[n] == x[n] {
      var p :| p in ps && p.name == n;
      assert p in qs;
    }
    forall n | n in y ensures n in x {
      var p :| p in qs && p.name == n;
      assert p in ps;
    }
  }

  lemma SameDigests(ps: seq<Package>, qs: seq<Package>)
    requires DistinctNames(ps) && DistinctNames(qs) && forall p :: p in ps <==> p in qs
    ensures DigestsOf(ps) == DigestsOf(qs)
  {
    DigestsAre(ps);
    DigestsAre(qs);
    var x, y := DigestsOf(ps), DigestsOf(qs);
    forall n | n in x ensures n in y && y[n] == x[n] {
      var p :| p in ps && p.name == n;
      assert p in qs;
    }
    forall n | n in y ensures n in x {
      var p :| p in qs && p.name == n;
      assert p in ps;
    }
  }

  ghost predicate Rising(ps: seq<Package>) {
    forall i, j :: 0 <= i < j < |ps| ==> Less(ps[i].name, ps[j].name)
  }

  /** sort.Slice by package name; names are distinct, so the sorted list is determined. */
  method SortPackages(ps: seq<Package>) returns (r: seq<Package>)
    requires DistinctNames(ps)
    ensures multiset(r) == multiset(ps) && DistinctNames(r) && Rising(r)
  {
    r := [];
    assert Rising(r);
    hide Less, DistinctNames, Rising;
    var n := 0;
    while n < |ps|
      invariant 0 <= n <= |ps| && multiset(r) == multiset(ps[..n]) && Rising(r)
    {
      var i := Slot(r, ps[n].name);
      Inserted(ps, n, r, i);
      r := r[..i] + [ps[n]] + r[i..];
      n := n + 1;
    }
    assert ps[..n] == ps;
    RisingDistinct(r);
  }

  /** The place before which a package of that name goes. */
  method Slot(r: seq<Package>, name: string) returns (i: nat)
    ensures i <= |r| && forall k :: 0 <= k < i ==> Less(r[k].name, name)
    ensures i < |r| ==> !Less(r[i].name, name)
  {
    i := 0;
    while i < |r| && Less(r[i].name, name)
      invariant 0 <= i <= |r|
      invariant forall k :: 0 <= k < i ==> Less(r[k].name, name)
    {
      i := i + 1;
    }
  }

  lemma Inserted(ps: seq<Package>, n: nat, r: seq<Package>, i: nat)
    requires DistinctNames(ps) && n < |ps| && i <= |r| && Rising(r) && multiset(r) == multiset(ps[..n])
    requires forall k :: 0 <= k < i ==> Less(r[k].name, ps[n].name)
    requires i < |r| ==> !Less(r[i].name, ps[n].name)
    ensures Rising(r[..i] + [ps[n]] + r[i..])
    ensures multiset(r[..i] + [ps[n]] + r[i..]) == multiset(ps[..n + 1])
  {
    hide *;
    SameElements(r, ps[..n]);
    NewName(ps, n, r);
    InsertRising(r, i, ps[n]);
    InsertBag(r, i, ps[n]);
    InsertBag(ps[..n], n, ps[n]);
    assert ps[..n + 1] == ps[..n][..n] + [ps[n]] + ps[..n][n..];
  }

  lemma InsertBag<T>(r: seq<T>, i: nat, x: T)
    requires i <= |r|
    ensures multiset(r[..i] + [x] + r[i..]) == multiset(r) + multiset{x}
  {
    assert r == r[..i] + r[i..];
  }

  lemma InsertRising(r: seq<Package>, i: nat, p: Package)
    requires Rising(r) && i <= |r| && forall k :: 0 <= k < |r| ==> r[k].name != p.name
    requires forall k :: 0 <= k < i ==> Less(r[k].name, p.name)
    requires i < |r| ==> !Less(r[i].name, p.name)
    ensures Rising(r[..i] + [p] + r[i..])
  {
    hide Less;
    forall k | i <= k < |r| ensures Less(p.name, r[k].name) {
      LessTotal(p.name, r[i].name);
      if i < k {
        LessTransitive(p.name, r[i].name, r[k].name);
      }
    }
  }

  lemma RisingDistinct(r: seq<Package>)
    requires Rising(r)
    ensures DistinctNames(r)
  {
    hide Less;
    forall i, j | 0 <= i < j < |r| ensures r[i].name != r[j].name {
      LessTotal(r[i].name, r[j].name);
    }
  }

  lemma NewName(ps: seq<Package>, n: nat, r: seq<Package>)
    requires DistinctNames(ps) && n < |ps| && forall p :: p in r <==> p in ps[..n]
    ensures forall k :: 0 <= k < |r| ==> r[k].name != ps[n].name
  {
    forall k | 0 <= k < |r| ensures r[k].name != ps[n].name {
      assert r[k] in ps[..n];
      var j :| 0 <= j < n && ps[j] == r[k];
    }
  }

  function NamesOf(ps: seq<Package>): seq<string> {
    seq(|ps|, i requires 0 <= i < |ps| => ps[i].name)
  }

  lemma SortedNamesAreListing(ps: seq<Package>, r: seq<Package>)
    requires DistinctNames(ps) && multiset(r) == multiset(ps) && Rising(r)
    ensures NamesOf(r) == Listing(DigestsOf(ps).Keys)
    ensures forall i :: 0 <= i < |r| ==> r[i].name in DigestsOf(ps) && DigestsOf(ps)[r[i].name] == r[i].contentHash
  {
    SameElements(r, ps);
    DigestsAre(ps);
    var names, ds := NamesOf(r), DigestsOf(ps);
    forall i | 0 <= i < |r| ensures r[i].name in ds && ds[r[i].name] == r[i].contentHash {
      assert r[i] in ps;
    }
    forall n ensures n in names <==> n in ds.Keys {
      if n in ds {
        var p :| p in ps && p.name == n;
        assert p in r;
        var i :| 0 <= i < |r| && r[i] == p;
        assert names[i] == n;
      }
    }
    assert Ascending(names);
    AscendingUnique(names, Listing(ds.Keys));
  }

  lemma PackageStreamStep(written: string, names: seq<string>, i: nat, ds: Digests)
    requires i < |names| && forall n :: n in names ==> n in ds
    ensures written + PackageStream(names[i..], ds) ==
      written + names[i] + [NUL] + ds[names[i]] + PackageStream(names[i + 1..], ds)
  {
    assert names[i..][1..] == names[i + 1..];
  }

  /** buildPackagesAvailable: the offer does not depend on the order of the list. */
  method BuildPackagesAvailable(hash: Hash, base: string, ps: seq<Package>) returns (pa: PackagesAvailable)
    requires DistinctNames(ps)
    ensures OffersPackages(hash, base, ps, pa)
  {
    hide PackageStream, Ascending, Listing, DigestsOf, EncodePackages, DistinctNames, Collected, Less;
    var sorted := SortPackages(ps);
    SameElements(sorted, ps);
    SortedNamesAreListing(ps, sorted);
    ghost var names, ds := NamesOf(sorted), DigestsOf(ps);
    assert |names| == |sorted| && forall k :: 0 <= k < |names| ==> names[k] == sorted[k].name;
    hide NamesOf;
    NoPackages(base, sorted);
    var packages: map<string, PackageAvailable> := map[];
    var written := "";
    var i := 0;
    StreamStarts(names, ds);
    while i < |sorted|
      invariant 0 <= i <= |sorted|
      invariant Collected(base, sorted[..i], packages)
      invariant written + PackageStream(names[i..], ds) == EncodePackages(ds)
    {
      var p := sorted[i];
      PackageStreamStep(written, names, i, ds);
      CollectedStep(base, sorted, i, packages);
      packages := packages[p.name := PackageAvailable(p.kind, p.version,
        base + "/api/v1/packages/" + p.name + "/content", p.contentHash)];
      written := written + p.name;
      written := written + [NUL];
      written := written + p.contentHash;
      i := i + 1;
    }
    assert sorted[..i] == sorted && names[i..] == [];
    EmptyPackageStream(written, ds);
    SameCollected(base, sorted, ps, packages);
    pa := PackagesAvailable(packages, hash(written));
  }

  lemma NoPackages(base: string, ps: seq<Package>)
    ensures Collected(base, ps[..0], map[])
  {
  }

  lemma StreamStarts(names: seq<string>, ds: Digests)
    requires names == Listing(ds.Keys)
    ensures "" + PackageStream(names[0..], ds) == EncodePackages(ds)
  {
    hide Listing, PackageStream;
    assert names[0..] == names;
  }

  lemma EmptyPackageStream(written: string, ds: Digests)
    ensures written + PackageStream([], ds) == written
  {
  }

  // ---------------------------------------------------------------- offers

  datatype RemoteConfig = RemoteConfig(config: Files, configHash: string)

  datatype Offer = Offer(uid: string, remoteConfig: Option<RemoteConfig>, packages: Option<PackagesAvailable>)

  /** The two hashes a message may report; a missing status reads as the empty hash. */
  datatype Message = Message(uid: string, configHash: Option<string>, packagesHash: Option<string>)

  function Reported(h: Option<string>): string {
    match h case Some(s) => s case None => ""
  }

  /** The config part of an unconditional offer; a group without files offers nothing. */
  function ConfigOffer(cat: Catalog, a: Agent, group: string): Option<RemoteConfig> {
    if a.acceptsConfig && group in cat.current && cat.current[group].files != map[]
    then Some(RemoteConfig(Offered(cat.current[group].files), cat.current[group].hash))
    else None
  }

  ghost predicate PackagesOffer(hash: Hash, base: string, cat: Catalog, a: Agent, group: string,
      o: Option<PackagesAvailable>) {
    if a.acceptsPackages && group in cat.packages && cat.packages[group] != []
    then o.Some? && OffersPackages(hash, base, cat.packages[group], o.value)
    else o.None?
  }

  ghost predicate IsPushOffer(hash: Hash, base: string, cat: Catalog, a: Agent, group: string, o: Offer) {
    o.uid == a.uid && o.remoteConfig == ConfigOffer(cat, a, group)
      && PackagesOffer(hash, base, cat, a, group, o.packages)
  }

  method BuildOfferForPush(hash: Hash, base: string, cat: Catalog, a: Agent, group: string) returns (o: Offer)
    requires cat.Valid()
    ensures IsPushOffer(hash, base, cat, a, group, o)
  {
    o := Offer(a.uid, None, None);
    if a.acceptsConfig && group in cat.current {
      var cv := cat.current[group];
      if cv.files != map[] {
        var cm := ModelFilesToConfigMap(cv.files);
        o := o.(remoteConfig := Some(RemoteConfig(cm, cv.hash)));
      }
    }
    if a.acceptsPackages && group in cat.packages {
      var ps := cat.packages[group];
      if ps != [] {
        var avail := BuildPackagesAvailable(hash, base, ps);
        o := o.(packages := Some(avail));
      }
    }
  }

  /** An offer without the parts whose hash the message already reports. */
  function Trimmed(o: Offer, msg: Message): Offer {
    Offer(msg.uid,
          if o.remoteConfig.Some? && o.remoteConfig.value.configHash == Reported(msg.configHash) then None
          else o.remoteConfig,
          if o.packages.Some? && o.packages.value.allHash == Reported(msg.packagesHash) then None else o.packages)
  }

  /** The push offer less exactly the parts the agent reports to have. */
  ghost predicate IsReply(hash: Hash, base: string, cat: Catalog, a: Agent, group: string, msg: Message, resp: Offer) {
    exists push :: IsPushOffer(hash, base, cat, a, group, push) && resp == Trimmed(push, msg)
  }

  /** buildServerToAgent. */
  method BuildServerToAgent(hash: Hash, base: string, cat: Catalog, a: Agent, group: string, msg: Message)
    returns (resp: Offer)
    requires cat.Valid()
    ensures IsReply(hash, base, cat, a, group, msg, resp)
  {
    ghost var push := Offer(a.uid, ConfigOffer(cat, a, group), None);
    resp := Offer(msg.uid, None, None);
    if a.acceptsConfig && group in cat.current {
      var cv := cat.current[group];
      if cv.files != map[] {
        var reported := Reported(msg.configHash);
        if cv.hash != reported {
          var cm := ModelFilesToConfigMap(cv.files);
          resp := resp.(remoteConfig := Some(RemoteConfig(cm, cv.hash)));
        }
      }
    }
    if a.acceptsPackages && group in cat.packages {
      var ps := cat.packages[group];
      if ps != [] {
        var avail := BuildPackagesAvailable(hash, base, ps);
        push := push.(packages := Some(avail));
        var reported := Reported(msg.packagesHash);
        if avail.allHash != reported {
          resp := resp.(packages := Some(avail));
        }
      }
    }
    assert IsPushOffer(hash, base, cat, a, group, push) && resp == Trimmed(push, msg);
  }

  /** Every push offer a catalog allows is the same one, so the reply is a function of catalog, agent and message. */
  lemma PushOfferUnique(hash: Hash, base: string, cat: Catalog, a: Agent, group: string, x: Offer, y: Offer)
    requires cat.Valid() && IsPushOffer(hash, base, cat, a, group, x) && IsPushOffer(hash, base, cat, a, group, y)
    ensures x == y
  {
    if x.packages.Some? {
      var ps := cat.packages[group];
      OfferedPackagesUnique(hash, base, ps, ps, x.packages.value, y.packages.value);
    }
  }

  // ---------------------------------------------------------------- pushing to a group

  datatype PushResult = Sent(offer: Offer) | NotConnected | Failed

  /** The connection registry during a push: connections found, and those whose send fails. */
  datatype Links = Links(connected: set<string>, alive: set<string>, broken: set<string>)

  method PushToAgent(hash: Hash, base: string, cat: Catalog, a: Agent, links: Links) returns (r: PushResult)
    requires cat.Valid()
    ensures a.uid !in links.alive ==> r.NotConnected?
    ensures a.uid in links.alive && a.uid in links.broken ==> r.Failed?
    ensures a.uid in links.alive && a.uid !in links.broken ==>
      r.Sent? && exists g :: Governs(g, cat, a) && IsPushOffer(hash, base, cat, a, g, r.offer)
  {
    if a.uid !in links.alive {
      return NotConnected;
    }
    var group := ResolveGroup(cat, a);
    var offer := BuildOfferForPush(hash, base, cat, a, group);
    if a.uid in links.broken {
      return Failed;
    }
    r := Sent(offer);
  }

  predicate Unique(agents: seq<Agent>) {
    forall i, j :: 0 <= i < j < |agents| ==> agents[i].uid != agents[j].uid
  }

  /** The connected agents that group g governs, i.e. whose next message would be answered from g. */
  ghost predicate Targeted(cat: Catalog, links: Links, group: string, a: Agent) {
    a.uid in links.connected && Governs(group, cat, a)
  }

  /** How one agent fares in a push: whether it is sent its offer, and whether it is counted. */
  ghost predicate Served(hash: Hash, base: string, cat: Catalog, links: Links, group: string,
                         a: Agent, sent: map<string, Offer>, counted: set<string>) {
    var reached := a.uid in links.alive && a.uid !in links.broken;
    && (a.uid in sent <==> Targeted(cat, links, group, a) && reached)
    && (a.uid in sent ==> IsPushOffer(hash, base, cat, a, group, sent[a.uid]))
    && (a.uid in counted <==> Targeted(cat, links, group, a) && !(a.uid in links.alive && a.uid in links.broken))
  }

  ghost function Uids(agents: seq<Agent>): set<string> {
    set a | a in agents :: a.uid
  }

  lemma NextUid(agents: seq<Agent>, i: nat)
    requires Unique(agents) && i < |agents|
    ensures agents[i].uid !in Uids(agents[..i])
    ensures Uids(agents[..i + 1]) == Uids(agents[..i]) + {agents[i].uid}
  {
    assert agents[..i + 1] == agents[..i] + [agents[i]];
    forall a | a in agents[..i] ensures a.uid != agents[i].uid {
      var k :| 0 <= k < i && agents[k] == a;
    }
  }

  /** The first i agents have been served, and nobody else. */
  ghost predicate ServedUpTo(hash: Hash, base: string, cat: Catalog, links: Links, group: string, agents: seq<Agent>,
                             i: nat, sent: map<string, Offer>, counted: set<string>)
    requires i <= |agents|
  {
    && (forall k :: 0 <= k < i ==> Served(hash, base, cat, links, group, agents[k], sent, counted))
    && sent.Keys <= Uids(agents[..i]) && counted <= Uids(agents[..i])
  }

  lemma StillServed(hash: Hash, base: string, cat: Catalog, links: Links, group: string, agents: seq<Agent>, i: nat,
                    sent: map<string, Offer>, sent': map<string, Offer>, counted: set<string>, counted': set<string>)
    requires Unique(agents) && i < |agents|
    requires ServedUpTo(hash, base, cat, links, group, agents, i, sent, counted)
    requires Served(hash, base, cat, links, group, agents[i], sent', counted')
    requires sent == sent' - {agents[i].uid} && counted == counted' - {agents[i].uid}
    ensures ServedUpTo(hash, base, cat, links, group, agents, i + 1, sent', counted')
  {
    hide IsPushOffer, Targeted, Uids;
    NextUid(agents, i);
    forall k | 0 <= k < i ensures Served(hash, base, cat, links, group, agents[k], sent', counted') {
      var u := agents[k].uid;
      assert u != agents[i].uid;
      assert u in sent <==> u in sent';
      assert u in sent ==> sent[u] == sent'[u];
      assert u in counted <==> u in counted';
    }
  }

  /** One round of the loop of PushGroup. */
  method PushOne(hash: Hash, base: string, cat: Catalog, a: Agent, links: Links, group: string,
                 sent: map<string, Offer>, ghost counted: set<string>)
    returns (sent': map<string, Offer>, ghost counted': set<string>, more: nat)
    requires cat.Valid() && a.uid !in sent && a.uid !in counted
    ensures Served(hash, base, cat, links, group, a, sent', counted')
    ensures sent == sent' - {a.uid} && counted == counted' - {a.uid}
    ensures more == |counted'| - |counted|
  {
    hide Governs, IsPushOffer;
    sent', counted', more := sent, counted, 0;
    if a.uid in links.connected {
      var resolved := ResolveGroup(cat, a);
      OneGroup(resolved, group, cat, a);
      if resolved == group {
        var r := PushToAgent(hash, base, cat, a, links);
        if r.Sent? {
          ghost var g :| Governs(g, cat, a) && IsPushOffer(hash, base, cat, a, g, r.offer);
          OneGroup(g, group, cat, a);
          sent' := sent[a.uid := r.offer];
        }
        if !r.Failed? {
          more := 1;
          counted' := counted + {a.uid};
        }
      }
    }
  }

  /** Main result: against a fixed store a push goes to exactly the connected agents that the group governs,
      and each gets that group's offer. The number reported also counts agents whose connection went away
      after the registry was read. */
  method PushGroup(hash: Hash, base: string, cat: Catalog, agents: seq<Agent>, links: Links, group: string)
    returns (n: nat, sent: map<string, Offer>, ghost counted: set<string>)
    requires cat.Valid() && Unique(agents)
    ensures forall a :: a in agents ==> Served(hash, base, cat, links, group, a, sent, counted)
    ensures n == |counted| && sent.Keys <= Uids(agents) && counted <= Uids(agents)
  {
    hide ServedUpTo, Served, Uids, Unique;
    n, sent, counted := 0, map[], {};
    NobodyServed(hash, base, cat, links, group, agents);
    var i := 0;
    while i < |agents|
      invariant 0 <= i <= |agents| && n == |counted|
      invariant ServedUpTo(hash, base, cat, links, group, agents, i, sent, counted)
    {
      NotYet(hash, base, cat, links, group, agents, i, sent, counted);
      var sent', more;
      ghost var counted';
      sent', counted', more := PushOne(hash, base, cat, agents[i], links, group, sent, counted);
      StillServed(hash, base, cat, links, group, agents, i, sent, sent', counted, counted');
      n, sent, counted := n + more, sent', counted';
      i := i + 1;
    }
    EverybodyServed(hash, base, cat, links, group, agents, sent, counted);
  }

  /** The number a push returns is that of the offers sent exactly if no targeted agent went away meanwhile; each
      one that did is counted without being sent anything. */
  lemma CountIsSentIff(hash: Hash, base: string, cat: Catalog, links: Links, group: string, agents: seq<Agent>,
                       sent: map<string, Offer>, counted: set<string>)
    requires forall a :: a in agents ==> Served(hash, base, cat, links, group, a, sent, counted)
    requires sent.Keys <= Uids(agents) && counted <= Uids(agents)
    ensures |counted| == |sent| <==> forall a :: a in agents && Targeted(cat, links, group, a) ==> a.uid in links.alive
    ensures forall a :: a in agents && Targeted(cat, links, group, a) && a.uid !in links.alive ==>
      a.uid in counted && a.uid !in sent
  {
    hide IsPushOffer, Targeted;
    forall u | u in sent ensures u in counted {
      assert u in Uids(agents);
    }
    assert counted == sent.Keys + (counted - sent.Keys);
    assert |sent| == |sent.Keys|;
    if |counted| == |sent| {
      assert counted - sent.Keys == {};
    }
    if forall a :: a in agents && Targeted(cat, links, group, a) ==> a.uid in links.alive {
      forall u | u in counted ensures u in sent {
        assert u in Uids(agents);
      }
      assert counted == sent.Keys;
    }
  }

  lemma NobodyServed(hash: Hash, base: string, cat: Catalog, links: Links, group: string, agents: seq<Agent>)
    ensures ServedUpTo(hash, base, cat, links, group, agents, 0, map[], {})
  {
  }

  lemma NotYet(hash: Hash, base: string, cat: Catalog, links: Links, group: string, agents: seq<Agent>, i: nat,
               sent: map<string, Offer>, counted: set<string>)
    requires Unique(agents) && i < |agents| && ServedUpTo(hash, base, cat, links, group, agents, i, sent, counted)
    ensures agents[i].uid !in sent && agents[i].uid !in counted
  {
    hide Uids;
    NextUid(agents, i);
  }

  lemma EverybodyServed(hash: Hash, base: string, cat: Catalog, links: Links, group: string, agents: seq<Agent>,
                        sent: map<string, Offer>, counted: set<string>)
    requires ServedUpTo(hash, base, cat, links, group, agents, |agents|, sent, counted)
    ensures forall a :: a in agents ==> Served(hash, base, cat, links, group, a, sent, counted)
    ensures sent.Keys <= Uids(agents) && counted <= Uids(agents)
  {
    hide Uids, Served;
    assert agents[..|agents|] == agents;
  }

  lemma OneGroup(x: string, y: string, cat: Catalog, a: Agent)
    requires Governs(x, cat, a)
    ensures Governs(y, cat, a) <==> x == y
  {
    if Governs(y, cat, a) {
      GoverningIsUnique(x, y, cat, cat, a);
    }
  }
}
