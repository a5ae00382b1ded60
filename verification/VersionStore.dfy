/** The tables of groups and of their config versions, refined to one version list a group. */
module VersionStore {
  import opened Text

  // internal/store/postgres.go, internal/store/migrations/0001_init.sql. Each call is one step; what comes of the two
  // statements of a rollback with other calls between them is said at the end.

  datatype GroupRow = GroupRow(description: string, selector: map<string, string>, current: nat)

  /** The unique key of config_versions. */
  datatype Key = Key(group: string, version: int)

  datatype Row = Row(files: map<string, (string, string)>, hash: string, note: string, createdBy: string)

  datatype Error = NotFound | DefaultGroup | ForeignKey

  const DEFAULT: string := "default"

  // ---------------------------------------------------------------- the abstract store

  /** versions[i] is version i + 1; current counts from 1, 0 stands for none. */
  datatype History = History(description: string, selector: map<string, string>, versions: seq<Row>, current: nat)

  type Model = map<string, History>

  datatype Op =
    | Upsert(group: string, description: string, selector: map<string, string>)
    | Delete(group: string)
    | Create(group: string, row: Row)
    | Rollback(group: string, version: int)

  function Upserted(m: Model, g: string, description: string, selector: map<string, string>): Model {
    if g in m then m[g := m[g].(description := description, selector := selector)]
    else m[g := History(description, selector, [], 0)]
  }

  function Deleted(m: Model, g: string): Model {
    if g == DEFAULT then m else m - {g}
  }

  function Created(m: Model, g: string, row: Row): Model {
    if g in m then m[g := m[g].(versions := m[g].versions + [row], current := |m[g].versions| + 1)] else m
  }

  function RolledBack(m: Model, g: string, v: int): Model {
    if g in m && 1 <= v <= |m[g].versions| then m[g := m[g].(current := v)] else m
  }

  function Step(m: Model, op: Op): Model {
    match op
    case Upsert(g, d, s) => Upserted(m, g, d, s)
    case Delete(g) => Deleted(m, g)
    case Create(g, row) => Created(m, g, row)
    case Rollback(g, v) => RolledBack(m, g, v)
  }

  function CurrentOf(m: Model, g: string): Option<Row> {
    if g in m && 1 <= m[g].current <= |m[g].versions| then Some(m[g].versions[m[g].current - 1]) else None
  }

  /** A group without versions has none current; otherwise one of them is. */
  ghost predicate Consistent(m: Model) {
    && DEFAULT in m
    && forall g :: g in m ==> m[g].current <= |m[g].versions| && (m[g].current == 0 <==> m[g].versions == [])
  }

  // ---------------------------------------------------------------- the tables

  /** The group's row and its version rows, which are exactly 1..n. */
  ghost predicate Agrees(groups: map<string, GroupRow>, versions: map<Key, Row>, m: Model, g: string) {
    && (g in groups <==> g in m)
    && (g in groups ==> groups[g] == GroupRow(m[g].description, m[g].selector, m[g].current))
    && (forall v: int :: Key(g, v) in versions <==> g in m && 1 <= v <= |m[g].versions|)
    && (forall v: int :: Key(g, v) in versions ==> versions[Key(g, v)] == m[g].versions[v - 1])
  }

  ghost predicate Refines(groups: map<string, GroupRow>, versions: map<Key, Row>, m: Model) {
    Consistent(m) && forall g :: Agrees(groups, versions, m, g)
  }

  /** What is said of a group depends on its own rows alone. */
  lemma OthersAgree(groups: map<string, GroupRow>, versions: map<Key, Row>, m: Model, groups': map<string, GroupRow>,
                    versions': map<Key, Row>, m': Model, g: string)
    requires forall h :: Agrees(groups, versions, m, h)
    requires groups - {g} == groups' - {g} && m - {g} == m' - {g}
    requires forall k: Key :: k.group != g ==>
      (k in versions <==> k in versions') && (k in versions ==> versions[k] == versions'[k])
    ensures forall h :: h != g ==> Agrees(groups', versions', m', h)
  {
    forall h | h != g ensures Agrees(groups', versions', m', h) {
      assert Agrees(groups, versions, m, h);
      assert h in groups <==> h in groups - {g};
      assert h in groups' <==> h in groups' - {g};
      assert h in m <==> h in m - {g};
      assert h in m' <==> h in m' - {g};
      assert h in groups ==> groups[h] == (groups - {g})[h] == (groups' - {g})[h];
      assert h in m ==> m[h] == (m - {g})[h] == (m' - {g})[h];
    }
  }

  lemma UpsertKeeps(groups: map<string, GroupRow>, versions: map<Key, Row>, m: Model, g: string, d: string,
      s: map<string, string>)
    requires Refines(groups, versions, m)
    ensures Refines(groups[g := GroupRow(d, s, if g in groups then groups[g].current else 0)], versions,
      Upserted(m, g, d, s))
  {
    var groups', t := groups[g := GroupRow(d, s, if g in groups then groups[g].current else 0)], Upserted(m, g, d, s);
    assert Agrees(groups, versions, m, g);
    assert Agrees(groups', versions, t, g);
    hide Agrees;
    OthersAgree(groups, versions, m, groups', versions, t, g);
  }

  lemma DeleteKeeps(groups: map<string, GroupRow>, versions: map<Key, Row>, m: Model, g: string)
    requires Refines(groups, versions, m) && g != DEFAULT
    ensures Refines(groups - {g}, map k | k in versions && k.group != g :: versions[k], Deleted(m, g))
  {
    var versions' := map k | k in versions && k.group != g :: versions[k];
    assert Agrees(groups - {g}, versions', m - {g}, g);
    hide Agrees;
    OthersAgree(groups, versions, m, groups - {g}, versions', m - {g}, g);
  }

  lemma CreateKeeps(groups: map<string, GroupRow>, versions: map<Key, Row>, m: Model, g: string, row: Row, n: nat)
    requires Refines(groups, versions, m) && g in m && n == |m[g].versions| + 1
    ensures g in groups
    ensures Refines(groups[g := groups[g].(current := n)], versions[Key(g, n) := row], Created(m, g, row))
  {
    assert Agrees(groups, versions, m, g);
    var groups', versions', t := groups[g := groups[g].(current := n)], versions[Key(g, n) := row], Created(m, g, row);
    assert Agrees(groups', versions', t, g);
    hide Agrees;
    OthersAgree(groups, versions, m, groups', versions', t, g);
  }

  lemma RollbackKeeps(groups: map<string, GroupRow>, versions: map<Key, Row>, m: Model, g: string, v: int)
    requires Refines(groups, versions, m) && g in m && 1 <= v <= |m[g].versions|
    ensures g in groups && Refines(groups[g := groups[g].(current := v)], versions, RolledBack(m, g, v))
  {
    assert Agrees(groups, versions, m, g);
    var groups', t := groups[g := groups[g].(current := v)], RolledBack(m, g, v);
    assert Agrees(groups', versions, t, g);
    hide Agrees;
    OthersAgree(groups, versions, m, groups', versions, t, g);
  }

  class Store {
    var groups: map<string, GroupRow>
    var versions: map<Key, Row>
    ghost var model: Model

    /** Main result: the versions of each group are exactly 1..n, the rows of no other group exist, and the
        tables hold the model's descriptions, selectors, rows and current versions. */
    ghost predicate Valid()
      reads this
    {
      Refines(groups, versions, model)
    }

    /** The schema with its one group. */
    constructor ()
      ensures Valid() && model == map["default" := History("Default group for all agents", map[], [], 0)]
    {
      groups := map[DEFAULT := GroupRow("Default group for all agents", map[], 0)];
      versions := map[];
      model := map[DEFAULT := History("Default group for all agents", map[], [], 0)];
    }

    method UpsertGroup(g: string, description: string, selector: map<string, string>)
      requires Valid()
      modifies this
      ensures Valid() && model == Step(old(model), Upsert(g, description, selector))
    {
      assert Agrees(groups, versions, model, g);
      hide Refines, Agrees;
      UpsertKeeps(groups, versions, model, g, description, selector);
      if g in groups {
        groups := groups[g := groups[g].(description := description, selector := selector)];
      } else {
        groups := groups[g := GroupRow(description, selector, 0)];
      }
      model := Step(model, Upsert(g, description, selector));
    }

    /** The rows of the group go with it. */
    method DeleteGroup(g: string) returns (e: Option<Error>)
      requires Valid()
      modifies this
      ensures Valid() && model == Step(old(model), Delete(g))
      ensures e == if g == DEFAULT then Some(DefaultGroup) else if g !in old(model) then Some(NotFound) else None
    {
      assert Agrees(groups, versions, model, g);
      if g == DEFAULT {
        return Some(DefaultGroup);
      }
      if g !in groups {
        assert model - {g} == model;
        return Some(NotFound);
      }
      DeleteKeeps(groups, versions, model, g);
      hide Refines, Agrees;
      groups := groups - {g};
      versions := map k | k in versions && k.group != g :: versions[k];
      model := Step(model, Delete(g));
      e := None;
    }

    /** SELECT MAX(version) of a group, 0 if it has none. */
    method MaxVersion(g: string) returns (max: nat)
      requires Valid()
      ensures max == if g in model then |model[g].versions| else 0
    {
      assert Agrees(groups, versions, model, g);
      max := 0;
      var rest := versions.Keys;
      while rest != {}
        invariant rest <= versions.Keys
        invariant max == 0 || Key(g, max) in versions
        invariant forall k :: k in versions && k !in rest && k.group == g ==> k.version <= max
        decreases rest
      {
        var k :| k in rest;
        if k.group == g && k.version > max {
          max := k.version;
        }
        rest := rest - {k};
      }
      if g in model && model[g].versions != [] {
        assert Key(g, |model[g].versions|) in versions;
      }
    }

    /** Without the group the insert violates the foreign key and the transaction is rolled back. */
    method CreateConfigVersion(g: string, row: Row) returns (r: Result<nat, Error>)
      requires Valid()
      modifies this
      ensures Valid() && model == Step(old(model), Create(g, row))
      ensures r == if g in old(model) then Ok(|old(model)[g].versions| + 1) else Err(ForeignKey)
    {
      assert Agrees(groups, versions, model, g);
      var max := MaxVersion(g);
      if g !in groups {
        return Err(ForeignKey);
      }
      CreateKeeps(groups, versions, model, g, row, max + 1);
      hide Refines, Agrees;
      versions := versions[Key(g, max + 1) := row];
      groups := groups[g := groups[g].(current := max + 1)];
      model := Step(model, Create(g, row));
      r := Ok(max + 1);
    }

    method SetCurrentConfigVersion(g: string, v: int) returns (e: Option<Error>)
      requires Valid()
      modifies this
      ensures Valid() && model == Step(old(model), Rollback(g, v))
      ensures e == if g in old(model) && 1 <= v <= |old(model)[g].versions| then None else Some(NotFound)
    {
      assert Agrees(groups, versions, model, g);
      if Key(g, v) !in versions {
        return Some(NotFound);
      }
      RollbackKeeps(groups, versions, model, g, v);
      hide Refines, Agrees;
      groups := groups[g := groups[g].(current := v)];
      model := Step(model, Rollback(g, v));
      e := None;
    }

    method GetCurrentConfig(g: string) returns (r: Result<Row, Error>)
      requires Valid()
      ensures r == match CurrentOf(model, g) case Some(row) => Ok(row) case None => Err(NotFound)
    {
      assert Agrees(groups, versions, model, g);
      if g !in groups || Key(g, groups[g].current) !in versions {
        return Err(NotFound);
      }
      r := Ok(versions[Key(g, groups[g].current)]);
    }
  }

  // ---------------------------------------------------------------- runs

  function After(m: Model, ops: seq<Op>): Model {
    if ops == [] then m else Step(After(m, ops[..|ops| - 1]), ops[|ops| - 1])
  }

  lemma {:induction false} AfterConcat(m: Model, a: seq<Op>, b: seq<Op>)
    ensures After(m, a + b) == After(After(m, a), b)
  {
    if b == [] {
      assert a + b == a;
    } else {
      var n := |b| - 1;
      AfterConcat(m, a, b[..n]);
      assert (a + b)[..|a + b| - 1] == a + b[..n];
    }
  }

  lemma {:induction false} ConsistentRun(m: Model, ops: seq<Op>)
    requires Consistent(m)
    ensures Consistent(After(m, ops))
  {
    if ops != [] {
      ConsistentRun(m, ops[..|ops| - 1]);
    }
  }

  ghost predicate NoDelete(ops: seq<Op>, g: string) {
    forall i :: 0 <= i < |ops| ==> ops[i] != Delete(g)
  }

  ghost predicate Untouched(ops: seq<Op>, g: string) {
    forall i :: 0 <= i < |ops| ==> ops[i].group != g || ops[i].Upsert?
  }

  /** While a group lives, what was created stays as it was, under its number. The default group lives for ever. */
  lemma {:induction false} VersionsGrow(m: Model, ops: seq<Op>, g: string)
    requires g in m && (g == DEFAULT || NoDelete(ops, g))
    ensures g in After(m, ops) && m[g].versions <= After(m, ops)[g].versions
  {
    if ops != [] {
      VersionsGrow(m, ops[..|ops| - 1], g);
    }
  }

  /** A group keeps its versions and its current one through whatever happens to others, and through upserts. */
  lemma {:induction false} UntouchedKeeps(m: Model, ops: seq<Op>, g: string)
    requires g in m && Untouched(ops, g)
    ensures g in After(m, ops) && After(m, ops)[g].versions == m[g].versions && After(m, ops)[g].current == m[g].current
  {
    if ops != [] {
      var n := |ops| - 1;
      assert ops[n].group != g || ops[n].Upsert?;
      UntouchedKeeps(m, ops[..n], g);
    }
  }

  /** Creating numbers on from the highest version, whatever is current. */
  lemma CreateAfterRollback(m: Model, g: string, v: nat, row: Row)
    requires Consistent(m) && g in m && 1 <= v <= |m[g].versions|
    ensures var t := After(m, [Rollback(g, v), Create(g, row)]);
      g in t && t[g].current == |m[g].versions| + 1 && CurrentOf(t, g) == Some(row)
        && t[g].versions == m[g].versions + [row]
  {
    var ops := [Rollback(g, v), Create(g, row)];
    assert ops[..1] == [Rollback(g, v)] && ops[..1][..0] == [];
    assert After(m, ops[..1]) == Step(m, Rollback(g, v));
  }

  /** Main result: in every run, rolling back to the number a create returned brings back exactly what it stored,
      however many versions, rollbacks and operations on other groups came between, and it stays current until
      the group is touched again. */
  lemma RollbackReturnsWhatWasCreated(m: Model, before: seq<Op>, row: Row, between: seq<Op>, after: seq<Op>, g: string)
    requires g in After(m, before) && NoDelete(between, g) && Untouched(after, g)
    ensures var v := |After(m, before)[g].versions| + 1;
      CurrentOf(After(m, before + [Create(g, row)] + between + [Rollback(g, v)] + after), g) == Some(row)
  {
    var m1 := After(m, before);
    var v := |m1[g].versions| + 1;
    var m2 := After(m1, [Create(g, row)]);
    assert [Create(g, row)][..0] == [] && After(m1, []) == m1;
    assert m2[g].versions[v - 1] == row;
    var m3 := After(m2, between);
    VersionsGrow(m2, between, g);
    var m4 := After(m3, [Rollback(g, v)]);
    assert [Rollback(g, v)][..0] == [] && After(m3, []) == m3;
    UntouchedKeeps(m4, after, g);
    AfterConcat(m, before, [Create(g, row)]);
    AfterConcat(m, before + [Create(g, row)], between);
    AfterConcat(m, before + [Create(g, row)] + between, [Rollback(g, v)]);
    AfterConcat(m, before + [Create(g, row)] + between + [Rollback(g, v)], after);
  }

  /** A group that is deleted and upserted again starts over at version 1. */
  lemma RecreatedStartsOver(m: Model, g: string, d: string, s: map<string, string>, row: Row)
    requires g != DEFAULT
    ensures var t := After(m, [Delete(g), Upsert(g, d, s), Create(g, row)]); g in t && t[g] == History(d, s, [row], 1)
  {
    var ops := [Delete(g), Upsert(g, d, s), Create(g, row)];
    assert ops[..2] == [Delete(g), Upsert(g, d, s)] && ops[..2][..1] == [Delete(g)] && ops[..2][..1][..0] == [];
    assert After(m, ops[..2][..1]) == Step(m, Delete(g));
    assert After(m, ops[..2]) == Step(Step(m, Delete(g)), Upsert(g, d, s));
  }

  // ---------------------------------------------------------------- the two statements of a rollback

  /** The UPDATE alone, after the query has found version v. */
  function CurrentSet(m: Model, g: string, v: nat): Model {
    if g in m then m[g := m[g].(current := v)] else m
  }

  /** With other calls between query and update, the rollback is the one of a single step, and leaves the store
      consistent, exactly when the version is there or its group is gone; so unless the group was deleted between. */
  lemma SplitRollbackIff(m: Model, between: seq<Op>, g: string, v: nat)
    requires Consistent(m) && g in m && 1 <= v <= |m[g].versions|
    ensures var t := After(m, between);
      && (CurrentSet(t, g, v) == RolledBack(t, g, v) <==> (g in t ==> v <= |t[g].versions|))
      && (Consistent(CurrentSet(t, g, v)) <==> (g in t ==> v <= |t[g].versions|))
    ensures g == DEFAULT || NoDelete(between, g) ==> g in After(m, between) && v <= |After(m, between)[g].versions|
  {
    ConsistentRun(m, between);
    var t := After(m, between);
    if g == DEFAULT || NoDelete(between, g) {
      VersionsGrow(m, between, g);
    }
    if g in t && v > |t[g].versions| {
      assert t[g].current != v && CurrentSet(t, g, v)[g].current == v;
      assert RolledBack(t, g, v) == t;
    }
  }

  /** A group that is deleted and made again between the two is left with a current version that it does not have, until
      its next one is created. */
  lemma RollbackIntoNothing(m: Model, g: string, v: nat, d: string, s: map<string, string>, row: Row)
    requires Consistent(m) && g in m && g != DEFAULT && 1 <= v <= |m[g].versions|
    ensures var t := CurrentSet(After(m, [Delete(g), Upsert(g, d, s)]), g, v);
      && t[g] == History(d, s, [], v) && CurrentOf(t, g) == None && !Consistent(t)
      && CurrentOf(Created(t, g, row), g) == Some(row)
  {
    var ops := [Delete(g), Upsert(g, d, s)];
    assert ops[..1] == [Delete(g)] && ops[..1][..0] == [];
    assert After(m, ops[..1]) == Step(m, Delete(g));
  }
}
