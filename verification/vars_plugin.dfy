/**
  The `fdb` vars plugin: for each inventory host among the entities it is
  given, resolve the host's id (creating the row if needed) and merge all of
  that host's fact rows into the returned variables.
 */
module VarsPlugin {
  import opened FactDb

  /** An inventory entity: a host or a group, each with a name. */
  datatype Entity = HostEntity(name: string) | GroupEntity(name: string)

  /** The `entities` argument: a list, or a single entity. */
  datatype EntitiesArg = EntityList(items: seq<Entity>) | OneEntity(item: Entity)

  /** A non-list argument is treated as a one-element list. */
  function Entities(arg: EntitiesArg): (r: seq<Entity>)
    ensures arg.OneEntity? ==> r == [arg.item]
    ensures arg.EntityList? ==> r == arg.items
  {
    match arg
    case EntityList(items) => items
    case OneEntity(e) => [e]
  }

  /** combine_vars with the default replace behaviour: keys of `b` override. */
  function CombineVars(a: map<string, Value>, b: map<string, Value>): (r: map<string, Value>)
    ensures r.Keys == a.Keys + b.Keys
    ensures forall k :: k in b ==> r[k] == b[k]
    ensures forall k :: k in a && k !in b ==> r[k] == a[k]
  {
    a + b
  }

  /** The loop of get_vars over `es`, accumulating into `acc`. Facts are
      only read; host rows are created for every host entity, and ids of
      hosts already stored stay as they were. The plugin's own copy of
      get_host_id is the shared lookup `FactDb.GetHostId`; its database-name
      parameter is never read and is dropped. */
  function Collect(db: Db, es: seq<Entity>, acc: map<string, Value>): (r: (map<string, Value>, Db))
    ensures r.1.facts == db.facts
    ensures forall n :: n in db.hosts ==> n in r.1.hosts && r.1.hosts[n] == db.hosts[n]
    ensures forall i :: 0 <= i < |es| && es[i].HostEntity? ==> es[i].name in r.1.hosts
    ensures forall n :: n in r.1.hosts ==> n in db.hosts || exists i :: 0 <= i < |es| && es[i] == HostEntity(n)
    ensures acc.Keys <= r.0.Keys
    ensures Valid(db) ==> Valid(r.1)
    decreases |es|
  {
    if es == [] then (acc, db)
    else match es[0]
      case HostEntity(name) =>
        var (id, d) := FactDb.GetHostId(db, name);
        var r := Collect(d, es[1..], CombineVars(acc, HostFacts(d, id)));
        assert forall i :: 1 <= i < |es| ==> es[i] == es[1..][i - 1];
        r
      case GroupEntity(_) =>
        var r := Collect(db, es[1..], acc);
        assert forall i :: 1 <= i < |es| ==> es[i] == es[1..][i - 1];
        r
  }

  /** get_vars: the facts of every host among the entities, merged in order. */
  function GetVars(db: Db, arg: EntitiesArg): (r: (map<string, Value>, Db))
    ensures r.1.facts == db.facts
    ensures forall i :: 0 <= i < |Entities(arg)| && Entities(arg)[i].HostEntity? ==> Entities(arg)[i].name in r.1.hosts
    ensures Valid(db) ==> Valid(r.1)
  {
    Collect(db, Entities(arg), map[])
  }

  /** Without host entities nothing is read or created: the result is the
      accumulator and the tables are unchanged. */
  lemma {:induction false} NoHostsNoVars(db: Db, es: seq<Entity>, acc: map<string, Value>)
    requires forall i :: 0 <= i < |es| ==> es[i].GroupEntity?
    ensures Collect(db, es, acc) == (acc, db)
    decreases |es|
  {
    if es != [] {
      NoHostsNoVars(db, es[1..], acc);
    }
  }

  /** get_vars on entities holding no host returns the empty mapping. */
  lemma GetVarsNoHosts(db: Db, arg: EntitiesArg)
    requires forall e :: e in Entities(arg) ==> e.GroupEntity?
    ensures GetVars(db, arg) == (map[], db)
  {
    NoHostsNoVars(db, Entities(arg), map[]);
  }

  /** For a single host, the result is exactly that host's fact rows. */
  lemma SingleHostVars(db: Db, name: string)
    ensures var (id, d) := FactDb.GetHostId(db, name);
            GetVars(db, OneEntity(HostEntity(name))) == (HostFacts(d, id), d)
  {
    var (id, d) := FactDb.GetHostId(db, name);
    var es := [HostEntity(name)];
    assert Entities(OneEntity(HostEntity(name))) == es;
    assert es[1..] == [];
    var acc := CombineVars(map[], HostFacts(d, id));
    assert acc == HostFacts(d, id);
    assert Collect(d, [], acc) == (acc, d);
    assert Collect(db, es, map[]) == Collect(d, es[1..], acc);
  }

  /** Reading a single host yields `f -> v` exactly when the host's row for
      `f` holds `v`: no fact of another host appears. */
  lemma SingleHostNoForeignFacts(db: Db, name: string, f: string)
    ensures var (vars, d) := GetVars(db, OneEntity(HostEntity(name)));
            (f in vars <==> (d.hosts[name], f) in db.facts)
            && (f in vars ==> vars[f] == db.facts[(d.hosts[name], f)])
  {
    SingleHostVars(db, name);
  }

  /** `v` is the data of the row named `k` of some host entity of `es`,
      with host ids as `d` assigns them. */
  ghost predicate FromHostRow(es: seq<Entity>, d: Db, facts: map<FactKey, Value>, k: string, v: Value) {
    exists i :: 0 <= i < |es| && es[i].HostEntity? && es[i].name in d.hosts
      && (d.hosts[es[i].name], k) in facts && v == facts[(d.hosts[es[i].name], k)]
  }

  /** A row found among the later entities is found among all of them. */
  lemma FromHostRowTail(es: seq<Entity>, d: Db, facts: map<FactKey, Value>, k: string, v: Value)
    requires es != [] && FromHostRow(es[1..], d, facts, k, v)
    ensures FromHostRow(es, d, facts, k, v)
  {
    var i :| 0 <= i < |es[1..]| && es[1..][i].HostEntity? && es[1..][i].name in d.hosts
      && (d.hosts[es[1..][i].name], k) in facts && v == facts[(d.hosts[es[1..][i].name], k)];
    assert es[i + 1] == es[1..][i];
  }

  /** Every variable returned comes from the accumulator or from a fact row
      of one of the host entities, with the value of that row. */
  lemma {:induction false} CollectSources(db: Db, es: seq<Entity>, acc: map<string, Value>, k: string)
    ensures var r := Collect(db, es, acc);
            k in r.0 ==> (k in acc && r.0[k] == acc[k]) || FromHostRow(es, r.1, db.facts, k, r.0[k])
    decreases |es|
  {
    if es != [] {
      var r := Collect(db, es, acc);
      match es[0]
      case HostEntity(name) =>
        var (id, d1) := FactDb.GetHostId(db, name);
        var acc' := CombineVars(acc, HostFacts(d1, id));
        assert r == Collect(d1, es[1..], acc');
        CollectSources(d1, es[1..], acc', k);
        if k in r.0 && !FromHostRow(es[1..], r.1, db.facts, k, r.0[k]) && k in HostFacts(d1, id) {
          assert r.1.hosts[name] == id;
          assert es[0].HostEntity? && es[0].name in r.1.hosts;
          assert FromHostRow(es, r.1, db.facts, k, r.0[k]);
        } else if k in r.0 && FromHostRow(es[1..], r.1, db.facts, k, r.0[k]) {
          FromHostRowTail(es, r.1, db.facts, k, r.0[k]);
        }
      case GroupEntity(_) =>
        assert r == Collect(db, es[1..], acc);
        CollectSources(db, es[1..], acc, k);
        if k in r.0 && FromHostRow(es[1..], r.1, db.facts, k, r.0[k]) {
          FromHostRowTail(es, r.1, db.facts, k, r.0[k]);
        }
    }
  }

  /** Every fact row of every host entity is represented among the returned
      variables. */
  lemma {:induction false} CollectComplete(db: Db, es: seq<Entity>, acc: map<string, Value>, i: nat, k: string)
    requires i < |es| && es[i].HostEntity?
    ensures var (vars, d) := Collect(db, es, acc);
            (d.hosts[es[i].name], k) in db.facts ==> k in vars
    decreases |es|
  {
    var (vars, d) := Collect(db, es, acc);
    match es[0]
    case HostEntity(name) =>
      var (id, d1) := FactDb.GetHostId(db, name);
      var acc' := CombineVars(acc, HostFacts(d1, id));
      if i == 0 {
        assert d.hosts[name] == id;
        if (id, k) in db.facts { assert k in acc'; }
      } else {
        assert es[1..][i - 1] == es[i];
        CollectComplete(d1, es[1..], acc', i - 1, k);
      }
    case GroupEntity(_) =>
      assert i > 0;
      assert es[1..][i - 1] == es[i];
      CollectComplete(db, es[1..], acc, i - 1, k);
  }

  /** get_vars returns a variable exactly when some host entity has a fact
      row of that name, and its value is that of one such row. */
  lemma GetVarsSources(db: Db, arg: EntitiesArg, k: string)
    ensures var es := Entities(arg);
            var (vars, d) := GetVars(db, arg);
            && (k in vars ==> FromHostRow(es, d, db.facts, k, vars[k]))
            && (forall i :: 0 <= i < |es| && es[i].HostEntity? && (d.hosts[es[i].name], k) in db.facts ==> k in vars)
  {
    var es := Entities(arg);
    CollectSources(db, es, map[], k);
    forall i | 0 <= i < |es| && es[i].HostEntity?
      ensures var (vars, d) := GetVars(db, arg);
              (d.hosts[es[i].name], k) in db.facts ==> k in vars
    {
      CollectComplete(db, es, map[], i, k);
    }
  }

  /** Reference definition: the variables of the host entities of `es` read
      against fixed tables `d` in which every such host already has a row. */
  function Gather(d: Db, es: seq<Entity>, acc: map<string, Value>): map<string, Value>
    requires forall i :: 0 <= i < |es| && es[i].HostEntity? ==> es[i].name in d.hosts
    decreases |es|
  {
    if es == [] then acc
    else
      assert forall i :: 0 <= i < |es[1..]| ==> es[1..][i] == es[i + 1];
      match es[0]
      case HostEntity(name) => Gather(d, es[1..], CombineVars(acc, HostFacts(d, d.hosts[name])))
      case GroupEntity(_) => Gather(d, es[1..], acc)
  }

  /** The loop's variables are those read against the tables it leaves
      behind: creating host rows along the way does not alter what is read. */
  lemma {:induction false} CollectIsGather(db: Db, es: seq<Entity>, acc: map<string, Value>)
    ensures var (vars, d) := Collect(db, es, acc);
            vars == Gather(d, es, acc)
    decreases |es|
  {
    if es != [] {
      var d := Collect(db, es, acc).1;
      assert forall i :: 0 <= i < |es[1..]| ==> es[1..][i] == es[i + 1];
      match es[0]
      case HostEntity(name) =>
        var (id, d1) := FactDb.GetHostId(db, name);
        CollectIsGather(d1, es[1..], CombineVars(acc, HostFacts(d1, id)));
        assert d.hosts[name] == id;
        assert HostFacts(d, id) == HostFacts(d1, id);
      case GroupEntity(_) =>
        CollectIsGather(db, es[1..], acc);
    }
  }

  /** When every host entity already has a row, the loop creates nothing. */
  lemma {:induction false} CollectNoInsert(db: Db, es: seq<Entity>, acc: map<string, Value>)
    requires forall i :: 0 <= i < |es| && es[i].HostEntity? ==> es[i].name in db.hosts
    ensures Collect(db, es, acc).1 == db
    decreases |es|
  {
    if es != [] {
      assert forall i :: 0 <= i < |es[1..]| ==> es[1..][i] == es[i + 1];
      match es[0]
      case HostEntity(name) =>
        var (id, d1) := FactDb.GetHostId(db, name);
        assert d1 == db;
        CollectNoInsert(db, es[1..], CombineVars(acc, HostFacts(d1, id)));
      case GroupEntity(_) =>
        CollectNoInsert(db, es[1..], acc);
    }
  }

  /** Reading vars again on the tables a first read left behind returns the
      same variables and adds no host row. */
  lemma GetVarsIdempotent(db: Db, arg: EntitiesArg)
    ensures var (vars, d) := GetVars(db, arg);
            GetVars(d, arg) == (vars, d)
  {
    var es := Entities(arg);
    var (vars, d) := GetVars(db, arg);
    CollectIsGather(db, es, map[]);
    CollectNoInsert(d, es, map[]);
    CollectIsGather(d, es, map[]);
  }
}
