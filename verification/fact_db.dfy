/**
  The two tables every adapter of the fact store works on, and the
  get-or-create access to the `hosts` table that all three adapters share.

  `hosts(id, name)` is a map from name to id and `facts(host, fact, data)` a
  map from (host id, fact name) to data: a map holds at most one entry per
  key, which is the uniqueness the adapters rely on (their "exactly one row"
  test) but never enforce themselves. Ids come from a counter standing for
  the table's id sequence, so every inserted host gets a fresh, distinct id.
 */
module FactDb {
  import opened Outcomes

  /** Surrogate key of a host row, assigned by the database. */
  type HostId = nat

  /** Contents of the `data` column; the driver's serialisation is opaque. */
  type Value = string

  /** Key of a `facts` row: the owning host's id and the fact name. */
  type FactKey = (HostId, string)

  datatype Db = Db(hosts: map<string, HostId>, nextId: HostId, facts: map<FactKey, Value>)

  /** The schema invariants the adapters assume: ids are handed out by the
      counter (so they are below it and pairwise distinct) and every fact row
      belongs to a stored host. */
  ghost predicate Valid(db: Db) {
    && (forall n :: n in db.hosts ==> db.hosts[n] < db.nextId)
    && (forall n, m :: n in db.hosts && m in db.hosts && n != m ==> db.hosts[n] != db.hosts[m])
    && (forall k :: k in db.facts ==> k.0 in db.hosts.Values)
  }

  /** A freshly provisioned database: both tables empty, the id sequence at 1. */
  function Empty(): (db: Db)
    ensures Valid(db)
    ensures db.hosts == map[] && db.facts == map[]
  {
    Db(map[], 1, map[])
  }

  /** `SELECT id FROM hosts WHERE name = name` followed by `fetchone()`. */
  function SelectHostId(db: Db, name: string): Option<HostId> {
    if name in db.hosts then Some(db.hosts[name]) else None
  }

  /** `INSERT INTO hosts (name) VALUES (name)`: the sequence supplies the id. */
  function InsertHost(db: Db, name: string): Db {
    db.(hosts := db.hosts[name := db.nextId], nextId := db.nextId + 1)
  }

  /**
    get_host_id: return the id of the one row named `name`; otherwise insert
    the name and query again. All three adapters carry a copy of this code.
   */
  function GetHostId(db: Db, name: string): (r: (HostId, Db))
    ensures r.1.facts == db.facts
    ensures name in r.1.hosts && r.1.hosts[name] == r.0
    ensures r.1.hosts.Keys == db.hosts.Keys + {name}
    ensures forall n :: n in db.hosts ==> r.1.hosts[n] == db.hosts[n]
    ensures name in db.hosts ==> r.1 == db
    ensures name !in db.hosts && Valid(db) ==> r.0 !in db.hosts.Values && r.0 >= db.nextId
    ensures Valid(db) ==> Valid(r.1)
  {
    match SelectHostId(db, name)
    case Some(id) => (id, db)
    case None =>
      var d := InsertHost(db, name);
      match SelectHostId(d, name)
      case Some(id) => (id, d)
      case None => assert false; (db.nextId, d)
  }

  /** A second lookup of the same name returns the same id and adds no row. */
  lemma GetHostIdIdempotent(db: Db, name: string)
    ensures GetHostId(GetHostId(db, name).1, name) == GetHostId(db, name)
  {
  }

  /** Two distinct names, looked up one after the other, get distinct ids,
      and looking the first up again still returns its id. */
  lemma DistinctNamesDistinctIds(db: Db, a: string, b: string)
    requires Valid(db)
    requires a != b
    ensures var (ia, da) := GetHostId(db, a);
            var (ib, db2) := GetHostId(da, b);
            ia != ib && GetHostId(db2, a) == (ia, db2)
  {
    var (ia, da) := GetHostId(db, a);
    var (ib, db2) := GetHostId(da, b);
    assert a in db2.hosts && b in db2.hosts;
    assert Valid(db2);
  }

  /** Every fact row's host id was handed out before the counter's value. */
  lemma FactHostsBelowNextId(db: Db)
    requires Valid(db)
    ensures forall k :: k in db.facts ==> k.0 < db.nextId
  {
    forall k | k in db.facts
      ensures k.0 < db.nextId
    {
      var n :| n in db.hosts && db.hosts[n] == k.0;
    }
  }

  /** `SELECT data FROM facts WHERE host = id AND fact = fact` + `fetchone()`. */
  function SelectFact(db: Db, id: HostId, fact: string): Option<Value> {
    if (id, fact) in db.facts then Some(db.facts[(id, fact)]) else None
  }

  /** `UPDATE facts SET data = data WHERE host = id AND fact = fact`. */
  function UpdateFact(db: Db, id: HostId, fact: string, data: Value): Db {
    if (id, fact) in db.facts then db.(facts := db.facts[(id, fact) := data]) else db
  }

  /** `INSERT INTO facts (host, fact, data)`; the callers only insert after
      finding no row, so the (host, fact) uniqueness is kept. */
  function InsertFact(db: Db, id: HostId, fact: string, data: Value): Db
    requires (id, fact) !in db.facts
  {
    db.(facts := db.facts[(id, fact) := data])
  }

  /** `SELECT fact, data FROM facts WHERE host = id`, turned into a dict. */
  function HostFacts(db: Db, id: HostId): (m: map<string, Value>)
    ensures forall f :: f in m <==> (id, f) in db.facts
    ensures forall f :: f in m ==> m[f] == db.facts[(id, f)]
  {
    map k | k in db.facts && k.0 == id :: k.1 := db.facts[k]
  }
}
