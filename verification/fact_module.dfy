/**
  The command module `fdb_fact`: get, set or remove one fact of one host.
  Every operation first resolves the host name to an id (creating the host
  row if needed) and then touches at most the one (host, fact) row.
 */
module FactModule {
  import opened Outcomes
  import opened FactDb

  /** Why a query step raised: `fetchone()` found no row and was indexed,
      or the code referenced a name that is not defined. */
  datatype QueryError = NoSuchRow | UndefinedName(name: string)

  /** get_fact: the stored data of (host, fact); fails when there is no row,
      after the host row has been created. */
  function GetFact(db: Db, hostname: string, fact: string): (r: (Result<Value, QueryError>, Db))
    ensures r.1 == GetHostId(db, hostname).1
    ensures var id := GetHostId(db, hostname).0;
            && (r.0.Ok? <==> (id, fact) in db.facts)
            && (r.0.Ok? ==> r.0.value == db.facts[(id, fact)])
            && (r.0.Err? ==> r.0.error == NoSuchRow)
  {
    var (id, d) := GetHostId(db, hostname);
    match SelectFact(d, id, fact)
    case Some(v) => (Ok(v), d)
    case None => (Err(NoSuchRow), d)
  }

  /** set_fact: write `data` under (host, fact) and report whether the table
      changed. Only that one row is written; no other row is touched. */
  function SetFact(db: Db, hostname: string, fact: string, data: Value): (r: (bool, Db))
    ensures var (id, d) := GetHostId(db, hostname);
            && r.1.hosts == d.hosts && r.1.nextId == d.nextId
            && r.1.facts == db.facts[(id, fact) := data]
            && (r.0 <==> !((id, fact) in db.facts && db.facts[(id, fact)] == data))
    ensures !r.0 ==> r.1.facts == db.facts
    ensures Valid(db) ==> Valid(r.1)
  {
    var (id, d) := GetHostId(db, hostname);
    match SelectFact(d, id, fact)
    case Some(existing) =>
      if existing == data then (false, d)
      else (true, UpdateFact(d, id, fact, data))
    case None => (true, InsertFact(d, id, fact, data))
  }

  /** remove_fact as written: after resolving the host it executes the
      undefined `query`, so it always raises and never deletes a row. */
  function RemoveFact(db: Db, hostname: string, fact: string): (r: (Result<bool, QueryError>, Db))
    ensures r.0 == Err(UndefinedName("query"))
    ensures r.1 == GetHostId(db, hostname).1
    ensures r.1.facts == db.facts
  {
    var (_, d) := GetHostId(db, hostname);
    (Err(UndefinedName("query")), d)
  }

  /** The intended removal: delete the (host, fact) row and report whether
      exactly one row went away. */
  function DeleteFact(db: Db, hostname: string, fact: string): (r: (bool, Db))
    ensures var (id, d) := GetHostId(db, hostname);
            && r.1.hosts == d.hosts && r.1.nextId == d.nextId
            && (r.0 <==> (id, fact) in db.facts)
            && r.1.facts.Keys == db.facts.Keys - {(id, fact)}
            && (forall k :: k in r.1.facts ==> r.1.facts[k] == db.facts[k])
    ensures Valid(db) ==> Valid(r.1)
  {
    var (id, d) := GetHostId(db, hostname);
    if (id, fact) in d.facts then (true, d.(facts := d.facts - {(id, fact)}))
    else (false, d)
  }

  /** What the module reports to the runtime: `exit_json` with the changed
      flag and, for `get`, the fetched fact; or `fail_json` with the error. */
  datatype ModuleResult =
    | Exit(changed: bool, ansibleFacts: Option<map<string, Value>>)
    | Fail(error: QueryError)

  /** The `state` dispatch of `main`. The dispatch has no branch for a state
      other than remove, set and get: such a value runs no query and falls
      through to the final exit, unchanged. Argument validation, which would
      refuse such a value earlier, is not part of this model. */
  function RunModule(db: Db, hostname: string, fact: string, data: Value, state: string): (r: (ModuleResult, Db))
    ensures state == "set" ==>
              && r.0 == Exit(SetFact(db, hostname, fact, data).0, None)
              && r.1 == SetFact(db, hostname, fact, data).1
    ensures state == "get" ==>
              && r.1 == GetHostId(db, hostname).1
              && (GetFact(db, hostname, fact).0.Ok? ==>
                    r.0 == Exit(false, Some(map[fact := GetFact(db, hostname, fact).0.value])))
              && (GetFact(db, hostname, fact).0.Err? ==> r.0 == Fail(NoSuchRow))
    ensures state == "remove" ==> r.0.Fail? && r.1.facts == db.facts
    ensures state !in {"remove", "set", "get"} ==> r == (Exit(false, None), db)
    ensures r.0.Exit? && r.0.ansibleFacts.None? && state != "set" ==> !r.0.changed
    ensures Valid(db) ==> Valid(r.1)
  {
    if state == "remove" then
      var (res, d) := RemoveFact(db, hostname, fact);
      match res
      case Ok(changed) => (Exit(changed, None), d)
      case Err(e) => (Fail(e), d)
    else if state == "set" then
      var (changed, d) := SetFact(db, hostname, fact, data);
      (Exit(changed, None), d)
    else if state == "get" then
      var (res, d) := GetFact(db, hostname, fact);
      match res
      case Ok(v) => (Exit(false, Some(map[fact := v])), d)
      case Err(e) => (Fail(e), d)
    else
      (Exit(false, None), db)
  }

  /** Read after write: whatever `set_fact` wrote, `get_fact` returns. */
  lemma SetThenGet(db: Db, hostname: string, fact: string, data: Value)
    ensures GetFact(SetFact(db, hostname, fact, data).1, hostname, fact).0 == Ok(data)
  {
    var (id, d) := GetHostId(db, hostname);
    var d2 := SetFact(db, hostname, fact, data).1;
    assert hostname in d.hosts;
    assert GetHostId(d2, hostname).0 == id;
  }

  /** Setting the same data twice: the second call reports no change and
      leaves both tables as the first call left them. */
  lemma SetTwiceUnchanged(db: Db, hostname: string, fact: string, data: Value)
    ensures var d1 := SetFact(db, hostname, fact, data).1;
            SetFact(d1, hostname, fact, data) == (false, d1)
  {
    var (id, d) := GetHostId(db, hostname);
    var d1 := SetFact(db, hostname, fact, data).1;
    assert GetHostId(d1, hostname) == (id, d1);
  }

  /** Last write wins: overwriting with different data reports a change and
      a later read returns the new data. */
  lemma OverwriteReportsChange(db: Db, hostname: string, fact: string, v1: Value, v2: Value)
    requires v1 != v2
    ensures var d1 := SetFact(db, hostname, fact, v1).1;
            var (changed, d2) := SetFact(d1, hostname, fact, v2);
            changed && GetFact(d2, hostname, fact).0 == Ok(v2)
  {
    var (id, d) := GetHostId(db, hostname);
    var d1 := SetFact(db, hostname, fact, v1).1;
    assert GetHostId(d1, hostname) == (id, d1);
    SetThenGet(d1, hostname, fact, v2);
  }

  /** A host seen for the first time has no facts, so `get_fact` fails, yet
      the host row is created. Needs the schema invariant: without it a stale
      fact row could already carry the new id. */
  lemma GetFactOnNewHostFails(db: Db, hostname: string, fact: string)
    requires Valid(db)
    requires hostname !in db.hosts
    ensures GetFact(db, hostname, fact).0 == Err(NoSuchRow)
    ensures hostname in GetFact(db, hostname, fact).1.hosts
  {
    FactHostsBelowNextId(db);
  }

  /** remove_fact never deletes anything, whatever the tables hold. */
  lemma RemoveNeverDeletes(db: Db, hostname: string, fact: string, data: Value)
    ensures var d1 := SetFact(db, hostname, fact, data).1;
            var (res, d2) := RemoveFact(d1, hostname, fact);
            res.Err? && GetFact(d2, hostname, fact).0 == Ok(data)
  {
    var d1 := SetFact(db, hostname, fact, data).1;
    SetThenGet(db, hostname, fact, data);
    var (id, d) := GetHostId(d1, hostname);
    assert hostname in d1.hosts;
  }

  /** The intended removal: after deleting, a read fails and a second delete
      reports that nothing was removed. */
  lemma DeleteThenGetFails(db: Db, hostname: string, fact: string)
    ensures var d1 := DeleteFact(db, hostname, fact).1;
            && GetFact(d1, hostname, fact).0 == Err(NoSuchRow)
            && DeleteFact(d1, hostname, fact) == (false, d1)
  {
    var (id, d) := GetHostId(db, hostname);
    var d1 := DeleteFact(db, hostname, fact).1;
    assert GetHostId(d1, hostname) == (id, d1);
  }

  /** Host web01 with no facts: set, read back, set again, delete, then read
      again. */
  lemma Web01Scenario(db: Db)
    requires Valid(db)
    requires "web01" !in db.hosts
    ensures var (c1, d1) := SetFact(db, "web01", "os_family", "RedHat");
            var (c2, d2) := SetFact(d1, "web01", "os_family", "RedHat");
            var (removed, d3) := DeleteFact(d2, "web01", "os_family");
            && c1 && !c2 && removed
            && GetFact(d1, "web01", "os_family").0 == Ok("RedHat")
            && GetFact(d3, "web01", "os_family").0 == Err(NoSuchRow)
  {
    var (id, d) := GetHostId(db, "web01");
    FactHostsBelowNextId(db);
    var (c1, d1) := SetFact(db, "web01", "os_family", "RedHat");
    SetThenGet(db, "web01", "os_family", "RedHat");
    SetTwiceUnchanged(db, "web01", "os_family", "RedHat");
    var d2 := d1;
    assert GetHostId(d2, "web01") == (id, d2);
    DeleteThenGetFails(d2, "web01", "os_family");
  }
}
