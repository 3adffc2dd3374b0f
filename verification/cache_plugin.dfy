/**
  The `fdb` cache plugin: a process-local dictionary from host name to that
  host's full fact dictionary, which on every `set` also persists the
  allow-listed facts of the host to the `facts` table.

  A fact dictionary is modelled as the sequence of its items in iteration
  order, since that order decides which of two colliding names is stored.
 */
module CachePlugin {
  import opened Outcomes
  import opened FactDb

  /** The marker `set` removes from attribute names. */
  const Marker: string := "ansible_"

  /** The fixed allow-list of persisted fact names (`cmdb_facts`). */
  const CmdbFacts: set<string> := {
    "all_ipv4_addresses", "architecture", "distribution",
    "distribution_major_version", "distribution_version", "fqdn",
    "hostname", "memfree_mb", "memtotal_mb", "os_family",
    "processor_cores", "processor_count", "product_name", "swapfree_mb",
    "swaptotal_mb", "system", "system_vendor", "virtualization_role",
    "virtualization_type", "MyFact", "is_db", "is_web", "db_type",
    "web_type"
  }

  /** A fact dictionary's items, in iteration order. */
  type Attrs = seq<(string, Value)>

  /** The plugin instance: its database connection and its `_cache`. */
  datatype Plugin = Plugin(db: Db, cache: map<string, Attrs>)

  /** `p` occurs in `s` starting at index `i`. */
  predicate OccursAt(s: string, p: string, i: nat) {
    i + |p| <= |s| && s[i..i + |p|] == p
  }

  /** The first index at or after `from` where `p` occurs in `s`. */
  function FindFrom(s: string, p: string, from: nat): (r: Option<nat>)
    requires from <= |s|
    ensures r.Some? ==> from <= r.value && OccursAt(s, p, r.value)
    ensures r.Some? ==> forall j: nat :: from <= j < r.value ==> !OccursAt(s, p, j)
    ensures r.None? ==> forall j: nat :: from <= j ==> !OccursAt(s, p, j)
    decreases |s| - from
  {
    if OccursAt(s, p, from) then Some(from)
    else if from == |s| then None
    else FindFrom(s, p, from + 1)
  }

  /** `a.replace('ansible_', '', 1)`: drop the first occurrence of the marker,
      wherever it stands in the name. */
  function Normalise(a: string): (r: string)
    ensures (forall j: nat :: !OccursAt(a, Marker, j)) <==> r == a
    ensures forall i: nat :: OccursAt(a, Marker, i) && (forall j: nat :: j < i ==> !OccursAt(a, Marker, j))
              ==> r == a[..i] + a[i + |Marker|..]
  {
    match FindFrom(a, Marker, 0)
    case None => a
    case Some(i) => a[..i] + a[i + |Marker|..]
  }

  /** A name starting with the marker loses exactly that prefix. */
  lemma NormaliseStripsPrefix(x: string)
    ensures Normalise(Marker + x) == x
  {
    assert OccursAt(Marker + x, Marker, 0);
    assert (Marker + x)[|Marker|..] == x;
  }

  /** The marker cannot start at a position holding another character. */
  lemma NotAtOtherChar(s: string, i: nat)
    requires i < |s| && s[i] != Marker[0]
    ensures !OccursAt(s, Marker, i)
  {
    if i + |Marker| <= |s| {
      assert s[i..i + |Marker|][0] == s[i];
    }
  }

  /** The marker is removed in the middle of a name too, and only once. */
  lemma NormaliseNotOnlyPrefix()
    ensures Normalise("my_ansible_fact") == "my_fact"
    ensures Normalise("ansible_ansible_fqdn") == "ansible_fqdn"
  {
    var s := "my_ansible_fact";
    NotAtOtherChar(s, 0);
    NotAtOtherChar(s, 1);
    NotAtOtherChar(s, 2);
    assert OccursAt(s, Marker, 3);
    assert s[..3] + s[11..] == "my_fact";
    var t := "ansible_ansible_fqdn";
    assert OccursAt(t, Marker, 0);
    assert t[8..] == "ansible_fqdn";
  }

  /** A name without the marker is persisted under itself. */
  lemma NormaliseOsFamily()
    ensures Normalise("os_family") == "os_family"
  {
    NotAtOtherChar("os_family", 0);
    NotAtOtherChar("os_family", 1);
  }

  /** The name under which an attribute is persisted, when the allow-list
      admits its normalised name. */
  function PersistedName(a: string): (r: Option<string>)
    ensures r.Some? <==> Normalise(a) in CmdbFacts
    ensures r.Some? ==> r.value == Normalise(a) && r.value in CmdbFacts
  {
    var n := Normalise(a);
    if n in CmdbFacts then Some(n) else None
  }

  /** One loop iteration of `set`: normalise, filter, then `SELECT host` and
      either UPDATE the existing row or INSERT a new one. */
  function WriteAttr(db: Db, id: HostId, attr: (string, Value)): Db {
    match PersistedName(attr.0)
    case None => db
    case Some(n) =>
      if (id, n) in db.facts then UpdateFact(db, id, n, attr.1)
      else InsertFact(db, id, n, attr.1)
  }

  /** The loop of `set` over the items of `value`, in order. */
  function WriteAttrs(db: Db, id: HostId, attrs: Attrs): (r: Db)
    ensures r.hosts == db.hosts && r.nextId == db.nextId
    ensures r.facts.Keys >= db.facts.Keys
    decreases |attrs|
  {
    if attrs == [] then db
    else WriteAttrs(WriteAttr(db, id, attrs[0]), id, attrs[1..])
  }

  /** Reference definition: the value of the last item of `attrs` persisted
      under the name `n`, if any. */
  function LastWritten(attrs: Attrs, n: string): (r: Option<Value>)
    ensures r.Some? ==> n in CmdbFacts
    decreases |attrs|
  {
    if attrs == [] then None
    else match LastWritten(attrs[1..], n)
      case Some(v) => Some(v)
      case None => if PersistedName(attrs[0].0) == Some(n) then Some(attrs[0].1) else None
  }

  /** What the loop leaves in the facts table: the row (id, n) holds the last
      value persisted under n; every other row is as before. */
  lemma {:induction false} WriteAttrsSpec(db: Db, id: HostId, attrs: Attrs, k: FactKey)
    ensures var r := WriteAttrs(db, id, attrs);
            && (k.0 == id && LastWritten(attrs, k.1).Some? ==>
                  k in r.facts && r.facts[k] == LastWritten(attrs, k.1).value)
            && (!(k.0 == id && LastWritten(attrs, k.1).Some?) ==>
                  (k in r.facts <==> k in db.facts) && (k in db.facts ==> r.facts[k] == db.facts[k]))
    decreases |attrs|
  {
    if attrs != [] {
      var d1 := WriteAttr(db, id, attrs[0]);
      WriteAttrsSpec(d1, id, attrs[1..], k);
    }
  }

  /** `set`: create the host row for `key`, persist the allow-listed items of
      `value` under their normalised names, and cache the full `value`. */
  function Set(p: Plugin, key: string, value: Attrs): (r: Plugin)
    ensures r.db.hosts.Keys == p.db.hosts.Keys + {key}
    ensures r.cache.Keys == p.cache.Keys + {key}
  {
    var (id, d) := GetHostId(p.db, key);
    Plugin(WriteAttrs(d, id, value), p.cache[key := value])
  }

  /** `set` keeps the schema invariants: every row it writes belongs to the
      host row it has just resolved. */
  lemma SetPreservesValid(p: Plugin, key: string, value: Attrs)
    requires Valid(p.db)
    ensures Valid(Set(p, key, value).db)
  {
    var (id, d) := GetHostId(p.db, key);
    var d' := Set(p, key, value).db;
    forall k | k in d'.facts
      ensures k.0 in d'.hosts.Values
    {
      WriteAttrsSpec(d, id, value, k);
      if k.0 == id { assert d'.hosts[key] == id; }
    }
  }

  /** The rows `set` leaves: for the host's id, each allow-listed name holds
      the last item persisted under it; every other row, including those of
      names the allow-list rejects and those of other hosts, is untouched. */
  lemma SetPersists(p: Plugin, key: string, value: Attrs, k: FactKey)
    ensures var r := Set(p, key, value);
            var id := r.db.hosts[key];
            && (k.0 == id && LastWritten(value, k.1).Some? ==>
                  k in r.db.facts && r.db.facts[k] == LastWritten(value, k.1).value)
            && (!(k.0 == id && LastWritten(value, k.1).Some?) ==>
                  (k in r.db.facts <==> k in p.db.facts)
                  && (k in p.db.facts ==> r.db.facts[k] == p.db.facts[k]))
  {
    var (id, d) := GetHostId(p.db, key);
    WriteAttrsSpec(d, id, value, k);
  }

  /** A name the allow-list rejects is never written by `set`. */
  lemma SetIgnoresUnlisted(p: Plugin, key: string, value: Attrs, id: HostId, n: string)
    requires n !in CmdbFacts
    ensures var r := Set(p, key, value);
            ((id, n) in r.db.facts <==> (id, n) in p.db.facts)
            && ((id, n) in p.db.facts ==> r.db.facts[(id, n)] == p.db.facts[(id, n)])
  {
    SetPersists(p, key, value, (id, n));
  }

  /** Two items normalising to the same allow-listed name: the one iterated
      later is the one stored. */
  lemma SetCollisionLaterWins(p: Plugin, key: string, a1: string, v1: Value, a2: string, v2: Value)
    requires Normalise(a1) == Normalise(a2)
    requires Normalise(a2) in CmdbFacts
    ensures var r := Set(p, key, [(a1, v1), (a2, v2)]);
            r.db.facts[(r.db.hosts[key], Normalise(a2))] == v2
  {
    var n := Normalise(a2);
    var value: Attrs := [(a1, v1), (a2, v2)];
    assert value[1..] == [(a2, v2)];
    assert value[1..][1..] == [];
    assert LastWritten(value[1..], n) == Some(v2);
    var r := Set(p, key, value);
    SetPersists(p, key, value, (r.db.hosts[key], n));
  }

  /** `ansible_os_family` and `os_family` collide on an allow-listed name, so
      `SetCollisionLaterWins` applies to them. */
  lemma OsFamilyNamesCollide()
    ensures Normalise("ansible_os_family") == Normalise("os_family") == "os_family"
    ensures "os_family" in CmdbFacts
  {
    NormaliseOsFamily();
    var t := "ansible_os_family";
    assert OccursAt(t, Marker, 0);
    assert t[8..] == "os_family";
  }

  /** `get`: the cached dictionary, or None for an absent key. */
  function Get(p: Plugin, key: string): (r: Option<Attrs>)
    ensures r.Some? <==> key in p.cache
    ensures r.Some? ==> r.value == p.cache[key]
  {
    if key in p.cache then Some(p.cache[key]) else None
  }

  /** `set` caches the full, unfiltered value under `key`, and every other
      cached entry stays as it was. */
  lemma SetThenGet(p: Plugin, key: string, value: Attrs, other: string)
    ensures Get(Set(p, key, value), key) == Some(value)
    ensures other != key ==> Get(Set(p, key, value), other) == Get(p, other)
  {
  }

  /** `contains`: membership in the dictionary. */
  function Contains(p: Plugin, key: string): (r: bool)
    ensures r <==> Get(p, key).Some?
  {
    key in p.cache
  }

  /** `contains` follows `set` and `delete`: it holds for a key just set, no
      longer holds after the key is deleted, and other keys are unaffected. */
  lemma ContainsTracksSetDelete(p: Plugin, key: string, value: Attrs, other: string)
    ensures Contains(Set(p, key, value), key)
    ensures Delete(p, key).Ok? ==> !Contains(Delete(p, key).value, key)
    ensures other != key ==> Contains(Set(p, key, value), other) == Contains(p, other)
    ensures other != key && Delete(p, key).Ok? ==> Contains(Delete(p, key).value, other) == Contains(p, other)
  {
  }

  /** `keys`: the cached keys. */
  function Keys(p: Plugin): (r: set<string>)
    ensures forall k :: k in r <==> Contains(p, k)
  {
    p.cache.Keys
  }

  /** Raised by `del` on an absent key. */
  datatype CacheError = KeyError(key: string)

  /** `delete`: remove `key`; raises KeyError when it is absent. */
  function Delete(p: Plugin, key: string): (r: Result<Plugin, CacheError>)
    ensures r.Ok? <==> Contains(p, key)
    ensures r.Err? ==> r.error == KeyError(key)
    ensures r.Ok? ==> && Keys(r.value) == Keys(p) - {key}
                      && r.value.db == p.db
                      && (forall k :: k in r.value.cache ==> r.value.cache[k] == p.cache[k])
  {
    if key in p.cache then Ok(p.(cache := p.cache - {key})) else Err(KeyError(key))
  }

  /** `flush`: empty the dictionary; the database is not touched. */
  function Flush(p: Plugin): (r: Plugin)
    ensures Keys(r) == {}
    ensures r.db == p.db
  {
    p.(cache := map[])
  }

  /** `copy`: a shallow copy of the dictionary. */
  function Copy(p: Plugin): (r: map<string, Attrs>)
    ensures forall k :: k in r <==> Contains(p, k)
    ensures forall k :: k in r ==> Get(p, k) == Some(r[k])
  {
    p.cache
  }

  /** `__getstate__`: the copy of the dictionary. */
  function GetState(p: Plugin): (r: map<string, Attrs>)
    ensures r.Keys == Keys(p)
    ensures forall k :: k in r ==> Get(p, k) == Some(r[k])
  {
    Copy(p)
  }

  /** `__setstate__`: replace the dictionary with `data`. */
  function SetState(p: Plugin, data: map<string, Attrs>): (r: Plugin)
    ensures Keys(r) == data.Keys
    ensures forall k :: k in data ==> Get(r, k) == Some(data[k])
    ensures r.db == p.db
  {
    p.(cache := data)
  }

  /** Restoring the state taken from `p` yields `p`'s dictionary again, on
      any instance. */
  lemma StateRoundTrip(p: Plugin, q: Plugin)
    ensures SetState(q, GetState(p)).cache == p.cache
    ensures forall k :: Get(SetState(q, GetState(p)), k) == Get(p, k)
  {
  }
}
