# fdb host-fact store, modelled in Dafny

The repository stores per-host facts for an automation runtime in a
PostgreSQL database with two tables, `hosts(id, name)` and
`facts(host, fact, data)`. Three adapters each carry their own copy of the
same access pattern: resolve a host name to its id, creating the host row
when it is missing, and then read or write fact rows of that host.

- `library/fdb_fact.py` is a command module. It gets, sets or removes one
  fact and dispatches on its `state` argument.
- `cache_plugins/fdb.py` is a cache plugin. It keeps a process-local
  dictionary from host name to fact dictionary. On `set` it also persists
  the allow-listed facts, whose names are normalised by removing
  `ansible_`.
- `vars_plugins/fdb.py` is a vars plugin. It returns all stored facts of
  the inventory hosts it is given.

The model treats the database as immutable state:

- `hosts` is a `map<string, HostId>`.
- `nextId` is a counter standing for the id sequence.
- `facts` is a `map<(HostId, string), Value>`.

Every operation is a pure function from a state to a pair of its outcome
and the new state. Raised exceptions are `Err` outcomes.

The model states two assumptions the code depends on but does not enforce.
First, there is at most one row per host name and per (host, fact) pair.
The map representation makes this structural. Second, the database hands
out fresh, distinct ids. `FactDb.Valid` states both, together with the rule
that every fact row belongs to a stored host. Every writing operation is
proved to preserve `Valid`.

Files:

- `outcomes.dfy`: `Option` and `Result`.
- `fact_db.dfy`: the tables, the schema invariant, the get-or-create host
  lookup shared by all three adapters, and the row-level queries.
- `fact_module.dfy`: the command module.
- `cache_plugin.dfy`: the cache plugin.
- `vars_plugin.dfy`: the vars plugin.

The code is modelled as written, defects included:

- `remove_fact` always raises.
- `get_fact` on a missing fact raises when it indexes `None`, after the
  host row has been created.
- The cache plugin removes the first `ansible_` anywhere in a name, not
  only at its start.

`FactModule.RunModule` follows the shipped dispatch. `FactModule.DeleteFact`
is the corrected removal; see Findings.

Behaviour of the code worth noting:

- A lookup that matches more than one host row is not reported as an
  error. The code would insert another row instead. Under the uniqueness
  assumption this case cannot arise, so it is not representable.
- A missing fact is not a distinct not-found error. It is the generic
  query failure, modelled as `NoSuchRow`.
- The dispatch in `main` has no branch for a `state` other than remove,
  set or get. Such a value would fall through to the final exit with
  `changed = false`. The argument spec's choice list would refuse it first,
  and that check is outside the model (see `FactModule.RunModule` under
  "Left out").
- The vars plugin's `get_host_id` (vars_plugins/fdb.py:56-68) is the third
  copy of the lookup and is modelled by `FactDb.GetHostId`, as the cache
  plugin's copy is. Its `db` parameter is never read, so the model drops it.
- The allow-list is the fixed 24-name set in the cache plugin, not a
  configurable predicate.

## Model

| member | source | states |
|---|---|---|
| FactDb.GetHostId | library/fdb_fact.py:54-66 | returns the id stored for the name when its row exists, adding nothing; otherwise adds exactly that name with an id never used before; fact rows and other hosts' ids are untouched; the schema invariant is preserved |
| FactDb.GetHostIdIdempotent | cache_plugins/fdb.py:116-128 | a second lookup of the same name returns the same id and leaves the tables as the first left them |
| FactDb.DistinctNamesDistinctIds | library/fdb_fact.py:58-65 | two different names get different ids, and the first name still maps to its id after the second is inserted |
| FactDb.FactHostsBelowNextId | library/fdb_fact.py:115-118 | under the schema invariant every fact row's host id is one already handed out, so a freshly inserted host owns no facts |
| FactDb.HostFacts | vars_plugins/fdb.py:49-52 | the mapping built from the host's rows holds a fact name exactly when a row (id, name) exists, with that row's data |
| FactModule.GetFact | library/fdb_fact.py:94-99 | succeeds exactly when the (host id, fact) row exists, returning its data; otherwise fails with NoSuchRow; either way the host row is created first and nothing else changes |
| FactModule.SetFact | library/fdb_fact.py:101-119 | afterwards the facts table is the old one with only (id, fact) set to the data; changed is false exactly when that row already held equal data, and then the facts table is unchanged |
| FactModule.RemoveFact | library/fdb_fact.py:121-124 | always fails on the undefined name `query`; the facts table is unchanged and only the host row may have been added |
| FactModule.DeleteFact | library/fdb_fact.py:121-124 | corrected removal: reports true exactly when the row existed, removes only that row and keeps every other row's data |
| FactModule.RunModule | library/fdb_fact.py:166-187 | set reports exactly set_fact's flag and tables; get reports changed false with {fact: value} or fails when the row is missing; remove always fails with facts unchanged; any other state exits with changed false and touches nothing |
| FactModule.SetThenGet | library/fdb_fact.py:94-118 | after set_fact(h, f, d), get_fact(h, f) returns d |
| FactModule.SetTwiceUnchanged | library/fdb_fact.py:107-110 | repeating set_fact with the same data reports no change and leaves both tables as they were |
| FactModule.OverwriteReportsChange | library/fdb_fact.py:111-114 | overwriting with different data reports a change, and a read returns the new data |
| FactModule.GetFactOnNewHostFails | library/fdb_fact.py:94-99 | for a host name never stored, get_fact fails with NoSuchRow yet the host row is created |
| FactModule.RemoveNeverDeletes | library/fdb_fact.py:121-124 | after a fact is set, remove fails and the fact can still be read back unchanged |
| FactModule.DeleteThenGetFails | library/fdb_fact.py:121-124 | with the corrected removal, a read after delete fails and a second delete reports false and changes nothing |
| FactModule.Web01Scenario | library/fdb_fact.py:101-124 | new host web01: setting os_family reports a change and reads back, setting it again reports none, and the corrected delete removes it so a read fails |
| CachePlugin.FindFrom | cache_plugins/fdb.py:83 | finds the first index at or after the start where the marker occurs, or reports that it occurs nowhere there |
| CachePlugin.Normalise | cache_plugins/fdb.py:83 | a name without `ansible_` is returned unchanged, and only such a name is; otherwise exactly the first occurrence is cut out |
| CachePlugin.NormaliseStripsPrefix | cache_plugins/fdb.py:83 | `ansible_` + x normalises to x |
| CachePlugin.NormaliseNotOnlyPrefix | cache_plugins/fdb.py:83 | `my_ansible_fact` becomes `my_fact`, and `ansible_ansible_fqdn` loses only its first marker |
| CachePlugin.PersistedName | cache_plugins/fdb.py:83-84 | an attribute is persisted exactly when its normalised name is in the allow-list, and then under that name |
| CachePlugin.WriteAttrs | cache_plugins/fdb.py:82-91 | the loop adds no host row and deletes no fact row |
| CachePlugin.LastWritten | cache_plugins/fdb.py:82-91 | reference definition of the value stored for a name: the last allow-listed item with that normalised name; never an unlisted name |
| CachePlugin.WriteAttrsSpec | cache_plugins/fdb.py:82-91 | after the loop, (id, n) holds the last value written under n; every other row is present exactly when it was before, with the same data |
| CachePlugin.Set | cache_plugins/fdb.py:80-92 | adds the host row for the key (even when nothing passes the filter) and caches under the key |
| CachePlugin.SetPreservesValid | cache_plugins/fdb.py:81-91 | set keeps the schema invariant: every written row belongs to the host just resolved |
| CachePlugin.SetPersists | cache_plugins/fdb.py:81-91 | for the key's host id, each allow-listed name holds the last value given for it, inserted or updated without any equality check; all other rows, including other hosts', are unchanged |
| CachePlugin.SetIgnoresUnlisted | cache_plugins/fdb.py:84 | a row whose name is not in the allow-list is never created or altered by set |
| CachePlugin.SetCollisionLaterWins | cache_plugins/fdb.py:82-91 | of two attributes normalising to the same allowed name, the one iterated later is stored |
| CachePlugin.OsFamilyNamesCollide | cache_plugins/fdb.py:48 | `ansible_os_family` and `os_family` both normalise to the allow-listed `os_family` |
| CachePlugin.Get | cache_plugins/fdb.py:77-78 | returns the cached dictionary when the key is cached and None exactly when it is not |
| CachePlugin.SetThenGet | cache_plugins/fdb.py:78-92 | after set, get returns the full unfiltered value for the key and the same as before for every other key |
| CachePlugin.Contains | cache_plugins/fdb.py:97-98 | holds exactly when the key is in the cached dictionary, that is, exactly when get returns a value |
| CachePlugin.ContainsTracksSetDelete | cache_plugins/fdb.py:80-101 | contains holds for a key right after set, no longer holds after a successful delete of it, and is unchanged for every other key |
| CachePlugin.Keys | cache_plugins/fdb.py:94-98 | keys lists exactly the keys for which contains holds |
| CachePlugin.Delete | cache_plugins/fdb.py:100-101 | succeeds exactly when the key is cached, removing only that key and keeping the other entries and the database; otherwise raises KeyError for it |
| CachePlugin.Flush | cache_plugins/fdb.py:103-104 | leaves no cached key and does not touch the database |
| CachePlugin.Copy | cache_plugins/fdb.py:106-107 | the copy has exactly the cached keys with their cached values |
| CachePlugin.GetState | cache_plugins/fdb.py:109-110 | the state is the cached keys with their cached values |
| CachePlugin.SetState | cache_plugins/fdb.py:112-113 | afterwards the cached keys and values are exactly the given data, and the database is untouched |
| CachePlugin.StateRoundTrip | cache_plugins/fdb.py:106-113 | setting the state taken from an instance restores its dictionary exactly, and get agrees on every key |
| VarsPlugin.Entities | vars_plugins/fdb.py:31-32 | a non-list argument becomes a one-element list and a list is kept as is |
| VarsPlugin.CombineVars | vars_plugins/fdb.py:52 | the merged keys are the union, and the newer mapping's values override |
| VarsPlugin.Collect | vars_plugins/fdb.py:45-54 | the loop never alters fact rows, keeps existing ids, creates a host row for each host entity and no other, and preserves the schema invariant |
| VarsPlugin.GetVars | vars_plugins/fdb.py:30-54 | get_vars leaves fact rows unchanged and creates a host row for every host entity, even a name not stored before |
| VarsPlugin.NoHostsNoVars | vars_plugins/fdb.py:45-54 | when no entity is a host, the loop returns its accumulator and changes nothing |
| VarsPlugin.GetVarsNoHosts | vars_plugins/fdb.py:45-54 | with no host entity, get_vars returns the empty mapping and leaves the tables unchanged |
| VarsPlugin.SingleHostVars | vars_plugins/fdb.py:46-52 | for a single host, the result is exactly that host's fact-to-data rows |
| VarsPlugin.SingleHostNoForeignFacts | vars_plugins/fdb.py:49-52 | for a single host, a name is returned exactly when that host's id has a row for it, with that row's data, so other hosts' facts never appear |
| VarsPlugin.CollectSources | vars_plugins/fdb.py:46-52 | every returned variable comes from the accumulator or from a fact row of some host entity, with that row's data |
| VarsPlugin.CollectComplete | vars_plugins/fdb.py:46-52 | every fact row of every host entity yields a returned variable |
| VarsPlugin.GetVarsSources | vars_plugins/fdb.py:45-54 | a variable is returned exactly when some host entity has a row of that name, and its value is that of one such row |
| VarsPlugin.CollectIsGather | vars_plugins/fdb.py:46-52 | the loop's result equals the reference reading against the tables it leaves behind, so creating host rows does not change what is read |
| VarsPlugin.CollectNoInsert | vars_plugins/fdb.py:56-68 | when every host entity already has a row, the loop creates nothing |
| VarsPlugin.GetVarsIdempotent | vars_plugins/fdb.py:45-68 | reading the vars again returns the same variables and adds no host row |

## Left out

- Connection setup is left out as driver plumbing: psycopg2 connect, the autocommit and isolation choice, `pgutils.ensure_libs`, the literal SQL text and its `; commit;` suffixes. Queries are modelled by their effect on the tables.
- `get_config` in all three files is left out. It reads `/etc/ansible/fdb.cfg`, which is I/O.
- The AnsibleModule boundary is left out: argument parsing, choice validation of `state`, the message text of `fail_json`/`exit_json` and the connection-error branches. `RunModule` reports only changed, the `get` fact and failure.
- Check mode: the module declares `supports_check_mode=True` but never reads `module.check_mode`, so a check run still writes facts and host rows. The model has no check-mode flag and matches that.
- FactModule.RunModule: keeps the fall-through of `main` to its final exit for a `state` outside remove, set and get, as the code reads. The argument spec at library/fdb_fact.py:132 restricts `state` to those three choices, and its validation is not modelled. That validation would refuse any other value before the dispatch, including the declared default `present`, which is not among the choices. So a run without an explicit `state` fails during argument parsing and never reaches the final exit.
- FactModule.RunModule: does not carry the echoed `fact` and `db` fields of `exit_json`, because they repeat the inputs.
- Value serialisation is left out. `Value` is the text of the `data` column, compared by equality; what psycopg2 does to adapt Python objects is not modelled.
- Races between processes on get-or-create and on the read-then-write of facts are left out. The model is single-threaded.
- Host lookups matching more than one row cannot be represented. `hosts` is a map, which is the uniqueness assumption the code relies on.
- VarsPlugin.CombineVars: models only the default replace behaviour of `combine_vars`, a foreign function. Its configurable recursive merge is not modelled; it agrees with replace on flat text values.
- The unused `loader`, `path` and `cache` arguments of `get_vars` are left out. So is the commented-out group branch; groups contribute nothing.
- CachePlugin.Set: treats the fact dictionary as an immutable value. The plugin stores the caller's dict object itself, so a caller that mutates that dict in place after `set`, or mutates the dict that `get` returned, changes what later `get` calls return. `SetThenGet` holds only when no such mutation happens.
- CachePlugin.SetState: treats `data` as an immutable value. `__setstate__` stores the given dict object itself and `copy` is shallow, so mutating either dict in place changes what the cache returns. `StateRoundTrip` holds only when no such mutation happens.
- CachePlugin.SetState: models `__setstate__` as a call on an existing instance. An instance unpickled without `__init__` would lack its database cursor, and that is not modelled.
- CachePlugin.SetCollisionLaterWins: stated for two items. The general case over any item sequence is `WriteAttrsSpec` with `LastWritten`.

## Findings

| source | as written | input that shows it | evidently intended | confidence | as-written member | corrected member |
|---|---|---|---|---|---|---|
| library/fdb_fact.py:121-124 | after resolving the host, `remove_fact` executes the undefined name `query` with the undefined `db`, so it raises and never deletes | state remove, hostname web01, fact os_family, after that fact was set: the module fails and the fact is still stored | delete the (host id, fact) row and report whether exactly one row was removed | high; not executed | FactModule.RemoveNeverDeletes | FactModule.DeleteThenGetFails |
