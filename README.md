# Service registry model

A Dafny model of the agent framework's service registry (`service-registry/app.py`).
The registry keeps two in-memory tables: one of agents and one of tools.
Each table maps a service id to its record.
Services register themselves, send heartbeats to stay alive, and are found by other services through list, get-by-id and discovery requests.
A list request first evicts every record whose last heartbeat is more than `SERVICE_EXPIRATION = 120` seconds old.

Layout:

- `services.dfy` (module `Services`): the record shapes. `ServiceBase` is the common header. `Service<X>` pairs it with the kind-specific fields, so `Agent = Service<AgentFields>` and `Tool = Service<ToolFields>`. The file also holds the opaque `Json` values, the `HttpError`/`Result` error path, and `Expired`/`Stamp`.
- `store.dfy` (module `Store`): a table as an insertion-ordered dictionary. `Table(ids, entries)` holds the key order and the key-to-record map. Four operations act on it: `Put` is register, `Evict` is the list handlers' eviction, `Lookup` is get, and `Touch` is heartbeat. `Valid()` is the table's invariant: each key appears once, the order lists exactly the stored keys, and each record is stored under its own id.
- `text.dfy` (module `Text`): lower-casing and the substring test used by the name filter.
- `discovery.dfy` (module `Discovery`): `ServiceQuery` and the discovery filters. `MatchAgents`/`MatchTools` are the order-preserving filters that specify discovery.
- `registry.dfy` (module `ServiceRegistry`): the class `Registry`. Its fields `agents` and `tools` are the two tables, and its methods are the nine handlers. The list handlers' loops are `CollectExpired` (the expired-id comprehension) and `PopAll` (the `pop` loop), combined in `EvictExpired`. The discovery loops are `CollectAgents` and `CollectTools`. Each method is proved against the pure `Store`/`Discovery` functions.
- `properties.dfy` (module `RegistryProperties`): lemmas about sequences of operations. They cover replacement, the expiry window, heartbeat after and before eviction, repeated eviction, and what discovery returns.

The clock is an `int` argument `now` to every handler that reads the time.

### Behaviour worth knowing

Each point below is what the handlers do as written. Each is stated by a contract or lemma:

- Get-by-id does not check expiry (`service-registry/app.py:101-112`). A record that has expired but has not yet been evicted by a list request is still returned (`RegistryProperties.ExpiredRevivedBeforeEviction`).
- Discovery neither evicts nor checks expiry (`:115-142`). A stored, expired record that passes the filters is returned (`RegistryProperties.DiscoverSeesExpiredTool`).
- Heartbeat checks only that the key is present (`:147`, `:155`). A heartbeat revives an expired record that has not yet been evicted (`RegistryProperties.ExpiredRevivedBeforeEviction`). Once a list has evicted the record, its heartbeat fails with 404 (`RegistryProperties.NoResurrectionAfterEviction`).
- `tool_type` filters only the tool half of a discovery. A query that sets only `tool_type` therefore returns every agent (`RegistryProperties.ToolTypeQueryReturnsAllAgents`).
- Expiry is strict (`:78`). A record whose last heartbeat is exactly 120 seconds old survives a list; one second later it is evicted (`RegistryProperties.ExpiryWindow`).

## Model

| member | source | states |
|---|---|---|
| `Services.Stamp` | service-registry/app.py:58-59 | the stored record's `last_seen` is now, so it is not expired at now; every other field, the id included, is the submitted one |
| `Store.Table.Put` | service-registry/app.py:60 | `agents[agent.id] = agent`: afterwards the key holds exactly the new record; every other key keeps its record; the keys are the old keys plus the id; the table invariant is kept |
| `Store.Table.Drop` | service-registry/app.py:80-81 | popping a set of keys (absent keys ignored) removes exactly those keys, keeps the other records unchanged, and keeps the invariant |
| `Store.Table.ExpiredKeysGrow` | service-registry/app.py:78 | expiry only grows with time: a key expired at one time is still expired at any later time, and only stored keys expire |
| `Store.Table.Evict` | service-registry/app.py:74-81 | after eviction a key remains iff it was stored and `now - last_seen <= 120` (strict `>` evicts); remaining records are unchanged |
| `Store.Table.Lookup` | service-registry/app.py:103-105 | succeeds iff the id is a key, returning the record stored under it (whose id is that id); otherwise a 404 with the given detail |
| `Store.Table.Touch` | service-registry/app.py:149 | heartbeat on a stored id: same keys and order, that record's `last_seen` becomes now, all its other fields and all other records unchanged |
| `Store.EmptyTable` | service-registry/app.py:11-12 | the initial table is valid and holds no records |
| `Store.DropIds` | service-registry/app.py:80-81 | the key order after popping keeps exactly the keys not popped |
| `Store.ExpiredIds` | service-registry/app.py:75-79 | the comprehension of expired ids contains exactly the listed ids whose records are expired |
| `Store.LiveOnly` | service-registry/app.py:78 | the records kept are exactly the unexpired ones of the input |
| `Store.DropTwice` | service-registry/app.py:80-81 | popping one set of keys and then another is popping their union |
| `Store.PopEachIsDrop` | service-registry/app.py:80-81 | popping a list of keys one at a time, in order, gives the same table as popping the set of them at once |
| `Store.ValuesAreStored` | service-registry/app.py:83 | `values()` lists every stored record and nothing else |
| `Store.EvictValues` | service-registry/app.py:80-83 | after eviction, `values()` is exactly the unexpired records of the old `values()`, in their old order |
| `Text.LowerChar` | service-registry/app.py:125 | the result is never an ASCII capital; capitals map to the matching lower-case letter, other characters are unchanged |
| `Text.Lower` | service-registry/app.py:125 | the result holds no ASCII capital; a string without capitals is returned unchanged |
| `Text.LowerIdempotent` | service-registry/app.py:125 | lower-casing twice is the same as lower-casing once |
| `Text.LowerEqualIff` | service-registry/app.py:135 | two strings are equal once lower-cased iff they have the same length and agree position by position up to ASCII case |
| `Text.ContainsIffOccurs` | service-registry/app.py:125 | the substring test holds iff the needle occurs at some index of the haystack |
| `Discovery.MatchAgents` | service-registry/app.py:123-129 | an agent is in the result iff it is in the input and passes the name and capability filters |
| `Discovery.MatchTools` | service-registry/app.py:131-137 | a tool is in the result iff it is in the input and passes the name and tool-type filters |
| `Discovery.MatchAgentsConcat` | service-registry/app.py:124-129 | filtering keeps relative order: the matches of a concatenation are the concatenation of the matches |
| `Discovery.MatchToolsConcat` | service-registry/app.py:132-137 | the same order preservation for tools |
| `Discovery.EmptyQueryMatchesAll` | service-registry/app.py:123-137 | the empty query selects both halves and every agent and tool passes its filters |
| `Discovery.EmptyQueryKeepsAgents` | service-registry/app.py:123-129 | the empty query returns every agent, in order |
| `Discovery.EmptyQueryKeepsTools` | service-registry/app.py:131-137 | the empty query returns every tool, in order |
| `Discovery.CapabilitiesConjunctive` | service-registry/app.py:127 | with a capability filter, an agent missing any requested capability is rejected and one offering all of them passes |
| `Discovery.ToolTypeIgnoresCase` | service-registry/app.py:135 | a given tool-type filter matches a stored type iff the two have the same length and agree position by position up to ASCII case |
| `Discovery.NameFilterIsSubstring` | service-registry/app.py:125 | a given name filter matches iff the lower-cased filter occurs in the lower-cased name |
| `ServiceRegistry.CollectExpired` | service-registry/app.py:75-79 | the loop yields the expired ids in iteration order; an id is in it iff it is stored and expired |
| `ServiceRegistry.PopAll` | service-registry/app.py:80-81 | the pop loop over the collected ids gives the table without all of them, the same as popping them one at a time in order |
| `ServiceRegistry.EvictExpired` | service-registry/app.py:74-81 | the two loops together compute exactly the evicted table |
| `ServiceRegistry.CollectAgents` | service-registry/app.py:124-129 | the loop-and-append over agents yields exactly the order-preserving filter |
| `ServiceRegistry.CollectTools` | service-registry/app.py:132-137 | the loop-and-append over tools yields exactly the order-preserving filter |
| `ServiceRegistry.Registry.constructor` | service-registry/app.py:11-12 | both tables start empty |
| `ServiceRegistry.Registry.RegisterAgent` | service-registry/app.py:57-61 | returns the submitted agent with `last_seen` = now; the agent table becomes the old one with that record put under its id; the tool table is unchanged |
| `ServiceRegistry.Registry.RegisterTool` | service-registry/app.py:64-68 | the same for tools; the agent table is unchanged |
| `ServiceRegistry.Registry.ListAgents` | service-registry/app.py:71-83 | the agent table becomes its evicted form; the result is its values in order, i.e. the old unexpired agents in their old order; tools unchanged |
| `ServiceRegistry.Registry.ListTools` | service-registry/app.py:86-98 | the same for tools; agents unchanged |
| `ServiceRegistry.Registry.GetAgent` | service-registry/app.py:101-105 | returns the stored agent iff the id is a key (expired or not), else 404 "Agent not found"; reads only |
| `ServiceRegistry.Registry.GetTool` | service-registry/app.py:108-112 | returns the stored tool iff the id is a key, else 404 "Tool not found"; reads only |
| `ServiceRegistry.Registry.Discover` | service-registry/app.py:115-142 | each half is empty unless `service_type` is absent or names it; an agent/tool is returned iff it is stored and passes its filters; results follow table order; nothing changes |
| `ServiceRegistry.Registry.AgentHeartbeat` | service-registry/app.py:145-150 | succeeds with "ok" iff the id is a key, and then only that agent's `last_seen` changes; otherwise 404 "Agent not found" and nothing changes; tools unchanged |
| `ServiceRegistry.Registry.ToolHeartbeat` | service-registry/app.py:153-158 | the same for tools |
| `RegistryProperties.PutTwice` | service-registry/app.py:60 | storing twice under one id equals storing the second record alone |
| `RegistryProperties.ReRegisterReplaces` | service-registry/app.py:57-68 | re-registering an id leaves exactly the second payload, stamped with the second time; no merge |
| `RegistryProperties.RegisterThenGet` | service-registry/app.py:57-61 | after registering, get returns the stamped record; get of any other id is unchanged |
| `RegistryProperties.PutValues` | service-registry/app.py:60 | a new id is listed last; a re-registered id keeps its position, with the new record in it |
| `RegistryProperties.ExpiryWindow` | service-registry/app.py:74-81 | a record registered at `seen` survives a list at `now` iff `now <= seen + 120` |
| `RegistryProperties.HeartbeatExpiryWindow` | service-registry/app.py:145-150 | a record heartbeated at `seen` survives a list at `now` iff `now <= seen + 120` |
| `RegistryProperties.HeartbeatIsReRegister` | service-registry/app.py:149 | a heartbeat equals re-registering the stored record unchanged |
| `RegistryProperties.NoResurrectionAfterEviction` | service-registry/app.py:145-150 | once a list evicted an expired record, get and heartbeat of its id fail with 404 |
| `RegistryProperties.ExpiredRevivedBeforeEviction` | service-registry/app.py:101-105 | an expired record not yet evicted is still returned by get, and a heartbeat makes the next list keep it |
| `RegistryProperties.EvictLater` | service-registry/app.py:71-83 | a list at a later time subsumes an earlier list's eviction |
| `RegistryProperties.EvictIdempotent` | service-registry/app.py:71-83 | a second list at the same time evicts nothing more |
| `RegistryProperties.ValuesCount` | service-registry/app.py:83 | a list returns one record per stored id |
| `RegistryProperties.LastSeenNeverDecreases` | service-registry/app.py:59 | with a clock that never runs backwards, register and heartbeat never lower any stored `last_seen` |
| `RegistryProperties.EmptyDiscoverAfterList` | service-registry/app.py:115-142 | the empty query right after lists at the same time returns exactly the listed agents and tools, as many as are stored |
| `RegistryProperties.DiscoverSeesExpiredTool` | service-registry/app.py:131-137 | discovery returns a stored, matching tool even when it is expired |
| `RegistryProperties.AgentsIgnoreToolType` | service-registry/app.py:123-129 | the tool-type filter has no effect on the agent half |
| `RegistryProperties.ToolsIgnoreCapabilities` | service-registry/app.py:131-137 | the capabilities filter has no effect on the tool half |
| `RegistryProperties.ToolTypeQueryReturnsAllAgents` | service-registry/app.py:123-129 | a query giving only a tool type returns every agent |

## Left out

- Id generation: the default `uuid4` factory (`service-registry/app.py:21`) is not modelled. The id is part of the submitted record.
- Request validation: the default values of the record fields (`health_endpoint = "/health"`, empty lists and dictionaries) are not modelled. Neither is rejecting malformed bodies. Records and queries arrive already validated. The constant `type` fields are represented by the record's Dafny type.
- Clock: `time.time()` is a float. The model takes the time as an `int` argument.
- JSON numbers inside `metadata`, `endpoints` and `schema` are kept as integers. The registry never reads these values.
- `Text.LowerChar`: models Python's `str.lower()` for ASCII only. Other characters are left unchanged, while Python's Unicode case mapping would change some of them.
- Concurrency: FastAPI may serve requests concurrently. The model runs the handlers one at a time.
- Aliasing: `register_agent` returns the same object it stores, and a later heartbeat mutates it. The model returns a value copy, so that later change is not visible through the returned record.
- The constant endpoints `/` and `/health` are not modelled. Neither is `HEALTH_CHECK_INTERVAL`, which the registry never uses.
- The example agent and example tool are not part of this model: their HTTP polling loops, LLM calls and expression evaluation. The same holds for the Streamlit frontend and the deployment test script.
