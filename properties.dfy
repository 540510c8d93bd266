/**
 * Properties that relate several registry operations: replacement on
 * re-registration, the expiry window, what heartbeats can and cannot
 * revive, repeated eviction, and what discovery sees of the tables.
 */
module RegistryProperties {
  import opened Services
  import opened Store
  import opened Discovery

  /** Storing twice under one id leaves exactly the second record, in the first one's place. */
  lemma PutTwice<X>(t: Table<X>, a: Service<X>, b: Service<X>)
    requires t.Valid() && a.base.id == b.base.id
    ensures t.Put(a).Put(b) == t.Put(b)
  {
    var id := b.base.id;
    assert t.entries[id := a][id := b] == t.entries[id := b];
    if id in t.entries {
      assert t.Put(a) == Table(t.ids, t.entries[id := a]);
    } else {
      assert t.Put(a) == Table(t.ids + [id], t.entries[id := a]);
    }
  }

  /** Registering twice under one id leaves exactly the second record: a replacement, not a merge. */
  lemma ReRegisterReplaces<X>(t: Table<X>, first: Service<X>, second: Service<X>, t1: int, t2: int)
    requires t.Valid() && first.base.id == second.base.id
    ensures t.Put(Stamp(first, t1)).Put(Stamp(second, t2)) == t.Put(Stamp(second, t2))
    ensures t.Put(Stamp(first, t1)).Put(Stamp(second, t2)).entries[second.base.id] == Stamp(second, t2)
  {
    PutTwice(t, Stamp(first, t1), Stamp(second, t2));
  }

  /** Right after registering, a lookup of the id returns the stamped record. */
  lemma RegisterThenGet<X>(t: Table<X>, r: Service<X>, now: int, notFound: string)
    requires t.Valid()
    ensures t.Put(Stamp(r, now)).Lookup(r.base.id, notFound) == Success(Stamp(r, now))
    ensures forall k :: k != r.base.id ==>
              t.Put(Stamp(r, now)).Lookup(k, notFound) == t.Lookup(k, notFound)
  {
  }

  /**
   * Iteration order under registration: a new id is listed last, a
   * re-registered id keeps its place with the new record in it.
   */
  lemma PutValues<X>(t: Table<X>, r: Service<X>)
    requires t.Valid()
    ensures r.base.id !in t.entries ==> t.Put(r).Values() == t.Values() + [r]
    ensures forall i :: 0 <= i < |t.ids| && t.ids[i] == r.base.id ==>
              t.Put(r).Values() == t.Values()[i := r]
  {
  }

  /**
   * The expiry window: a record last stamped (registered or heartbeated) at
   * `seen` survives a list at `now` exactly when `now - seen` is at most
   * SERVICE_EXPIRATION.
   */
  lemma ExpiryWindow<X>(t: Table<X>, r: Service<X>, seen: int, now: int)
    requires t.Valid()
    ensures r.base.id in t.Put(Stamp(r, seen)).Evict(now).entries <==> now <= seen + SERVICE_EXPIRATION
  {
  }

  lemma HeartbeatExpiryWindow<X>(t: Table<X>, id: string, seen: int, now: int)
    requires t.Valid() && id in t.entries
    ensures id in t.Touch(id, seen).Evict(now).entries <==> now <= seen + SERVICE_EXPIRATION
  {
  }

  /** A heartbeat is the same as re-registering the stored record unchanged. */
  lemma HeartbeatIsReRegister<X>(t: Table<X>, id: string, now: int)
    requires t.Valid() && id in t.entries
    ensures t.Touch(id, now) == t.Put(Stamp(t.entries[id], now))
  {
  }

  /**
   * Once a list has evicted an expired record, a lookup or heartbeat of its
   * id finds nothing: an evicted record is never brought back by a heartbeat.
   */
  lemma NoResurrectionAfterEviction<X>(t: Table<X>, id: string, now: int, notFound: string)
    requires t.Valid() && id in t.entries && Expired(t.entries[id], now)
    ensures id !in t.Evict(now).entries
    ensures t.Evict(now).Lookup(id, notFound) == Failure(HttpError(HTTP_NOT_FOUND, notFound))
  {
  }

  /**
   * Before any list has evicted it, an expired record is still returned by
   * a lookup, and a heartbeat revives it so that the next list keeps it.
   */
  lemma ExpiredRevivedBeforeEviction<X>(t: Table<X>, id: string, past: int, now: int, notFound: string)
    requires t.Valid() && id in t.entries && Expired(t.entries[id], past)
    requires past <= now
    ensures t.Lookup(id, notFound) == Success(t.entries[id])
    ensures id in t.Touch(id, now).Evict(now).entries
  {
  }

  /** A later eviction subsumes an earlier one. */
  lemma EvictLater<X>(t: Table<X>, earlier: int, later: int)
    requires t.Valid() && earlier <= later
    ensures t.Evict(earlier).Evict(later) == t.Evict(later)
  {
    var gone1 := t.ExpiredKeys(earlier);
    var gone2 := t.Drop(gone1).ExpiredKeys(later);
    t.ExpiredKeysGrow(earlier, later);
    DropTwice(t, gone1, gone2);
    assert gone1 + gone2 == t.ExpiredKeys(later);
  }

  /** Listing twice at the same time evicts nothing the second time. */
  lemma EvictIdempotent<X>(t: Table<X>, now: int)
    requires t.Valid()
    ensures t.Evict(now).Evict(now) == t.Evict(now)
  {
    EvictLater(t, now, now);
  }

  lemma {:induction false} DistinctCard(s: seq<string>)
    requires Distinct(s)
    ensures |set k | k in s| == |s|
  {
    if s != [] {
      var p, last := s[..|s| - 1], s[|s| - 1];
      assert s == p + [last];
      DistinctCard(p);
      assert (set k | k in s) == (set k | k in p) + {last};
    }
  }

  /** A list returns one record per stored id. */
  lemma ValuesCount<X>(t: Table<X>)
    requires t.Valid()
    ensures |t.Values()| == |t.entries|
  {
    DistinctCard(t.ids);
    assert t.entries.Keys == set k | k in t.ids;
  }

  /**
   * If every stored record was stamped no later than `now`, registering or
   * heartbeating at `now` moves no last-seen time backwards.
   */
  lemma LastSeenNeverDecreases<X>(t: Table<X>, r: Service<X>, id: string, now: int)
    requires t.Valid() && id in t.entries
    requires forall k :: k in t.entries ==> t.entries[k].base.lastSeen <= now
    ensures forall k :: k in t.entries ==>
              t.Touch(id, now).entries[k].base.lastSeen >= t.entries[k].base.lastSeen
    ensures forall k :: k in t.entries ==>
              t.Put(Stamp(r, now)).entries[k].base.lastSeen >= t.entries[k].base.lastSeen
  {
  }

  /**
   * Discovery right after a list at the same time, with the empty query,
   * returns exactly what the lists returned, as many records as are stored.
   */
  lemma EmptyDiscoverAfterList(agents: Table<AgentFields>, tools: Table<ToolFields>, now: int)
    requires agents.Valid() && tools.Valid()
    ensures MatchAgents(EmptyQuery, agents.Evict(now).Values()) == LiveOnly(agents.Values(), now)
    ensures MatchTools(EmptyQuery, tools.Evict(now).Values()) == LiveOnly(tools.Values(), now)
    ensures |MatchAgents(EmptyQuery, agents.Evict(now).Values())| == |agents.Evict(now).entries|
    ensures |MatchTools(EmptyQuery, tools.Evict(now).Values())| == |tools.Evict(now).entries|
  {
    EvictValues(agents, now);
    EvictValues(tools, now);
    EmptyQueryKeepsAgents(agents.Evict(now).Values());
    EmptyQueryKeepsTools(tools.Evict(now).Values());
    ValuesCount(agents.Evict(now));
    ValuesCount(tools.Evict(now));
  }

  /**
   * Discovery does not evict: an expired tool that is still stored and
   * passes the filters is returned.
   */
  lemma DiscoverSeesExpiredTool(tools: Table<ToolFields>, q: ServiceQuery, id: string, now: int)
    requires tools.Valid() && id in tools.entries
    requires Expired(tools.entries[id], now) && ToolMatches(q, tools.entries[id])
    ensures tools.entries[id] in MatchTools(q, tools.Values())
  {
    ValuesAreStored(tools);
  }

  /** The tool-type filter has no effect on the agent half of a discovery. */
  lemma {:induction false} AgentsIgnoreToolType(q: ServiceQuery, s: seq<Agent>)
    ensures MatchAgents(q, s) == MatchAgents(q.(toolType := None), s)
  {
    if s != [] {
      AgentsIgnoreToolType(q, s[..|s| - 1]);
    }
  }

  /** The capabilities filter has no effect on the tool half of a discovery. */
  lemma {:induction false} ToolsIgnoreCapabilities(q: ServiceQuery, s: seq<Tool>)
    ensures MatchTools(q, s) == MatchTools(q.(capabilities := None), s)
  {
    if s != [] {
      ToolsIgnoreCapabilities(q, s[..|s| - 1]);
    }
  }

  /** A query that gives only a tool type still returns every agent. */
  lemma ToolTypeQueryReturnsAllAgents(toolType: string, s: seq<Agent>)
    ensures MatchAgents(ServiceQuery(None, Some(toolType), None, None), s) == s
  {
    AgentsIgnoreToolType(ServiceQuery(None, Some(toolType), None, None), s);
    EmptyQueryKeepsAgents(s);
  }
}
