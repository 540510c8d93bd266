/**
 * The service registry: two insertion-ordered tables, one of agents and one
 * of tools, and the request handlers that register, list, look up,
 * heartbeat and discover services. The clock is the `now` argument of each
 * handler that reads it.
 */
module ServiceRegistry {
  import opened Services
  import opened Store
  import opened Discovery

  /**
   * The first half of a list request's eviction pass: the ids, in iteration
   * order, whose records are older than SERVICE_EXPIRATION at `now`.
   */
  method CollectExpired<X>(t: Table<X>, now: int) returns (expired: seq<string>)
    requires t.Valid()
    ensures expired == ExpiredIds(t.ids, t.entries, now)
    ensures forall k :: k in expired <==> k in t.entries && Expired(t.entries[k], now)
  {
    expired := [];
    var i := 0;
    while i < |t.ids|
      invariant 0 <= i <= |t.ids|
      invariant expired == ExpiredIds(t.ids[..i], t.entries, now)
    {
      var id := t.ids[i];
      assert t.ids[..i + 1] == t.ids[..i] + [id];
      if now - t.entries[id].base.lastSeen > SERVICE_EXPIRATION {
        expired := expired + [id];
      }
      i := i + 1;
    }
    assert t.ids[..i] == t.ids;
  }

  /** The second half: pop each collected id in turn. */
  method PopAll<X>(t: Table<X>, expired: seq<string>) returns (r: Table<X>)
    requires t.Valid()
    ensures r == PopEach(t, expired)
    ensures r == t.Drop(set k | k in expired)
  {
    r := t;
    var j := 0;
    while j < |expired|
      invariant 0 <= j <= |expired|
      invariant r == PopEach(t, expired[..j])
    {
      var id := expired[j];
      assert expired[..j + 1][..j] == expired[..j];
      r := r.Drop({id});
      j := j + 1;
    }
    assert expired[..j] == expired;
    PopEachIsDrop(t, expired);
  }

  /** The eviction pass of a list request: the table without its expired records. */
  method EvictExpired<X>(t: Table<X>, now: int) returns (r: Table<X>)
    requires t.Valid()
    ensures r == t.Evict(now)
  {
    var expired := CollectExpired(t, now);
    r := PopAll(t, expired);
    assert (set k | k in expired) == t.ExpiredKeys(now);
  }

  /** The agent half of a discovery: append each agent that passes every filter. */
  method CollectAgents(q: ServiceQuery, values: seq<Agent>) returns (matched: seq<Agent>)
    ensures matched == MatchAgents(q, values)
  {
    matched := [];
    for i := 0 to |values|
      invariant matched == MatchAgents(q, values[..i])
    {
      var agent := values[i];
      assert values[..i + 1] == values[..i] + [agent];
      if Given(q.name) && !Text.Contains(Text.Lower(agent.base.name), Text.Lower(q.name.value)) {
        continue;
      }
      if GivenList(q.capabilities) && !OffersAll(q.capabilities.value, agent.ext.capabilities) {
        continue;
      }
      matched := matched + [agent];
    }
    assert values[..|values|] == values;
  }

  /** The tool half of a discovery: append each tool that passes every filter. */
  method CollectTools(q: ServiceQuery, values: seq<Tool>) returns (matched: seq<Tool>)
    ensures matched == MatchTools(q, values)
  {
    matched := [];
    for i := 0 to |values|
      invariant matched == MatchTools(q, values[..i])
    {
      var tool := values[i];
      assert values[..i + 1] == values[..i] + [tool];
      if Given(q.name) && !Text.Contains(Text.Lower(tool.base.name), Text.Lower(q.name.value)) {
        continue;
      }
      if Given(q.toolType) && Text.Lower(q.toolType.value) != Text.Lower(tool.ext.toolType) {
        continue;
      }
      matched := matched + [tool];
    }
    assert values[..|values|] == values;
  }

  class Registry {
    var agents: Table<AgentFields>
    var tools: Table<ToolFields>

    ghost predicate Valid()
      reads this
    {
      agents.Valid() && tools.Valid()
    }

    /** A registry starts with no agents and no tools. */
    constructor ()
      ensures Valid()
      ensures agents == EmptyTable() && tools == EmptyTable()
    {
      agents := EmptyTable();
      tools := EmptyTable();
    }

    /**
     * Stamps the agent with the current time and stores it under its id,
     * replacing whatever was stored there; returns the stored record.
     */
    method RegisterAgent(agent: Agent, now: int) returns (stored: Agent)
      requires Valid()
      modifies this
      ensures Valid()
      ensures stored == Stamp(agent, now)
      ensures agents == old(agents).Put(stored) && tools == old(tools)
    {
      stored := Stamp(agent, now);
      agents := agents.Put(stored);
    }

    method RegisterTool(tool: Tool, now: int) returns (stored: Tool)
      requires Valid()
      modifies this
      ensures Valid()
      ensures stored == Stamp(tool, now)
      ensures tools == old(tools).Put(stored) && agents == old(agents)
    {
      stored := Stamp(tool, now);
      tools := tools.Put(stored);
    }

    /** Evicts the expired agents, then returns the remaining ones in order. */
    method ListAgents(now: int) returns (live: seq<Agent>)
      requires Valid()
      modifies this
      ensures Valid()
      ensures agents == old(agents).Evict(now) && tools == old(tools)
      ensures live == agents.Values()
      ensures live == LiveOnly(old(agents).Values(), now)
    {
      EvictValues(agents, now);
      agents := EvictExpired(agents, now);
      live := agents.Values();
    }

    method ListTools(now: int) returns (live: seq<Tool>)
      requires Valid()
      modifies this
      ensures Valid()
      ensures tools == old(tools).Evict(now) && agents == old(agents)
      ensures live == tools.Values()
      ensures live == LiveOnly(old(tools).Values(), now)
    {
      EvictValues(tools, now);
      tools := EvictExpired(tools, now);
      live := tools.Values();
    }

    /** The stored agent, expired or not, or 404 "Agent not found". */
    function GetAgent(agentId: string): (r: Result<Agent>)
      reads this
      requires Valid()
      ensures r.Success? <==> agentId in agents.entries
      ensures r.Success? ==> r.value == agents.entries[agentId] && r.value.base.id == agentId
      ensures r.Failure? ==> r.error == HttpError(HTTP_NOT_FOUND, "Agent not found")
    {
      agents.Lookup(agentId, "Agent not found")
    }

    function GetTool(toolId: string): (r: Result<Tool>)
      reads this
      requires Valid()
      ensures r.Success? <==> toolId in tools.entries
      ensures r.Success? ==> r.value == tools.entries[toolId] && r.value.base.id == toolId
      ensures r.Failure? ==> r.error == HttpError(HTTP_NOT_FOUND, "Tool not found")
    {
      tools.Lookup(toolId, "Tool not found")
    }

    /**
     * The agents and the tools that pass the query, each in table order.
     * Nothing is evicted: an expired record still stored is a candidate.
     */
    method Discover(q: ServiceQuery) returns (matchedAgents: seq<Agent>, matchedTools: seq<Tool>)
      requires Valid()
      ensures matchedAgents == (if Selects(q, AgentType) then MatchAgents(q, agents.Values()) else [])
      ensures matchedTools == (if Selects(q, ToolType) then MatchTools(q, tools.Values()) else [])
      ensures forall a :: a in matchedAgents <==>
                Selects(q, AgentType) && a in agents.entries.Values && AgentMatches(q, a)
      ensures forall t :: t in matchedTools <==>
                Selects(q, ToolType) && t in tools.entries.Values && ToolMatches(q, t)
    {
      ValuesAreStored(agents);
      ValuesAreStored(tools);
      matchedAgents := [];
      matchedTools := [];

      if q.serviceType == Some(AgentType) || q.serviceType.None? {
        matchedAgents := CollectAgents(q, agents.Values());
      }
      if q.serviceType == Some(ToolType) || q.serviceType.None? {
        matchedTools := CollectTools(q, tools.Values());
      }
    }

    /**
     * Refreshes the agent's last-seen time if its id is stored (expired or
     * not); otherwise fails with 404 and changes nothing.
     */
    method AgentHeartbeat(agentId: string, now: int) returns (reply: Result<string>)
      requires Valid()
      modifies this
      ensures Valid()
      ensures reply.Success? <==> agentId in old(agents.entries)
      ensures reply.Success? ==> reply.value == "ok" && agents == old(agents).Touch(agentId, now)
      ensures reply.Failure? ==>
                reply.error == HttpError(HTTP_NOT_FOUND, "Agent not found") && agents == old(agents)
      ensures tools == old(tools)
    {
      if agentId !in agents.entries {
        return Failure(HttpError(HTTP_NOT_FOUND, "Agent not found"));
      }
      agents := agents.Touch(agentId, now);
      reply := Success("ok");
    }

    method ToolHeartbeat(toolId: string, now: int) returns (reply: Result<string>)
      requires Valid()
      modifies this
      ensures Valid()
      ensures reply.Success? <==> toolId in old(tools.entries)
      ensures reply.Success? ==> reply.value == "ok" && tools == old(tools).Touch(toolId, now)
      ensures reply.Failure? ==>
                reply.error == HttpError(HTTP_NOT_FOUND, "Tool not found") && tools == old(tools)
      ensures agents == old(agents)
    {
      if toolId !in tools.entries {
        return Failure(HttpError(HTTP_NOT_FOUND, "Tool not found"));
      }
      tools := tools.Touch(toolId, now);
      reply := Success("ok");
    }
  }
}
