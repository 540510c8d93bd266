/**
 * The discovery query and the filters it applies: which half of the result
 * is filled, a case-insensitive name substring, conjunctive capability
 * containment for agents and a case-insensitive tool-type equality for
 * tools. An absent or empty filter field matches everything.
 */
module Discovery {
  import opened Services
  import opened Text

  datatype ServiceType = AgentType | ToolType

  datatype ServiceQuery = ServiceQuery(
    serviceType: Option<ServiceType>,
    toolType: Option<string>,
    capabilities: Option<seq<string>>,
    name: Option<string>)

  /** The query with every field absent. */
  const EmptyQuery: ServiceQuery := ServiceQuery(None, None, None, None)

  /** A text filter takes part only when it is present and non-empty. */
  predicate Given(f: Option<string>) {
    f.Some? && f.value != ""
  }

  /** A list filter takes part only when it is present and non-empty. */
  predicate GivenList(f: Option<seq<string>>) {
    f.Some? && f.value != []
  }

  /** The query asks for this kind of service: its type is absent or equal to `kind`. */
  predicate Selects(q: ServiceQuery, kind: ServiceType) {
    q.serviceType == Some(kind) || q.serviceType.None?
  }

  predicate NameMatches(q: ServiceQuery, name: string) {
    !Given(q.name) || Contains(Lower(name), Lower(q.name.value))
  }

  /** Every requested capability is among those offered. */
  predicate OffersAll(requested: seq<string>, offered: seq<string>) {
    forall c :: c in requested ==> c in offered
  }

  predicate AgentMatches(q: ServiceQuery, a: Agent) {
    && NameMatches(q, a.base.name)
    && (!GivenList(q.capabilities) || OffersAll(q.capabilities.value, a.ext.capabilities))
  }

  predicate ToolTypeMatches(q: ServiceQuery, toolType: string) {
    !Given(q.toolType) || Lower(q.toolType.value) == Lower(toolType)
  }

  predicate ToolMatches(q: ServiceQuery, t: Tool) {
    NameMatches(q, t.base.name) && ToolTypeMatches(q, t.ext.toolType)
  }

  /** The agents of `s` that pass the query's filters, in the order of `s`. */
  function MatchAgents(q: ServiceQuery, s: seq<Agent>): (r: seq<Agent>)
    ensures forall a :: a in r <==> a in s && AgentMatches(q, a)
    ensures |r| <= |s|
  {
    if s == [] then []
    else
      var p, last := s[..|s| - 1], s[|s| - 1];
      assert s == p + [last];
      MatchAgents(q, p) + (if AgentMatches(q, last) then [last] else [])
  }

  /** The tools of `s` that pass the query's filters, in the order of `s`. */
  function MatchTools(q: ServiceQuery, s: seq<Tool>): (r: seq<Tool>)
    ensures forall t :: t in r <==> t in s && ToolMatches(q, t)
    ensures |r| <= |s|
  {
    if s == [] then []
    else
      var p, last := s[..|s| - 1], s[|s| - 1];
      assert s == p + [last];
      MatchTools(q, p) + (if ToolMatches(q, last) then [last] else [])
  }

  /**
   * Filtering keeps the relative order: matching a concatenation is the
   * concatenation of the matches, so the result is a subsequence of the input.
   */
  lemma {:induction false} MatchAgentsConcat(q: ServiceQuery, s: seq<Agent>, u: seq<Agent>)
    ensures MatchAgents(q, s + u) == MatchAgents(q, s) + MatchAgents(q, u)
    decreases |u|
  {
    if u == [] {
      assert s + u == s;
    } else {
      var p, last := u[..|u| - 1], u[|u| - 1];
      assert s + u == (s + p) + [last];
      assert (s + u)[..|s + u| - 1] == s + p;
      assert u[..|u| - 1] == p;
      assert MatchAgents(q, s + u) == MatchAgents(q, s + p) + (if AgentMatches(q, last) then [last] else []);
      MatchAgentsConcat(q, s, p);
    }
  }

  lemma {:induction false} MatchToolsConcat(q: ServiceQuery, s: seq<Tool>, u: seq<Tool>)
    ensures MatchTools(q, s + u) == MatchTools(q, s) + MatchTools(q, u)
    decreases |u|
  {
    if u == [] {
      assert s + u == s;
    } else {
      var p, last := u[..|u| - 1], u[|u| - 1];
      assert s + u == (s + p) + [last];
      assert (s + u)[..|s + u| - 1] == s + p;
      assert u[..|u| - 1] == p;
      assert MatchTools(q, s + u) == MatchTools(q, s + p) + (if ToolMatches(q, last) then [last] else []);
      MatchToolsConcat(q, s, p);
    }
  }

  /** Every service passes the filters of the empty query. */
  lemma EmptyQueryMatchesAll(a: Agent, t: Tool)
    ensures Selects(EmptyQuery, AgentType) && Selects(EmptyQuery, ToolType)
    ensures AgentMatches(EmptyQuery, a) && ToolMatches(EmptyQuery, t)
  {
  }

  /** The empty query returns every agent, in order. */
  lemma {:induction false} EmptyQueryKeepsAgents(s: seq<Agent>)
    ensures MatchAgents(EmptyQuery, s) == s
  {
    if s != [] {
      var p, last := s[..|s| - 1], s[|s| - 1];
      EmptyQueryKeepsAgents(p);
      assert AgentMatches(EmptyQuery, last);
      assert s == p + [last];
    }
  }

  /** The empty query returns every tool, in order. */
  lemma {:induction false} EmptyQueryKeepsTools(s: seq<Tool>)
    ensures MatchTools(EmptyQuery, s) == s
  {
    if s != [] {
      var p, last := s[..|s| - 1], s[|s| - 1];
      EmptyQueryKeepsTools(p);
      assert ToolMatches(EmptyQuery, last);
      assert s == p + [last];
    }
  }

  /**
   * The capability filter is conjunctive: an agent offering a superset of
   * the requested capabilities passes, one missing any of them does not.
   */
  lemma CapabilitiesConjunctive(q: ServiceQuery, a: Agent, c: string)
    requires GivenList(q.capabilities) && !Given(q.name)
    ensures c in q.capabilities.value && c !in a.ext.capabilities ==> !AgentMatches(q, a)
    ensures (forall r :: r in q.capabilities.value ==> r in a.ext.capabilities) ==> AgentMatches(q, a)
  {
  }

  /**
   * A given tool-type filter matches exactly the stored types that differ
   * from it only in ASCII case.
   */
  lemma ToolTypeIgnoresCase(q: ServiceQuery, toolType: string)
    requires Given(q.toolType)
    ensures ToolTypeMatches(q, toolType) <==>
              |q.toolType.value| == |toolType| &&
              forall i :: 0 <= i < |toolType| ==> LowerChar(q.toolType.value[i]) == LowerChar(toolType[i])
  {
    LowerEqualIff(q.toolType.value, toolType);
  }

  /**
   * A name filter matches a service whose lower-cased name contains the
   * lower-cased filter at some position, and no other.
   */
  lemma NameFilterIsSubstring(q: ServiceQuery, name: string)
    requires Given(q.name)
    ensures NameMatches(q, name) <==> exists i :: OccursAt(Lower(name), Lower(q.name.value), i)
  {
    ContainsIffOccurs(Lower(name), Lower(q.name.value));
  }
}
