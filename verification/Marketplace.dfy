/**
 The `marketplace` endpoint of api/routers/agents.py: batched lookups, filters, a stable
 sort and pages. Query results are inputs; ratings and prices are reals that are only compared.
 */
module Marketplace {
  import opened Common
  import opened StableSort

  datatype Profile = Profile(name: string, trust: int)
  datatype Agent = Agent(id: string, name: string)
  datatype Summary = Summary(agentId: string, avg: real, reviews: int)
  datatype Template = Template(number: nat, providerId: string, price: real, active: bool)

  // The three tables.
  datatype Tables = Tables(agents: seq<Agent>, summaries: seq<Summary>, templates: seq<Template>)

  datatype Filters = Filters(
    minRating: Option<real>, minReviews: Option<int>, maxPrice: Option<real>, hasSla: Option<bool>)

  datatype SortBy = Unsorted | ByRating | ByReviews | ByPrice | ByTrust

  // ---------------------------------------------------------------- one agent at a time

  /** Ids and names are unique columns, and no agent is nameless. */
  ghost predicate Registered(t: Tables) {
    && (forall a, b :: a in t.agents && b in t.agents && (a.id == b.id || a.name == b.name) ==> a == b)
    && (forall a :: a in t.agents ==> a.name != "")
    && (forall r, s :: r in t.summaries && s in t.summaries && r.agentId == s.agentId ==> r == s)
  }

  function AgentNamed(agents: seq<Agent>, name: string): Option<Agent> {
    if agents == [] then None
    else if agents[0].name == name then Some(agents[0])
    else AgentNamed(agents[1..], name)
  }

  function SummaryOf(summaries: seq<Summary>, id: string): Option<Summary> {
    if summaries == [] then None
    else if summaries[0].agentId == id then Some(summaries[0])
    else SummaryOf(summaries[1..], id)
  }

  function RatingFor(t: Tables, name: string): Option<Summary> {
    match AgentNamed(t.agents, name)
    case None => None
    case Some(a) => SummaryOf(t.summaries, a.id)
  }

  function TemplatesFor(t: Tables, name: string): seq<Template> {
    match AgentNamed(t.agents, name)
    case None => []
    case Some(a) => ProvidedBy(t.templates, {a.id})
  }

  /** SELECT ... WHERE provider_id IN ids. */
  function ProvidedBy(templates: seq<Template>, ids: set<string>): (r: seq<Template>)
    ensures forall x :: x in r ==> x.providerId in ids
  {
    if templates == [] then []
    else
      var last := templates[|templates| - 1];
      ProvidedBy(templates[..|templates| - 1], ids) + if last.providerId in ids then [last] else []
  }

  lemma {:induction false} AgentNamedExactly(agents: seq<Agent>, name: string)
    ensures var r := AgentNamed(agents, name);
      if r.Some? then r.value in agents && r.value.name == name else forall a :: a in agents ==> a.name != name
  {
    if agents != [] {
      AgentNamedExactly(agents[1..], name);
      assert agents == [agents[0]] + agents[1..];
    }
  }

  lemma {:induction false} SummaryOfExactly(summaries: seq<Summary>, id: string)
    ensures var r := SummaryOf(summaries, id);
      if r.Some? then r.value in summaries && r.value.agentId == id else forall s :: s in summaries ==> s.agentId != id
  {
    if summaries != [] {
      SummaryOfExactly(summaries[1..], id);
      assert summaries == [summaries[0]] + summaries[1..];
    }
  }

  ghost predicate RatingOf(t: Tables, name: string, s: Summary) {
    s in t.summaries && exists a :: a in t.agents && a.name == name && a.id == s.agentId
  }

  ghost predicate TemplateOf(t: Tables, name: string, x: Template) {
    x in t.templates && exists a :: a in t.agents && a.name == name && a.id == x.providerId
  }

  lemma {:induction false} ProvidedByExactly(templates: seq<Template>, ids: set<string>, x: Template)
    ensures x in ProvidedBy(templates, ids) <==> x in templates && x.providerId in ids
  {
    if templates != [] {
      ProvidedByExactly(templates[..|templates| - 1], ids, x);
      assert templates == templates[..|templates| - 1] + [templates[|templates| - 1]];
    }
  }

  /** The search finds the rating and the templates that the tables hold for the agent of that name. */
  lemma RatingExactly(t: Tables, name: string, s: Summary)
    requires Registered(t)
    ensures RatingFor(t, name) == Some(s) <==> RatingOf(t, name, s)
  {
    AgentNamedExactly(t.agents, name);
    var found := AgentNamed(t.agents, name);
    if found.Some? { SummaryOfExactly(t.summaries, found.value.id); }
  }

  lemma TemplatesExactly(t: Tables, name: string, x: Template)
    requires Registered(t)
    ensures x in TemplatesFor(t, name) <==> TemplateOf(t, name, x)
  {
    AgentNamedExactly(t.agents, name);
    var found := AgentNamed(t.agents, name);
    if found.Some? { ProvidedByExactly(t.templates, {found.value.id}, x); }
  }

  // ---------------------------------------------------------------- all agents at once

  ghost predicate AgentMaps(rows: seq<Agent>, idToName: map<string, string>, nameToId: map<string, string>) {
    && (forall id :: id in idToName <==> exists a :: a in rows && a.id == id)
    && (forall name :: name in nameToId <==> exists a :: a in rows && a.name == name)
    && (forall a :: a in rows ==> idToName[a.id] == a.name && nameToId[a.name] == a.id)
  }

  ghost predicate SummaryMap(rows: seq<Summary>, byId: map<string, Summary>) {
    && (forall id :: id in byId <==> exists s :: s in rows && s.agentId == id)
    && (forall s :: s in rows ==> byId[s.agentId] == s)
  }

  method IndexAgents(rows: seq<Agent>) returns (idToName: map<string, string>, nameToId: map<string, string>)
    requires forall a, b :: a in rows && b in rows && (a.id == b.id || a.name == b.name) ==> a == b
    ensures AgentMaps(rows, idToName, nameToId)
  {
    idToName, nameToId := map[], map[];
    for i := 0 to |rows|
      invariant forall id :: id in idToName <==> exists k :: 0 <= k < i && rows[k].id == id
      invariant forall name :: name in nameToId <==> exists k :: 0 <= k < i && rows[k].name == name
      invariant forall k :: 0 <= k < i ==> idToName[rows[k].id] == rows[k].name && nameToId[rows[k].name] == rows[k].id
    {
      idToName := idToName[rows[i].id := rows[i].name];
      nameToId := nameToId[rows[i].name := rows[i].id];
    }
  }

  method IndexSummaries(rows: seq<Summary>) returns (byId: map<string, Summary>)
    requires forall r, s :: r in rows && s in rows && r.agentId == s.agentId ==> r == s
    ensures SummaryMap(rows, byId)
  {
    byId := map[];
    for i := 0 to |rows|
      invariant forall id :: id in byId <==> exists k :: 0 <= k < i && rows[k].agentId == id
      invariant forall k :: 0 <= k < i ==> byId[rows[k].agentId] == rows[k]
    {
      byId := byId[rows[i].agentId := rows[i]];
    }
  }

  function GetOrEmpty(m: map<string, seq<Template>>, name: string): seq<Template> {
    if name in m then m[name] else []
  }

  /** The ids that the map sends to `name`. */
  function IdsOf(idToName: map<string, string>, name: string): set<string> {
    set id | id in idToName && idToName[id] == name
  }

  /** The templates filed under a name; an empty name gets none. */
  function Grouped(rows: seq<Template>, idToName: map<string, string>, name: string): seq<Template> {
    if name == "" then [] else ProvidedBy(rows, IdsOf(idToName, name))
  }

  lemma GroupedStep(rows: seq<Template>, i: nat, idToName: map<string, string>, name: string)
    requires i < |rows|
    ensures Grouped(rows[..i + 1], idToName, name)
         == Grouped(rows[..i], idToName, name)
            + if name != "" && rows[i].providerId in IdsOf(idToName, name) then [rows[i]] else []
  {
    assert rows[..i + 1][..i] == rows[..i];
  }

  /** The setdefault-and-append loop. */
  method GroupTemplates(rows: seq<Template>, idToName: map<string, string>) returns (byName: map<string, seq<Template>>)
    ensures forall name :: GetOrEmpty(byName, name) == Grouped(rows, idToName, name)
  {
    byName := map[];
    for i := 0 to |rows|
      invariant forall name :: GetOrEmpty(byName, name) == Grouped(rows[..i], idToName, name)
    {
      forall name ensures
        Grouped(rows[..i + 1], idToName, name)
          == Grouped(rows[..i], idToName, name)
             + if name != "" && rows[i].providerId in IdsOf(idToName, name) then [rows[i]] else []
      {
        GroupedStep(rows, i, idToName, name);
      }
      ghost var before := byName;
      if rows[i].providerId in idToName {
        var name := idToName[rows[i].providerId];
        if name != "" {
          byName := byName[name := GetOrEmpty(byName, name) + [rows[i]]];
        }
      }
      forall name ensures GetOrEmpty(byName, name) == Grouped(rows[..i + 1], idToName, name) {
        assert GetOrEmpty(before, name) == Grouped(rows[..i], idToName, name);
        assert rows[i].providerId in IdsOf(idToName, name)
          <==> rows[i].providerId in idToName && idToName[rows[i].providerId] == name;
      }
    }
    assert rows[..|rows|] == rows;
  }

  lemma {:induction false} ProvidedTwice(templates: seq<Template>, wide: set<string>, narrow: set<string>)
    requires narrow <= wide
    ensures ProvidedBy(ProvidedBy(templates, wide), narrow) == ProvidedBy(templates, narrow)
  {
    if templates != [] {
      var rest, last := ProvidedBy(templates[..|templates| - 1], wide), templates[|templates| - 1];
      ProvidedTwice(templates[..|templates| - 1], wide, narrow);
      assert (rest + [last])[..|rest|] == rest && rest + [] == rest;
    }
  }

  lemma {:induction false} ProvidedByNobody(templates: seq<Template>)
    ensures ProvidedBy(templates, {}) == []
  {
    if templates != [] { ProvidedByNobody(templates[..|templates| - 1]); }
  }

  // ---------------------------------------------------------------- the queries

  function AgentsNamed(agents: seq<Agent>, names: set<string>): (r: seq<Agent>)
    ensures forall a :: a in r <==> a in agents && a.name in names
  {
    if agents == [] then []
    else
      assert agents == [agents[0]] + agents[1..];
      (if agents[0].name in names then [agents[0]] else []) + AgentsNamed(agents[1..], names)
  }

  function SummariesOf(summaries: seq<Summary>, ids: set<string>): (r: seq<Summary>)
    ensures forall s :: s in r <==> s in summaries && s.agentId in ids
  {
    if summaries == [] then []
    else
      assert summaries == [summaries[0]] + summaries[1..];
      (if summaries[0].agentId in ids then [summaries[0]] else []) + SummariesOf(summaries[1..], ids)
  }

  function RatingIn(nameToId: map<string, string>, byId: map<string, Summary>, name: string): Option<Summary> {
    if name in nameToId && nameToId[name] in byId then Some(byId[nameToId[name]]) else None
  }

  method RateNames(names: seq<string>, nameToId: map<string, string>, byId: map<string, Summary>)
    returns (ratingByName: map<string, Option<Summary>>)
    ensures forall name :: name in names ==>
      name in ratingByName && ratingByName[name] == RatingIn(nameToId, byId, name)
  {
    ratingByName := map[];
    for i := 0 to |names|
      invariant forall k :: 0 <= k < i ==>
        names[k] in ratingByName && ratingByName[names[k]] == RatingIn(nameToId, byId, names[k])
    {
      ratingByName := ratingByName[names[i] := RatingIn(nameToId, byId, names[i])];
    }
  }

  /** The batched maps hold, for every name asked for, what a search for that one agent finds. */
  method BuildLookups(t: Tables, names: seq<string>)
    returns (ratingByName: map<string, Option<Summary>>, slaByName: map<string, seq<Template>>)
    requires Registered(t)
    ensures forall name :: name in names ==> name in ratingByName && ratingByName[name] == RatingFor(t, name)
    ensures forall name :: name in names ==> GetOrEmpty(slaByName, name) == TemplatesFor(t, name)
  {
    var wanted := set name | name in names;
    var idToName, nameToId := IndexAgents(AgentsNamed(t.agents, wanted));
    var byId := IndexSummaries(SummariesOf(t.summaries, nameToId.Values));
    slaByName := GroupTemplates(ProvidedBy(t.templates, nameToId.Values), idToName);
    ratingByName := RateNames(names, nameToId, byId);
    forall name | name in names
      ensures ratingByName[name] == RatingFor(t, name) && GetOrEmpty(slaByName, name) == TemplatesFor(t, name)
    {
      LookupsAgree(t, wanted, name, idToName, nameToId, byId);
    }
  }

  lemma LookupsAgree(t: Tables, wanted: set<string>, name: string,
                     idToName: map<string, string>, nameToId: map<string, string>, byId: map<string, Summary>)
    requires Registered(t) && name in wanted
    requires AgentMaps(AgentsNamed(t.agents, wanted), idToName, nameToId)
    requires SummaryMap(SummariesOf(t.summaries, nameToId.Values), byId)
    ensures RatingFor(t, name) == RatingIn(nameToId, byId, name)
    ensures Grouped(ProvidedBy(t.templates, nameToId.Values), idToName, name) == TemplatesFor(t, name)
  {
    AgentNamedExactly(t.agents, name);
    var found := AgentNamed(t.agents, name);
    if found.None? {
      assert IdsOf(idToName, name) == {};
      ProvidedByNobody(ProvidedBy(t.templates, nameToId.Values));
    } else {
      var a := found.value;
      assert nameToId[name] == a.id && a.id in nameToId.Values;
      assert IdsOf(idToName, name) == {a.id};
      ProvidedTwice(t.templates, nameToId.Values, {a.id});
      SummaryOfExactly(t.summaries, a.id);
    }
  }
}
