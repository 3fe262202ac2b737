/** Which tools, servers and stores an instance may use, in terms of the rules as they are written. */
module PolicyGrants {
  import opened Sequences
  import opened AccessPolicy
  import opened AccessPolicyService

  // ------------------------------------------------------------------- one rule

  /** Tool rule `k` is the first one for the tool. */
  ghost predicate FirstFor(tools: seq<ToolRule>, tool: string, k: int) {
    0 <= k < |tools| && tools[k].toolName == tool && forall i :: 0 <= i < k ==> tools[i].toolName != tool
  }

  lemma {:induction false} FoundIsFirst(tools: seq<ToolRule>, tool: string, d: Decision)
    ensures FindDecision(tools, tool) == Some(d) <==> exists k :: FirstFor(tools, tool, k) && tools[k].decision == d
  {
    if tools != [] {
      var rest := tools[1..];
      FoundIsFirst(rest, tool, d);
      assert forall i :: 0 < i < |tools| ==> tools[i] == rest[i - 1];
      assert forall i :: 0 <= i < |rest| ==> rest[i] == tools[i + 1];
      if tools[0].toolName == tool {
        assert FirstFor(tools, tool, 0);
      } else {
        if k :| FirstFor(rest, tool, k) && rest[k].decision == d {
          assert FirstFor(tools, tool, k + 1);
        }
        if k :| FirstFor(tools, tool, k) && tools[k].decision == d {
          assert FirstFor(rest, tool, k - 1);
        }
      }
    }
  }

  /** A rule decides as its first tool rule for the tool says, unless that inherits or there is none; then
      it decides as its default says. */
  lemma {:induction false} ResolvedIff(rule: ServerRule, tool: string, d: Decision)
    requires rule.defaultDecision != INHERIT
    ensures ResolvedDecision(rule, tool) == d
            <==> || (d != INHERIT && exists k :: FirstFor(rule.tools, tool, k) && rule.tools[k].decision == d)
                 || (d == rule.defaultDecision
                     && forall k :: FirstFor(rule.tools, tool, k) ==> rule.tools[k].decision == INHERIT)
  {
    FoundIsFirst(rule.tools, tool, ALLOW);
    FoundIsFirst(rule.tools, tool, DENY);
    FoundIsFirst(rule.tools, tool, INHERIT);
    forall j, k | FirstFor(rule.tools, tool, j) && FirstFor(rule.tools, tool, k) ensures j == k {
    }
  }

  ghost predicate UniqueTools(rule: ServerRule) {
    forall i, j :: 0 <= i < j < |rule.tools| ==> rule.tools[i].toolName != rule.tools[j].toolName
  }

  /** What a rule with unique tool names says about a tool, read off its text. */
  ghost predicate Says(rule: ServerRule, tool: string, d: Decision) {
    || (d != INHERIT && ToolRule(tool, d) in rule.tools)
    || (d == rule.defaultDecision && forall t :: t in rule.tools && t.toolName == tool ==> t.decision == INHERIT)
  }

  /** With unique tool names a rule decides as it says. */
  lemma {:induction false} DecidesAsItSays(rule: ServerRule, tool: string, d: Decision)
    requires UniqueTools(rule) && rule.defaultDecision != INHERIT
    ensures ResolvedDecision(rule, tool) == d <==> Says(rule, tool, d)
  {
    ResolvedIff(rule, tool, d);
    forall k | 0 <= k < |rule.tools| && rule.tools[k].toolName == tool ensures FirstFor(rule.tools, tool, k) {
    }
    if ToolRule(tool, d) in rule.tools {
      var k :| 0 <= k < |rule.tools| && rule.tools[k] == ToolRule(tool, d);
      assert FirstFor(rule.tools, tool, k) && rule.tools[k].decision == d;
    }
  }

  // -------------------------------------------------------------------- evaluation

  /** Rules as the schema and validation leave them: a default that decides and unique tool names. */
  ghost predicate PlainRules(policies: seq<Policy>) {
    forall p, rule :: p in policies && rule in p.serverRules ==> rule.defaultDecision != INHERIT && UniqueTools(rule)
  }

  /** An active policy that is bound has a rule for the server that says `d` about the tool. */
  ghost predicate SomePolicySays(
    ids: seq<string>, policies: seq<Policy>, serverId: string, tool: string, d: Decision)
  {
    exists p, rule :: && p in policies && p.status == ACTIVE && p.id in ids
                      && rule in p.serverRules && rule.mcpServerId == serverId && Says(rule, tool, d)
  }

  lemma {:induction false} DecidedAsSaid(
    ids: seq<string>, policies: seq<Policy>, serverId: string, tool: string, d: Decision)
    requires PlainRules(policies)
    ensures SomeRuleDecides(ids, policies, serverId, tool, d) <==> SomePolicySays(ids, policies, serverId, tool, d)
  {
    forall p, rule | p in policies && rule in p.serverRules
      ensures ResolvedDecision(rule, tool) == d <==> Says(rule, tool, d)
    {
      DecidesAsItSays(rule, tool, d);
    }
    hide ResolvedDecision, Says;
  }

  /** A tool is granted exactly when it is discovered, the server has no ceiling or lists it, some active bound
      policy says that it is allowed, and none says that it is denied. */
  lemma {:induction false} GrantedAsWritten(
    ids: seq<string>, servers: seq<Server>, vectorStores: seq<string>, policies: seq<Policy>, server: Server,
    tool: string)
    requires DistinctLiteLLMIds(servers) && server in servers && PlainRules(policies)
    ensures Granted(Effective(ids, servers, vectorStores, policies), server, tool)
            <==> && tool in server.tools && (server.allowedTools == [] || tool in server.allowedTools)
                 && SomePolicySays(ids, policies, server.id, tool, ALLOW)
                 && !SomePolicySays(ids, policies, server.id, tool, DENY)
  {
    GrantedIff(ids, servers, vectorStores, policies, server, tool);
    DecidedAsSaid(ids, policies, server.id, tool, ALLOW);
    DecidedAsSaid(ids, policies, server.id, tool, DENY);
  }

  /** A tool that a tool rule of an active bound policy denies is never granted, whatever else allows it. */
  lemma {:induction false} DeniedIsNeverGranted(
    ids: seq<string>, servers: seq<Server>, vectorStores: seq<string>, policies: seq<Policy>, server: Server,
    tool: string, p: Policy, rule: ServerRule)
    requires DistinctLiteLLMIds(servers) && server in servers && PlainRules(policies)
    requires p in policies && p.status == ACTIVE && p.id in ids
    requires rule in p.serverRules && rule.mcpServerId == server.id && ToolRule(tool, DENY) in rule.tools
    ensures !Granted(Effective(ids, servers, vectorStores, policies), server, tool)
  {
    assert Says(rule, tool, DENY);
    assert SomePolicySays(ids, policies, server.id, tool, DENY);
    GrantedAsWritten(ids, servers, vectorStores, policies, server, tool);
  }

  ghost predicate HasGrant(r: Permissions, server: Server) {
    exists tool :: Granted(r, server, tool)
  }

  /** The servers with a granted tool are listed in the order in which they were selected. */
  lemma {:induction false} ServersInOrder(
    ids: seq<string>, servers: seq<Server>, vectorStores: seq<string>, policies: seq<Policy>)
    requires DistinctLiteLLMIds(servers)
    ensures var r := Effective(ids, servers, vectorStores, policies);
            && r.mcpServers == Map((s: Server) => s.litellmServerId, Filter(s => HasGrant(r, s), servers))
            && r.vectorStores == vectorStores
  {
    var r := Effective(ids, servers, vectorStores, policies);
    forall s | s in servers
      ensures (AllowedTools(s, RulesFor(ids, policies, s.id)) != []) == HasGrant(r, s)
    {
      AllowedHasGrant(ids, servers, vectorStores, policies, s);
      FilterMember((t: Server) => AllowedTools(t, RulesFor(ids, policies, t.id)) != [], servers, s);
    }
    FilterAgrees((s: Server) => AllowedTools(s, RulesFor(ids, policies, s.id)) != [], s => HasGrant(r, s), servers);
  }

  /** Value `i` of `distinct` stands at `k` in `values`, where all values before it have appeared by then. */
  ghost predicate AppearsAt(values: seq<string>, distinct: seq<string>, i: nat, k: nat)
    requires i < |distinct|
  {
    k < |values| && values[k] == distinct[i] && forall x :: x in distinct[..i] ==> x in values[..k]
  }

  /** Repetitions are dropped in favour of the first appearance. */
  lemma {:induction false} UniqueKeepsFirsts(values: seq<string>, i: nat) returns (k: nat)
    requires i < |Unique(values)|
    ensures AppearsAt(values, Unique(values), i, k)
  {
    var front, n := values[..|values| - 1], |values| - 1;
    var u, v := Unique(values), Unique(front);
    if i < |v| {
      k := UniqueKeepsFirsts(front, i);
      assert front[..k] == values[..k] && u[..i] == v[..i];
    } else {
      k := n;
      UniqueKeepsElements(front);
      assert u[..i] == v && values[..n] == front;
      forall x | x in v ensures x in front {
        assert x in Elements(v);
      }
    }
  }

  /** The granted tools of a server are listed without repetition and in the order of their discovery. */
  lemma {:induction false} ToolsInOrder(
    ids: seq<string>, servers: seq<Server>, vectorStores: seq<string>, policies: seq<Policy>, server: Server)
    requires DistinctLiteLLMIds(servers) && server in servers
    ensures var r := Effective(ids, servers, vectorStores, policies);
            server.litellmServerId in r.mcpToolPermissions ==>
              r.mcpToolPermissions[server.litellmServerId]
              == Unique(Filter(tool => Granted(r, server, tool), server.tools))
  {
    var r := Effective(ids, servers, vectorStores, policies);
    var k :| 0 <= k < |servers| && servers[k] == server;
    var rules := RulesFor(ids, policies, server.id);
    var tools := AllowedTools(server, rules);
    ToolEntry(ids, servers, policies, k);
    if tools != [] {
      UniqueKeepsElements(tools);
      forall tool | tool in server.tools ensures ToolAllowed(server, rules, tool) == Granted(r, server, tool) {
        AllowedToolMember(server, rules, tool);
        assert tool in tools <==> tool in Elements(tools);
        assert tool in Unique(tools) <==> tool in Elements(Unique(tools));
      }
      FilterAgrees(t => ToolAllowed(server, rules, t), t => Granted(r, server, t), server.tools);
    }
  }

  // ---------------------------------------------------------------- one instance

  ghost predicate PlainRows(policies: map<string, Policy>) {
    forall id :: id in policies ==>
      && policies[id].id == id
      && forall rule :: rule in policies[id].serverRules ==> rule.defaultDecision != INHERIT && UniqueTools(rule)
  }

  /** A stored active policy of the instance has a rule for the server that says `d` about the tool. */
  ghost predicate AgentPolicySays(
    policies: map<string, Policy>, agent: Agent, serverId: string, tool: string, d: Decision)
  {
    exists id, rule :: && id in policies && id in agent.accessPolicyIds && policies[id].status == ACTIVE
                       && rule in policies[id].serverRules && rule.mcpServerId == serverId && Says(rule, tool, d)
  }

  lemma {:induction false} RowsAreListed(env: Surroundings, policies: map<string, Policy>, p: Policy)
    requires ListsRows(env)
    ensures p in PolicyList(env, policies) <==> exists id :: id in policies && policies[id] == p
  {
    assert p in PolicyList(env, policies) <==> p in Elements(PolicyList(env, policies));
  }

  lemma {:induction false} AgentSaysAsListed(
    env: Surroundings, policies: map<string, Policy>, agent: Agent, serverId: string, tool: string, d: Decision)
    requires ListsRows(env) && PlainRows(policies)
    ensures PlainRules(PolicyList(env, policies))
    ensures SomePolicySays(agent.accessPolicyIds, PolicyList(env, policies), serverId, tool, d)
            <==> AgentPolicySays(policies, agent, serverId, tool, d)
  {
    hide Says, UniqueTools, ListsRows;
    var list := PolicyList(env, policies);
    forall p ensures p in list <==> exists id :: id in policies && policies[id] == p {
      RowsAreListed(env, policies, p);
    }
    hide PolicyList;
    if p, rule :| && p in list && p.status == ACTIVE && p.id in agent.accessPolicyIds
                  && rule in p.serverRules && rule.mcpServerId == serverId && Says(rule, tool, d) {
      var id :| id in policies && policies[id] == p;
      assert AgentPolicySays(policies, agent, serverId, tool, d);
    }
    if id, rule :| && id in policies && id in agent.accessPolicyIds && policies[id].status == ACTIVE
                   && rule in policies[id].serverRules && rule.mcpServerId == serverId && Says(rule, tool, d) {
      assert policies[id] in list;
    }
  }

  /** What an instance may use: a tool of a server that it has selected, under the same conditions, and the
      vector stores of the sources that it has selected. */
  lemma {:induction false} InstanceGrants(
    env: Surroundings, policies: map<string, Policy>, agent: Agent, server: Server, tool: string)
    requires ListsRows(env) && PlainRows(policies) && DistinctLiteLLMIds(env.servers) && server in env.servers
    ensures Granted(PermissionsForAgent(env, policies, agent), server, tool)
            <==> && server.id in agent.mcpServerIds && tool in server.tools
                 && (server.allowedTools == [] || tool in server.allowedTools)
                 && AgentPolicySays(policies, agent, server.id, tool, ALLOW)
                 && !AgentPolicySays(policies, agent, server.id, tool, DENY)
  {
    AgentSaysAsListed(env, policies, agent, server.id, tool, ALLOW);
    AgentSaysAsListed(env, policies, agent, server.id, tool, DENY);
    hide AgentPolicySays, SomePolicySays, PlainRules, PlainRows, ListsRows, PolicyList, Effective;
    var keep := (s: Server) => s.id in agent.mcpServerIds;
    var selected := Filter(keep, env.servers);
    SelectedAreDistinct(keep, env.servers);
    FilterMember(keep, env.servers, server);
    var sources := Filter((k: Source) => k.id in agent.knowledgeSourceIds, env.sources);
    var stores := Map((k: Source) => k.vectorStoreId, sources);
    if server in selected {
      GrantedAsWritten(agent.accessPolicyIds, selected, stores, PolicyList(env, policies), server, tool);
    } else {
      NotSelected(env, policies, agent, server);
    }
  }

  lemma {:induction false} SelectedAreDistinct(keep: Server -> bool, servers: seq<Server>)
    requires DistinctLiteLLMIds(servers)
    ensures DistinctLiteLLMIds(Filter(keep, servers))
  {
    if servers != [] {
      var rest := servers[1..];
      SelectedAreDistinct(keep, rest);
      var tail := Filter(keep, rest);
      forall j | 0 <= j < |tail| ensures tail[j].litellmServerId != servers[0].litellmServerId {
        FilterMember(keep, rest, tail[j]);
        var k :| 0 <= k < |rest| && rest[k] == tail[j];
        assert servers[k + 1] == rest[k];
      }
    }
  }

  lemma {:induction false} NotSelected(env: Surroundings, policies: map<string, Policy>, agent: Agent, server: Server)
    requires DistinctLiteLLMIds(env.servers) && server in env.servers && server.id !in agent.mcpServerIds
    ensures server.litellmServerId !in PermissionsForAgent(env, policies, agent).mcpToolPermissions
  {
    var keep := (s: Server) => s.id in agent.mcpServerIds;
    var selected := Filter(keep, env.servers);
    forall i | 0 <= i < |selected| ensures selected[i].litellmServerId != server.litellmServerId {
      FilterMember(keep, env.servers, selected[i]);
      var j :| 0 <= j < |env.servers| && env.servers[j] == selected[i];
      var k :| 0 <= k < |env.servers| && env.servers[k] == server;
      assert j != k;
    }
    EntriesComeFromServers(agent.accessPolicyIds, selected, PolicyList(env, policies), server.litellmServerId);
  }

  lemma {:induction false} InstanceStores(env: Surroundings, policies: map<string, Policy>, agent: Agent, store: string)
    ensures store in PermissionsForAgent(env, policies, agent).vectorStores
            <==> exists k :: k in env.sources && k.id in agent.knowledgeSourceIds && k.vectorStoreId == store
  {
    var keep := (k: Source) => k.id in agent.knowledgeSourceIds;
    var kept := Filter(keep, env.sources);
    var stores := PermissionsForAgent(env, policies, agent).vectorStores;
    if i :| 0 <= i < |stores| && stores[i] == store {
      FilterMember(keep, env.sources, kept[i]);
      assert kept[i] in kept;
    }
    if k :| k in env.sources && k.id in agent.knowledgeSourceIds && k.vectorStoreId == store {
      FilterMember(keep, env.sources, k);
      var i :| 0 <= i < |kept| && kept[i] == k;
      assert stores[i] == store;
    }
  }
}
