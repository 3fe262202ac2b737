/** Access policies and the permissions that the active ones bound to an instance give. */
module AccessPolicy {
  import opened Sequences

  datatype Decision = INHERIT | ALLOW | DENY

  datatype Status = DRAFT | ACTIVE

  datatype ToolRule = ToolRule(toolName: string, decision: Decision)

  datatype ServerRule = ServerRule(mcpServerId: string, defaultDecision: Decision, tools: seq<ToolRule>)

  datatype Policy = Policy(
    id: string, name: string, status: Status, serverRules: seq<ServerRule>, revision: nat,
    createdBy: string, createdAt: string, updatedAt: string,
    lastReconciledAt: Option<string>, lastReconciliationError: Option<string>)

  datatype Server = Server(
    id: string, litellmServerId: string, tools: seq<string>, allowedTools: seq<string>, accessGroups: seq<string>)

  datatype Permissions = Permissions(
    mcpServers: seq<string>, mcpAccessGroups: seq<string>,
    mcpToolPermissions: map<string, seq<string>>, vectorStores: seq<string>)

  // ------------------------------------------------------------- evaluation

  /** The decision of the first tool rule for `toolName`. */
  function FindDecision(tools: seq<ToolRule>, toolName: string): Option<Decision> {
    if tools == [] then None
    else if tools[0].toolName == toolName then Some(tools[0].decision)
    else FindDecision(tools[1..], toolName)
  }

  function ResolvedDecision(rule: ServerRule, toolName: string): Decision {
    match FindDecision(rule.tools, toolName)
    case Some(ALLOW) => ALLOW
    case Some(DENY) => DENY
    case _ => rule.defaultDecision
  }

  /** The distinct values in order of first appearance. */
  function Unique(values: seq<string>): seq<string> {
    if values == [] then []
    else
      var front := Unique(values[..|values| - 1]);
      if values[|values| - 1] in front then front else front + [values[|values| - 1]]
  }

  predicate Bound(ids: seq<string>, policy: Policy) {
    policy.status == ACTIVE && policy.id in ids
  }

  /** The rules of active bound policies for one server, policy by policy. */
  function RulesFor(ids: seq<string>, policies: seq<Policy>, serverId: string): seq<ServerRule> {
    if policies == [] then []
    else
      (if Bound(ids, policies[0])
       then Filter((rule: ServerRule) => rule.mcpServerId == serverId, policies[0].serverRules) else [])
      + RulesFor(ids, policies[1..], serverId)
  }

  function Decisions(rules: seq<ServerRule>, toolName: string): seq<Decision> {
    Map((rule: ServerRule) => ResolvedDecision(rule, toolName), rules)
  }

  predicate WithinCeiling(server: Server, toolName: string) {
    server.allowedTools == [] || toolName in server.allowedTools
  }

  predicate ToolAllowed(server: Server, rules: seq<ServerRule>, toolName: string) {
    && WithinCeiling(server, toolName)
    && DENY !in Decisions(rules, toolName) && ALLOW in Decisions(rules, toolName)
  }

  function AllowedTools(server: Server, rules: seq<ServerRule>): seq<string> {
    if rules == [] then [] else Filter(tool => ToolAllowed(server, rules, tool), server.tools)
  }

  /** The servers that keep at least one tool. */
  function AllowedServers(ids: seq<string>, servers: seq<Server>, policies: seq<Policy>): seq<Server> {
    Filter((s: Server) => AllowedTools(s, RulesFor(ids, policies, s.id)) != [], servers)
  }

  /** One entry per allowed server; a later server with the same key replaces an earlier one. */
  function ToolPermissions(ids: seq<string>, servers: seq<Server>, policies: seq<Policy>): map<string, seq<string>> {
    if servers == [] then map[]
    else
      var front, s := servers[..|servers| - 1], servers[|servers| - 1];
      var tools := AllowedTools(s, RulesFor(ids, policies, s.id));
      var earlier := ToolPermissions(ids, front, policies);
      if tools == [] then earlier else earlier[s.litellmServerId := Unique(tools)]
  }

  function Groups(servers: seq<Server>): seq<string> {
    Flatten(Map((s: Server) => s.accessGroups, servers))
  }

  function Effective(
    ids: seq<string>, servers: seq<Server>, vectorStores: seq<string>, policies: seq<Policy>): Permissions
  {
    var allowed := AllowedServers(ids, servers, policies);
    Permissions(
      Map((s: Server) => s.litellmServerId, allowed),
      Unique(Groups(allowed)),
      ToolPermissions(ids, servers, policies),
      vectorStores)
  }

  /** What the next server adds. */
  lemma {:induction false} NextServer(ids: seq<string>, servers: seq<Server>, policies: seq<Policy>, i: nat)
    requires i < |servers|
    ensures var s := servers[i];
            var tools := AllowedTools(s, RulesFor(ids, policies, s.id));
            && AllowedServers(ids, servers[..i + 1], policies)
               == AllowedServers(ids, servers[..i], policies) + (if tools != [] then [s] else [])
            && ToolPermissions(ids, servers[..i + 1], policies)
               == if tools == [] then ToolPermissions(ids, servers[..i], policies)
                  else ToolPermissions(ids, servers[..i], policies)[s.litellmServerId := Unique(tools)]
  {
    hide AllowedTools, RulesFor, Unique;
    var keep := (s: Server) => AllowedTools(s, RulesFor(ids, policies, s.id)) != [];
    assert servers[..i + 1] == servers[..i] + [servers[i]];
    assert servers[..i + 1][..i] == servers[..i];
    FilterConcat(keep, servers[..i], [servers[i]]);
    assert [servers[i]][1..] == [];
  }

  /** The evaluation loop over the selected servers. */
  method EffectiveInstanceObjectPermissions(
    ids: seq<string>, servers: seq<Server>, vectorStores: seq<string>, policies: seq<Policy>)
    returns (r: Permissions)
    ensures r == Effective(ids, servers, vectorStores, policies)
  {
    var allowedServers: seq<Server> := [];
    var toolPermissions: map<string, seq<string>> := map[];
    var i := 0;
    while i < |servers|
      invariant i <= |servers|
      invariant allowedServers == AllowedServers(ids, servers[..i], policies)
      invariant toolPermissions == ToolPermissions(ids, servers[..i], policies)
    {
      var server := servers[i];
      NextServer(ids, servers, policies, i);
      hide AllowedServers, ToolPermissions, RulesFor, Unique;
      var rules := RulesFor(ids, policies, server.id);
      i := i + 1;
      if |rules| > 0 {
        var allowedTools := Filter(tool => ToolAllowed(server, rules, tool), server.tools);
        if |allowedTools| > 0 {
          allowedServers := allowedServers + [server];
          toolPermissions := toolPermissions[server.litellmServerId := Unique(allowedTools)];
        }
      }
    }
    assert servers[..i] == servers;
    r := Permissions(
      Map((s: Server) => s.litellmServerId, allowedServers), Unique(Groups(allowedServers)), toolPermissions,
      vectorStores);
  }

  // ----------------------------------------------------- which tools are granted

  ghost predicate Granted(r: Permissions, server: Server, tool: string) {
    server.litellmServerId in r.mcpToolPermissions && tool in r.mcpToolPermissions[server.litellmServerId]
  }

  /** Some active bound policy has a rule for the server that resolves to `decision`. */
  ghost predicate SomeRuleDecides(
    ids: seq<string>, policies: seq<Policy>, serverId: string, tool: string, decision: Decision)
  {
    exists p, rule :: p in policies && Bound(ids, p) && rule in p.serverRules
                      && rule.mcpServerId == serverId && ResolvedDecision(rule, tool) == decision
  }

  lemma {:induction false} UniqueKeepsElements(values: seq<string>)
    ensures Elements(Unique(values)) == Elements(values) && Distinct(Unique(values))
  {
    if values != [] {
      var front, last := values[..|values| - 1], values[|values| - 1];
      UniqueKeepsElements(front);
      assert values == front + [last];
      ElementsConcat(front, [last]);
      ElementsConcat(Unique(front), [last]);
      assert last in Unique(front) <==> last in Elements(Unique(front));
    }
  }

  lemma {:induction false} RuleMember(ids: seq<string>, policies: seq<Policy>, serverId: string, rule: ServerRule)
    ensures rule in RulesFor(ids, policies, serverId)
            <==> rule.mcpServerId == serverId && exists p :: p in policies && Bound(ids, p) && rule in p.serverRules
  {
    if policies != [] {
      RuleMember(ids, policies[1..], serverId, rule);
      FilterMember((r: ServerRule) => r.mcpServerId == serverId, policies[0].serverRules, rule);
    }
  }

  lemma {:induction false} DecisionMember(
    ids: seq<string>, policies: seq<Policy>, serverId: string, tool: string, decision: Decision)
    ensures decision in Decisions(RulesFor(ids, policies, serverId), tool)
            <==> SomeRuleDecides(ids, policies, serverId, tool, decision)
  {
    var rules := RulesFor(ids, policies, serverId);
    if decision in Decisions(rules, tool) {
      var i :| 0 <= i < |rules| && Decisions(rules, tool)[i] == decision;
      RuleMember(ids, policies, serverId, rules[i]);
    }
    if p, rule :| p in policies && Bound(ids, p) && rule in p.serverRules
                  && rule.mcpServerId == serverId && ResolvedDecision(rule, tool) == decision {
      RuleMember(ids, policies, serverId, rule);
      var i :| 0 <= i < |rules| && rules[i] == rule;
      assert Decisions(rules, tool)[i] == decision;
    }
  }

  lemma {:induction false} AllowedToolMember(server: Server, rules: seq<ServerRule>, tool: string)
    ensures tool in AllowedTools(server, rules) <==> tool in server.tools && ToolAllowed(server, rules, tool)
  {
    FilterMember(t => ToolAllowed(server, rules, t), server.tools, tool);
  }

  ghost predicate DistinctLiteLLMIds(servers: seq<Server>) {
    forall i, j :: 0 <= i < j < |servers| ==> servers[i].litellmServerId != servers[j].litellmServerId
  }

  lemma {:induction false} ToolEntry(ids: seq<string>, servers: seq<Server>, policies: seq<Policy>, k: nat)
    requires DistinctLiteLLMIds(servers) && k < |servers|
    ensures var s := servers[k];
            var tools := AllowedTools(s, RulesFor(ids, policies, s.id));
            var entries := ToolPermissions(ids, servers, policies);
            && (s.litellmServerId in entries <==> tools != [])
            && (tools != [] ==> entries[s.litellmServerId] == Unique(tools))
  {
    var front := servers[..|servers| - 1];
    if k < |servers| - 1 {
      ToolEntry(ids, front, policies, k);
    } else {
      EntriesComeFromServers(ids, front, policies, servers[k].litellmServerId);
    }
  }

  lemma {:induction false} EntriesComeFromServers(
    ids: seq<string>, servers: seq<Server>, policies: seq<Policy>, key: string)
    requires forall i :: 0 <= i < |servers| ==> servers[i].litellmServerId != key
    ensures key !in ToolPermissions(ids, servers, policies)
  {
    if servers != [] {
      EntriesComeFromServers(ids, servers[..|servers| - 1], policies, key);
    }
  }

  /** A tool is granted exactly when it is discovered, lies within the server ceiling, is
      allowed by some active bound policy and denied by none. */
  lemma {:induction false} GrantedIff(
    ids: seq<string>, servers: seq<Server>, vectorStores: seq<string>, policies: seq<Policy>, server: Server,
    tool: string)
    requires DistinctLiteLLMIds(servers) && server in servers
    ensures Granted(Effective(ids, servers, vectorStores, policies), server, tool)
            <==> && tool in server.tools && WithinCeiling(server, tool)
                 && SomeRuleDecides(ids, policies, server.id, tool, ALLOW)
                 && !SomeRuleDecides(ids, policies, server.id, tool, DENY)
  {
    hide WithinCeiling, DistinctLiteLLMIds, SomeRuleDecides;
    var k :| 0 <= k < |servers| && servers[k] == server;
    var rules := RulesFor(ids, policies, server.id);
    ToolEntry(ids, servers, policies, k);
    UniqueKeepsElements(AllowedTools(server, rules));
    assert tool in Unique(AllowedTools(server, rules)) <==> tool in Elements(AllowedTools(server, rules));
    AllowedToolMember(server, rules, tool);
    DecisionMember(ids, policies, server.id, tool, ALLOW);
    DecisionMember(ids, policies, server.id, tool, DENY);
  }

  /** A server is listed exactly when one of its tools is granted. */
  lemma {:induction false} ServerListedIff(
    ids: seq<string>, servers: seq<Server>, vectorStores: seq<string>, policies: seq<Policy>, server: Server)
    requires DistinctLiteLLMIds(servers) && server in servers
    ensures server.litellmServerId in Effective(ids, servers, vectorStores, policies).mcpServers
            <==> exists tool :: Granted(Effective(ids, servers, vectorStores, policies), server, tool)
  {
    var allowed := AllowedServers(ids, servers, policies);
    AllowedHasGrant(ids, servers, vectorStores, policies, server);
    if server in allowed {
      var i :| 0 <= i < |allowed| && allowed[i] == server;
      assert Effective(ids, servers, vectorStores, policies).mcpServers[i] == server.litellmServerId;
    }
    if i :| 0 <= i < |allowed| && allowed[i].litellmServerId == server.litellmServerId {
      FilterMember((s: Server) => AllowedTools(s, RulesFor(ids, policies, s.id)) != [], servers, allowed[i]);
      var j :| 0 <= j < |servers| && servers[j] == allowed[i];
      var k :| 0 <= k < |servers| && servers[k] == server;
      assert j == k;
    }
  }

  lemma {:induction false} GroupsMember(servers: seq<Server>, group: string)
    ensures group in Groups(servers) <==> exists s :: s in servers && group in s.accessGroups
  {
    if servers != [] {
      var lists := Map((s: Server) => s.accessGroups, servers);
      assert lists[1..] == Map((s: Server) => s.accessGroups, servers[1..]);
      GroupsMember(servers[1..], group);
      assert servers == [servers[0]] + servers[1..];
    }
  }

  /** An access group is listed exactly when it belongs to a server with a granted tool, and once. */
  lemma {:induction false} GroupListedIff(
    ids: seq<string>, servers: seq<Server>, vectorStores: seq<string>, policies: seq<Policy>, group: string)
    requires DistinctLiteLLMIds(servers)
    ensures var r := Effective(ids, servers, vectorStores, policies);
            && Distinct(r.mcpAccessGroups)
            && (group in r.mcpAccessGroups
                <==> exists s, tool :: s in servers && group in s.accessGroups && Granted(r, s, tool))
  {
    var r := Effective(ids, servers, vectorStores, policies);
    var allowed := AllowedServers(ids, servers, policies);
    UniqueKeepsElements(Groups(allowed));
    GroupsMember(allowed, group);
    assert group in r.mcpAccessGroups <==> group in Elements(r.mcpAccessGroups);
    forall s | s in servers ensures s in allowed <==> exists tool :: Granted(r, s, tool) {
      AllowedHasGrant(ids, servers, vectorStores, policies, s);
    }
    forall s | s in allowed ensures s in servers {
      FilterMember((t: Server) => AllowedTools(t, RulesFor(ids, policies, t.id)) != [], servers, s);
    }
  }

  lemma {:induction false} AllowedHasGrant(
    ids: seq<string>, servers: seq<Server>, vectorStores: seq<string>, policies: seq<Policy>, server: Server)
    requires DistinctLiteLLMIds(servers) && server in servers
    ensures server in AllowedServers(ids, servers, policies)
            <==> exists tool :: Granted(Effective(ids, servers, vectorStores, policies), server, tool)
  {
    var k :| 0 <= k < |servers| && servers[k] == server;
    var tools := AllowedTools(server, RulesFor(ids, policies, server.id));
    ToolEntry(ids, servers, policies, k);
    UniqueKeepsElements(tools);
    FilterMember((s: Server) => AllowedTools(s, RulesFor(ids, policies, s.id)) != [], servers, server);
    if tools != [] {
      assert tools[0] in Elements(tools);
      assert Granted(Effective(ids, servers, vectorStores, policies), server, tools[0]);
    }
  }

  // ------------------------------------------------------- order does not matter

  lemma {:induction false} DecisionsByRuleSet(a: seq<ServerRule>, b: seq<ServerRule>, tool: string, decision: Decision)
    requires forall rule :: rule in a ==> rule in b
    requires decision in Decisions(a, tool)
    ensures decision in Decisions(b, tool)
  {
    var i :| 0 <= i < |a| && Decisions(a, tool)[i] == decision;
    assert a[i] in b;
    var j :| 0 <= j < |b| && b[j] == a[i];
    assert Decisions(b, tool)[j] == decision;
  }

  lemma {:induction false} AllowedToolsByRuleSet(server: Server, a: seq<ServerRule>, b: seq<ServerRule>)
    requires forall rule :: rule in a <==> rule in b
    ensures AllowedTools(server, a) == AllowedTools(server, b)
  {
    forall tool ensures ToolAllowed(server, a, tool) == ToolAllowed(server, b, tool) {
      forall decision ensures decision in Decisions(a, tool) <==> decision in Decisions(b, tool) {
        if decision in Decisions(a, tool) {
          DecisionsByRuleSet(a, b, tool, decision);
        }
        if decision in Decisions(b, tool) {
          DecisionsByRuleSet(b, a, tool, decision);
        }
      }
    }
    FilterAgrees(t => ToolAllowed(server, a, t), t => ToolAllowed(server, b, t), server.tools);
    assert a == [] <==> b == [] by {
      if a != [] { assert a[0] in b; }
      if b != [] { assert b[0] in a; }
    }
  }

  /** `rule` belongs to an active bound policy. */
  ghost predicate InForce(ids: seq<string>, policies: seq<Policy>, rule: ServerRule) {
    exists p :: p in policies && Bound(ids, p) && rule in p.serverRules
  }

  /** Permissions depend on the policies and bindings only through the set of rules in force:
      order and repetition of policies, of bindings and of rules are immaterial. */
  lemma {:induction false} EffectiveByRuleSet(
    ids: seq<string>, policies: seq<Policy>, otherIds: seq<string>, other: seq<Policy>,
    servers: seq<Server>, vectorStores: seq<string>)
    requires forall rule :: InForce(ids, policies, rule) <==> InForce(otherIds, other, rule)
    ensures Effective(ids, servers, vectorStores, policies) == Effective(otherIds, servers, vectorStores, other)
  {
    forall s: Server
      ensures AllowedTools(s, RulesFor(ids, policies, s.id)) == AllowedTools(s, RulesFor(otherIds, other, s.id))
    {
      forall rule ensures rule in RulesFor(ids, policies, s.id) <==> rule in RulesFor(otherIds, other, s.id) {
        RuleMember(ids, policies, s.id, rule);
        RuleMember(otherIds, other, s.id, rule);
        assert InForce(ids, policies, rule) <==> InForce(otherIds, other, rule);
      }
      AllowedToolsByRuleSet(s, RulesFor(ids, policies, s.id), RulesFor(otherIds, other, s.id));
    }
    FilterAgrees((s: Server) => AllowedTools(s, RulesFor(ids, policies, s.id)) != [],
                 (s: Server) => AllowedTools(s, RulesFor(otherIds, other, s.id)) != [], servers);
    ToolPermissionsAgree(ids, policies, otherIds, other, servers);
  }

  lemma {:induction false} ToolPermissionsAgree(
    ids: seq<string>, policies: seq<Policy>, otherIds: seq<string>, other: seq<Policy>, servers: seq<Server>)
    requires forall s: Server ::
      AllowedTools(s, RulesFor(ids, policies, s.id)) == AllowedTools(s, RulesFor(otherIds, other, s.id))
    ensures ToolPermissions(ids, servers, policies) == ToolPermissions(otherIds, servers, other)
  {
    if servers != [] {
      ToolPermissionsAgree(ids, policies, otherIds, other, servers[..|servers| - 1]);
    }
  }

  /** Where tool names are unique within a rule, the order of its tool rules is immaterial too. */
  lemma {:induction false} ToolRuleOrder(a: ServerRule, b: ServerRule, tool: string)
    requires a.defaultDecision == b.defaultDecision
    requires Elements(a.tools) == Elements(b.tools)
    requires Distinct(Map((t: ToolRule) => t.toolName, a.tools)) && Distinct(Map((t: ToolRule) => t.toolName, b.tools))
    ensures ResolvedDecision(a, tool) == ResolvedDecision(b, tool)
  {
    FindDecisionIff(a.tools, tool);
    FindDecisionIff(b.tools, tool);
    assert forall t :: t in a.tools <==> t in Elements(a.tools);
    assert forall t :: t in b.tools <==> t in Elements(b.tools);
  }

  lemma {:induction false} FindDecisionIff(tools: seq<ToolRule>, tool: string)
    requires Distinct(Map((t: ToolRule) => t.toolName, tools))
    ensures forall d :: FindDecision(tools, tool) == Some(d) <==> ToolRule(tool, d) in tools
  {
    if tools != [] {
      var names := Map((t: ToolRule) => t.toolName, tools);
      assert Map((t: ToolRule) => t.toolName, tools[1..]) == names[1..];
      FindDecisionIff(tools[1..], tool);
      if tools[0].toolName == tool {
        forall i | 0 < i < |tools| ensures tools[i].toolName != tool {
          assert names[0] != names[i];
        }
      }
    }
  }
}
