/** When the operations of the policy service succeed and what they write, field by field. */
module PolicyOperations {
  import opened Sequences
  import opened AccessPolicy
  import opened AccessPolicyService
  import opened CacheAgreement
  import opened PolicyGrants
  import PolicyHistory

  // ------------------------------------------------------------------ validation

  /** The server that the rule speaks of is known, by its last definition, and has discovered all its tools. */
  ghost predicate OnServer(env: Surroundings, rule: ServerRule, k: int) {
    && 0 <= k < |env.servers| && env.servers[k].id == rule.mcpServerId
    && forall j :: k < j < |env.servers| ==> env.servers[j].id != rule.mcpServerId
  }

  ghost predicate RuleWritten(env: Surroundings, rule: ServerRule) {
    && UniqueTools(rule)
    && exists k :: OnServer(env, rule, k) && forall t :: t in rule.tools ==> t.toolName in env.servers[k].tools
  }

  ghost predicate RulesWritten(env: Surroundings, rules: seq<ServerRule>) {
    && (forall i, j :: 0 <= i < j < |rules| ==> rules[i].mcpServerId != rules[j].mcpServerId)
    && forall rule :: rule in rules ==> RuleWritten(env, rule)
  }

  lemma {:induction false} FoundServer(servers: seq<Server>, id: string, k: int)
    requires 0 <= k < |servers| && servers[k].id == id && forall j :: k < j < |servers| ==> servers[j].id != id
    ensures FindServer(servers, id) == Some(servers[k])
  {
    if k < |servers| - 1 {
      FoundServer(servers[..|servers| - 1], id, k);
    }
  }

  lemma {:induction false} ServerAt(servers: seq<Server>, id: string) returns (k: nat)
    requires FindServer(servers, id).Some?
    ensures k < |servers| && servers[k] == FindServer(servers, id).value && servers[k].id == id
    ensures forall j :: k < j < |servers| ==> servers[j].id != id
  {
    k := |servers| - 1;
    if servers[k].id != id {
      k := ServerAt(servers[..|servers| - 1], id);
    }
  }

  lemma {:induction false} RuleOkAsWritten(env: Surroundings, rule: ServerRule)
    ensures PolicyHistory.RuleOk(env, rule) <==> RuleWritten(env, rule)
  {
    var names := Map((t: ToolRule) => t.toolName, rule.tools);
    assert ToolNamesUnique(rule) <==> UniqueTools(rule);
    if FindServer(env.servers, rule.mcpServerId).Some? {
      var k := ServerAt(env.servers, rule.mcpServerId);
      assert OnServer(env, rule, k);
      assert ToolsDiscovered(rule, env.servers[k])
         <==> forall t :: t in rule.tools ==> t.toolName in env.servers[k].tools;
    }
    if k :| OnServer(env, rule, k) {
      FoundServer(env.servers, rule.mcpServerId, k);
      forall j | OnServer(env, rule, j) ensures j == k {
      }
    }
  }

  /** Validation passes exactly when no two rules share a server, and each rule names a known server and, once
      each, tools that this server has discovered. */
  lemma {:induction false} ValidAsWritten(env: Surroundings, input: PolicyInput)
    ensures Validate(env, input) == None <==> RulesWritten(env, input.serverRules)
  {
    var rules := input.serverRules;
    PolicyHistory.ValidIffRulesOk(env, input);
    forall rule ensures PolicyHistory.RuleOk(env, rule) <==> RuleWritten(env, rule) {
      RuleOkAsWritten(env, rule);
    }
    hide PolicyHistory.RuleOk, RuleWritten;
    var ids := Map((r: ServerRule) => r.mcpServerId, rules);
    assert Distinct(ids) <==> forall i, j :: 0 <= i < j < |rules| ==> rules[i].mcpServerId != rules[j].mcpServerId;
  }

  /** Validation complains of the first rule that is not in order: of its server, then of a repeated tool, then
      of an undiscovered one. */
  lemma {:induction false} FirstBadRule(env: Surroundings, rules: seq<ServerRule>, k: nat)
    requires k < |rules| && !RuleWritten(env, rules[k])
    requires forall i :: 0 <= i < k ==> RuleWritten(env, rules[i])
    ensures CheckRules(env, rules)
         == Some(if forall j :: 0 <= j < |env.servers| ==> env.servers[j].id != rules[k].mcpServerId
                 then UnknownServer(rules[k].mcpServerId)
                 else if !UniqueTools(rules[k]) then DuplicateTool(rules[k].mcpServerId)
                 else UndiscoveredTools(rules[k].mcpServerId))
  {
    RuleOkAsWritten(env, rules[0]);
    if FindServer(env.servers, rules[0].mcpServerId).Some? {
      var j := ServerAt(env.servers, rules[0].mcpServerId);
    } else {
      NoServer(env.servers, rules[0].mcpServerId);
    }
    var names := Map((t: ToolRule) => t.toolName, rules[0].tools);
    assert ToolNamesUnique(rules[0]) <==> UniqueTools(rules[0]);
    if k > 0 {
      assert forall i :: 0 <= i < |rules| - 1 ==> rules[1..][i] == rules[i + 1];
      FirstBadRule(env, rules[1..], k - 1);
    }
  }

  lemma {:induction false} NoServer(servers: seq<Server>, id: string)
    ensures FindServer(servers, id) == None <==> forall j :: 0 <= j < |servers| ==> servers[j].id != id
  {
    if servers != [] {
      NoServer(servers[..|servers| - 1], id);
    }
  }

  /** Before that it complains of two rules for one server. */
  lemma {:induction false} DuplicateServerFirst(env: Surroundings, input: PolicyInput)
    ensures var rules := input.serverRules;
            Validate(env, input)
            == if exists i, j :: 0 <= i < j < |rules| && rules[i].mcpServerId == rules[j].mcpServerId
               then Some(DuplicateServer) else CheckRules(env, rules)
  {
    hide CheckRules;
    var ids := Map((r: ServerRule) => r.mcpServerId, input.serverRules);
    assert forall i :: 0 <= i < |ids| ==> ids[i] == input.serverRules[i].mcpServerId;
  }

  /** No policy but `except` has the name, up to case. */
  ghost predicate NameFree(env: Surroundings, s: State, name: string, except: Option<string>) {
    forall id :: id in s.policies && except != Some(id) ==> env.lower(s.policies[id].name) != env.lower(name)
  }

  // -------------------------------------------------------------------- creation

  /** A policy is created exactly when its rules are in order and its name is free; a refusal changes nothing. */
  lemma {:induction false} CreateIff(env: Surroundings, s: State, id: string, input: PolicyInput, call: Call)
    ensures var r := Create(env, s, id, input, call);
            && (r.1.Ok? <==> RulesWritten(env, input.serverRules) && NameFree(env, s, input.name, None))
            && (r.1.Err? ==> r.0 == s)
            && (r.1.Err? && RulesWritten(env, input.serverRules) ==> r.1.error == NameTaken)
  {
    ValidAsWritten(env, input);
    hide Validate, RulesWritten;
  }

  /** The new row holds the input, the first revision, its creator and the date; its version is a copy. No other
      row, no instance and no key changes. */
  lemma {:induction false} CreateWrites(
    env: Surroundings, s: State, id: string, input: PolicyInput, call: Call, other: string)
    requires Create(env, s, id, input, call).1.Ok?
    ensures var r := Create(env, s, id, input, call);
            && r.0.agents == s.agents && r.0.pushed == s.pushed
            && id in r.0.policies && r.1.value == r.0.policies[id]
            && r.0.policies[id] == Policy(id, input.name, input.status, input.serverRules, 1,
                                          call.actor, call.now, call.now, None, None)
            && r.0.versions == s.versions + [Version(id, 1, call.actor, "Policy created.", r.0.policies[id], call.now)]
            && (other != id ==>
                  && (other in r.0.policies <==> other in s.policies)
                  && (other in s.policies ==> r.0.policies[other] == s.policies[other]))
  {
    hide Validate, NameUsed;
  }

  // --------------------------------------------------------------------- updates

  function NewName(p: Policy, change: PolicyChange): string {
    if change.name.Some? then change.name.value else p.name
  }

  function NewStatus(p: Policy, change: PolicyChange): Status {
    if change.status.Some? then change.status.value else p.status
  }

  function NewRules(p: Policy, change: PolicyChange): seq<ServerRule> {
    if change.serverRules.Some? then change.serverRules.value else p.serverRules
  }

  /** An update goes through exactly when the policy exists, the rules it ends up with are in order and the
      name it ends up with is free; a refusal changes nothing and names the first reason. */
  lemma {:induction false} UpdateIff(
    env: Surroundings, s: State, id: string, change: PolicyChange, call: Call, failsAt: Option<nat>)
    ensures var r := Update(env, s, id, change, call, failsAt);
            && (r.1.Ok? <==> && id in s.policies && RulesWritten(env, NewRules(s.policies[id], change))
                             && NameFree(env, s, NewName(s.policies[id], change), Some(id)))
            && (r.1.Err? ==> r.0 == s)
            && (id !in s.policies ==> r.1 == Err(PolicyNotFound))
            && (r.1.Err? && id in s.policies && RulesWritten(env, NewRules(s.policies[id], change)) ==>
                  r.1.error == NameTaken)
  {
    if id in s.policies {
      ValidAsWritten(env, Merged(s.policies[id], change));
    }
    hide Validate, RulesWritten, Reconcile;
  }

  /** The row after an update: what the change gives, the next revision and its date, with its origin kept. */
  ghost predicate UpdatedRowIs(before: Policy, after: Policy, change: PolicyChange, call: Call) {
    && after.id == before.id && after.createdBy == before.createdBy && after.createdAt == before.createdAt
    && after.revision == before.revision + 1 && after.updatedAt == call.now
    && after.name == NewName(before, change)
    && after.status == NewStatus(before, change)
    && after.serverRules == NewRules(before, change)
  }

  /** The row takes over what the change gives and keeps the rest, with the next revision; one version is added
      for it. No other row and no instance changes. */
  lemma {:induction false} UpdateWrites(
    env: Surroundings, s: State, id: string, change: PolicyChange, call: Call, failsAt: Option<nat>, other: string)
    requires WellKept(s) && Update(env, s, id, change, call, failsAt).1.Ok?
    ensures var r := Update(env, s, id, change, call, failsAt);
            && id in s.policies && id in r.0.policies && r.1.value == r.0.policies[id]
            && UpdatedRowIs(s.policies[id], r.0.policies[id], change, call)
            && r.0.agents == s.agents
            && |r.0.versions| == |s.versions| + 1 && r.0.versions[..|s.versions|] == s.versions
            && var v := r.0.versions[|s.versions|];
               && v.policyId == id && v.revision == s.policies[id].revision + 1 && v.actor == call.actor
               && v.createdAt == call.now && UpdatedRowIs(s.policies[id], v.snapshot, change, call)
    ensures var r := Update(env, s, id, change, call, failsAt);
            other != id ==>
              && (other in r.0.policies <==> other in s.policies)
              && (other in s.policies ==> r.0.policies[other] == s.policies[other])
  {
    hide Validate, NameUsed, Push, ChangeSummary, Targets;
    TargetsHaveTokens(s.agents, id);
  }

  /** Keys are pushed by an update exactly if the policy was active or is active now, and then to the instances
      bound to it that have one, in listing order, until the gateway refuses. */
  lemma {:induction false} UpdatePushes(
    env: Surroundings, s: State, id: string, change: PolicyChange, call: Call, failsAt: Option<nat>)
    requires WellKept(s) && Update(env, s, id, change, call, failsAt).1.Ok?
    ensures id in s.policies
    ensures var r, before := Update(env, s, id, change, call, failsAt).0, s.policies[id];
            var pushes := before.status == ACTIVE || NewStatus(before, change) == ACTIVE;
            var keys := Filter((a: Agent) => id in a.accessPolicyIds && a.tokenId.Some?, s.agents);
            var refused := failsAt.Some? && failsAt.value <= |keys|;
            var row := r.policies[id];
            && (!pushes ==> && r.pushed == s.pushed && row.lastReconciledAt == before.lastReconciledAt
                            && row.lastReconciliationError == None)
            && (pushes && !refused ==> row.lastReconciledAt == Some(call.later) && row.lastReconciliationError == None)
            && (pushes && refused ==>
                  && row.lastReconciledAt == before.lastReconciledAt
                  && row.lastReconciliationError == Some("LiteLLM reconciliation failed."))
  {
    hide Validate, NameUsed, Push, ChangeSummary;
    TargetsHaveTokens(s.agents, id);
  }

  /** Key `i` of those to push is written exactly if the gateway has not refused before it, with what the
      instance is allowed by the policies as saved. */
  lemma {:induction false} KeyIsPushed(
    env: Surroundings, s: State, policy: Policy, failsAt: Option<nat>, later: string, i: nat)
    requires WellKept(s) && policy.id in s.policies && i < |Targets(s.agents, policy.id)|
    ensures Targets(s.agents, policy.id)[i].tokenId.Some?
    ensures var agent := Targets(s.agents, policy.id)[i];
            var r := Reconcile(env, s, policy, failsAt, later).0;
            var token := agent.tokenId.value;
            if failsAt.Some? && failsAt.value <= i
            then
              && (token in r.pushed <==> token in s.pushed)
              && (token in s.pushed ==> r.pushed[token] == s.pushed[token])
            else token in r.pushed && r.pushed[token] == PermissionsForAgent(env, s.policies, agent)
  {
    hide PermissionsForAgent;
    var targets := Targets(s.agents, policy.id);
    TargetsHaveTokens(s.agents, policy.id);
    FilterKeepsTokens(s.agents, policy.id);
    var fails := failsAt.Some? && failsAt.value <= |targets|;
    var reached := if fails then targets[..failsAt.value] else targets;
    hide Push, Targets;
    if failsAt.Some? && failsAt.value <= i {
      UnpushedKey(env, s, reached, targets[i].tokenId.value);
    } else {
      PushedKey(env, s, reached, i);
    }
  }

  // -------------------------------------------------------------------- deletion

  /** A policy is deleted exactly when it exists, is not active and no instance is bound to it; then its row goes
      and nothing else changes. */
  lemma {:induction false} DeleteIff(s: State, id: string)
    ensures var r := Delete(s, id);
            && (r.1.Ok? <==> id in s.policies && s.policies[id].status != ACTIVE
                             && forall a :: a in s.agents ==> id !in a.accessPolicyIds)
            && (r.1.Ok? ==> r.1.value && r.0 == s.(policies := s.policies - {id}))
            && (r.1.Err? ==> && r.0 == s
                             && r.1.error == if id !in s.policies then PolicyNotFound
                                             else if s.policies[id].status == ACTIVE then StillActive else InUse)
  {
  }

  // ------------------------------------------------------------------ assignment

  /** Bindings are accepted exactly when there is at least one, none is repeated, and each is an active policy. */
  lemma {:induction false} BindingsIff(s: State, ids: seq<string>)
    ensures AssertActivePolicyIds(s, ids) == None
            <==> && |ids| >= 1 && (forall i, j :: 0 <= i < j < |ids| ==> ids[i] != ids[j])
                 && forall id :: id in ids ==> id in s.policies && s.policies[id].status == ACTIVE
  {
  }

  /** A rebinding that goes through gives the instance its new bindings and its key what they allow; one that
      is refused or undone leaves the bindings as they were. */
  lemma {:induction false} AssignWrites(
    env: Surroundings, s: State, k: nat, ids: seq<string>, o: Outcomes, i: nat)
    requires k < |s.agents| && i < |s.agents|
    ensures var r, next := Assign(env, s, k, ids, o), s.agents[k].(accessPolicyIds := ids);
            && r.0.policies == s.policies && r.0.versions == s.versions && |r.0.agents| == |s.agents|
            && (i != k ==> r.0.agents[i] == s.agents[i])
            && (r.1 == None <==> && AssertActivePolicyIds(s, ids) == None && (s.agents[k].tokenId.Some? ==> o.pushed)
                                 && o.replaced && o.saved)
            && (r.1 == None ==>
                  && r.0.agents[k] == next
                  && (next.tokenId.Some? ==>
                        && next.tokenId.value in r.0.pushed
                        && r.0.pushed[next.tokenId.value] == PermissionsForAgent(env, s.policies, next)))
            && (r.1.Some? && r.1.value != RollbackIncomplete ==> r.0.agents == s.agents)
            && (r.1.Some? && r.1.value != RollbackIncomplete && r.1.value != AssignmentFailed ==> r.0 == s)
  {
    hide PermissionsForAgent, AssertActivePolicyIds;
    BindingErrors(s, ids);
    assert s.agents[k := s.agents[k]] == s.agents;
  }

  lemma {:induction false} BindingErrors(s: State, ids: seq<string>)
    ensures var e := AssertActivePolicyIds(s, ids);
            e.Some? ==> e.value == if ids == [] then NoPolicySelected
                                   else if exists i, j :: 0 <= i < j < |ids| && ids[i] == ids[j] then DuplicateBinding
                                   else if exists id :: id in ids && id !in s.policies then UnknownPolicies
                                   else InactivePolicies
  {
  }
}
