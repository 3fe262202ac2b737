/** The service that creates, updates and deletes policies, and the permissions that it keeps
    pushed to the gateway keys of the instances. */
module AccessPolicyService {
  import opened Sequences
  import opened AccessPolicy

  datatype Source = Source(id: string, vectorStoreId: string)

  datatype Agent = Agent(
    accessPolicyIds: seq<string>, mcpServerIds: seq<string>, knowledgeSourceIds: seq<string>, tokenId: Option<string>)

  datatype PolicyInput = PolicyInput(name: string, status: Status, serverRules: seq<ServerRule>)

  datatype PolicyChange = PolicyChange(
    name: Option<string>, status: Option<Status>, serverRules: Option<seq<ServerRule>>)

  datatype Version = Version(
    policyId: string, revision: nat, actor: string, summary: string, snapshot: Policy, createdAt: string)

  /** Who calls, and what the clock shows when the row is written and when its keys have been pushed. */
  datatype Call = Call(actor: string, now: string, later: string)

  /** What a version records besides the row. */
  datatype Note = Note(actor: string, summary: string)

  /** What stays fixed: the definitions, the collation of names and the order in which the
      store lists its rows. */
  datatype Surroundings = Surroundings(
    servers: seq<Server>, sources: seq<Source>, lower: string -> string, listing: set<Policy> -> seq<Policy>)

  ghost predicate ListsRows(env: Surroundings) {
    forall rows: set<Policy> :: Elements(env.listing(rows)) == rows
  }

  datatype State = State(
    policies: map<string, Policy>, versions: seq<Version>, agents: seq<Agent>, pushed: map<string, Permissions>)

  datatype ServiceError =
    | PolicyNotFound
    | DuplicateServer
    | UnknownServer(id: string)
    | DuplicateTool(serverId: string)
    | UndiscoveredTools(serverId: string)
    | NameTaken
    | StillActive
    | InUse
    | NoPolicySelected
    | DuplicateBinding
    | UnknownPolicies
    | InactivePolicies
    | GatewayRefused
    | AssignmentFailed
    | RollbackIncomplete

  // ------------------------------------------------------------- permissions

  function PolicyList(env: Surroundings, policies: map<string, Policy>): seq<Policy> {
    env.listing(policies.Values)
  }

  function PermissionsForAgent(env: Surroundings, policies: map<string, Policy>, agent: Agent): Permissions {
    Effective(
      agent.accessPolicyIds,
      Filter((s: Server) => s.id in agent.mcpServerIds, env.servers),
      Map((k: Source) => k.vectorStoreId, Filter((k: Source) => k.id in agent.knowledgeSourceIds, env.sources)),
      PolicyList(env, policies))
  }

  /** The key of `agent`, if it has one, carries the permissions its policies give now. */
  ghost predicate Fresh(env: Surroundings, s: State, agent: Agent) {
    agent.tokenId.Some? ==>
      && agent.tokenId.value in s.pushed
      && s.pushed[agent.tokenId.value] == PermissionsForAgent(env, s.policies, agent)
  }

  /** Cache agreement. */
  ghost predicate CacheAgrees(env: Surroundings, s: State) {
    forall i :: 0 <= i < |s.agents| ==> Fresh(env, s, s.agents[i])
  }

  ghost predicate DistinctTokens(agents: seq<Agent>) {
    forall i, j :: 0 <= i < j < |agents| && agents[i].tokenId.Some? ==> agents[i].tokenId != agents[j].tokenId
  }

  ghost predicate WellKept(s: State) {
    && (forall id :: id in s.policies ==> s.policies[id].id == id)
    && (forall i, id :: 0 <= i < |s.agents| && id in s.agents[i].accessPolicyIds ==> id in s.policies)
    && DistinctTokens(s.agents)
  }

  /** Some policy that the agent is bound to carries a reconciliation error. */
  ghost predicate Flagged(s: State, agent: Agent) {
    exists id :: id in agent.accessPolicyIds && id in s.policies && s.policies[id].lastReconciliationError.Some?
  }

  /** Permissions follow from the active policies with their rules; nothing else of the
      policy rows matters. */
  lemma {:induction false} SamePermissions(
    env: Surroundings, a: map<string, Policy>, b: map<string, Policy>, agent: Agent)
    requires ListsRows(env)
    requires forall id :: id in a ==> a[id].id == id
    requires forall id :: id in b ==> b[id].id == id
    requires forall id :: id in agent.accessPolicyIds ==>
      (id in a && a[id].status == ACTIVE <==> id in b && b[id].status == ACTIVE)
    requires forall id :: id in agent.accessPolicyIds && id in a && id in b && a[id].status == ACTIVE ==>
      a[id].serverRules == b[id].serverRules
    ensures PermissionsForAgent(env, a, agent) == PermissionsForAgent(env, b, agent)
  {
    var ids := agent.accessPolicyIds;
    forall rule ensures InForce(ids, PolicyList(env, a), rule) <==> InForce(ids, PolicyList(env, b), rule) {
      InForceInMap(env, a, ids, rule);
      InForceInMap(env, b, ids, rule);
    }
    EffectiveByRuleSet(ids, PolicyList(env, a), ids, PolicyList(env, b),
      Filter((s: Server) => s.id in agent.mcpServerIds, env.servers),
      Map((k: Source) => k.vectorStoreId, Filter((k: Source) => k.id in agent.knowledgeSourceIds, env.sources)));
  }

  lemma {:induction false} InForceInMap(env: Surroundings, m: map<string, Policy>, ids: seq<string>, rule: ServerRule)
    requires ListsRows(env) && forall id :: id in m ==> m[id].id == id
    ensures InForce(ids, PolicyList(env, m), rule)
            <==> exists id :: id in m && id in ids && m[id].status == ACTIVE && rule in m[id].serverRules
  {
    var list := PolicyList(env, m);
    assert Elements(list) == m.Values;
    if InForce(ids, list, rule) {
      var p :| p in list && Bound(ids, p) && rule in p.serverRules;
      assert p in Elements(list);
      var id :| id in m && m[id] == p;
    }
    if id :| id in m && id in ids && m[id].status == ACTIVE && rule in m[id].serverRules {
      assert m[id] in Elements(list);
      assert Bound(ids, m[id]);
    }
  }

  // --------------------------------------------------------------- validation

  function FindServer(servers: seq<Server>, id: string): Option<Server> {
    if servers == [] then None
    else if servers[|servers| - 1].id == id then Some(servers[|servers| - 1])
    else FindServer(servers[..|servers| - 1], id)
  }

  predicate ToolNamesUnique(rule: ServerRule) {
    Distinct(Map((t: ToolRule) => t.toolName, rule.tools))
  }

  predicate ToolsDiscovered(rule: ServerRule, server: Server) {
    forall i :: 0 <= i < |rule.tools| ==> rule.tools[i].toolName in server.tools
  }

  function CheckRules(env: Surroundings, rules: seq<ServerRule>): Option<ServiceError> {
    if rules == [] then None
    else
      match FindServer(env.servers, rules[0].mcpServerId)
      case None => Some(UnknownServer(rules[0].mcpServerId))
      case Some(server) =>
        if !ToolNamesUnique(rules[0]) then Some(DuplicateTool(server.id))
        else if !ToolsDiscovered(rules[0], server) then Some(UndiscoveredTools(server.id))
        else CheckRules(env, rules[1..])
  }

  function Validate(env: Surroundings, input: PolicyInput): Option<ServiceError> {
    if !Distinct(Map((r: ServerRule) => r.mcpServerId, input.serverRules)) then Some(DuplicateServer)
    else CheckRules(env, input.serverRules)
  }

  predicate NameUsed(env: Surroundings, s: State, name: string, except: Option<string>) {
    exists id :: id in s.policies && Some(id) != except && env.lower(s.policies[id].name) == env.lower(name)
  }

  // --------------------------------------------------------------- operations

  function VersionOf(policy: Policy, note: Note): Version {
    Version(policy.id, policy.revision, note.actor, note.summary, policy, policy.updatedAt)
  }

  function Save(s: State, policy: Policy, note: Note): State {
    s.(policies := s.policies[policy.id := policy], versions := s.versions + [VersionOf(policy, note)])
  }

  /** Keys that reconciliation has to push, in listing order of the instances. */
  function Targets(agents: seq<Agent>, policyId: string): seq<Agent> {
    Filter((a: Agent) => policyId in a.accessPolicyIds && a.tokenId.Some?, agents)
  }

  function Push(env: Surroundings, s: State, agents: seq<Agent>): map<string, Permissions>
    requires forall i :: 0 <= i < |agents| ==> agents[i].tokenId.Some?
  {
    if agents == [] then s.pushed
    else
      var a := agents[|agents| - 1];
      Push(env, s, agents[..|agents| - 1])[a.tokenId.value := PermissionsForAgent(env, s.policies, a)]
  }

  lemma {:induction false} TargetsHaveTokens(agents: seq<Agent>, policyId: string)
    ensures forall i :: 0 <= i < |Targets(agents, policyId)| ==>
      && Targets(agents, policyId)[i].tokenId.Some? && policyId in Targets(agents, policyId)[i].accessPolicyIds
      && Targets(agents, policyId)[i] in agents
  {
    var keep := (a: Agent) => policyId in a.accessPolicyIds && a.tokenId.Some?;
    forall i | 0 <= i < |Targets(agents, policyId)|
      ensures Targets(agents, policyId)[i] in agents && keep(Targets(agents, policyId)[i])
    {
      FilterMember(keep, agents, Targets(agents, policyId)[i]);
    }
  }

  const PUSH_FAILED := "LiteLLM reconciliation failed."

  /** `failsAt` says after how many pushes the gateway throws, if it does. */
  function Reconcile(
    env: Surroundings, s: State, policy: Policy, failsAt: Option<nat>, later: string): (State, Policy) {
    var targets := Targets(s.agents, policy.id);
    TargetsHaveTokens(s.agents, policy.id);
    var fails := failsAt.Some? && failsAt.value <= |targets|;
    var reached := if fails then targets[..failsAt.value] else targets;
    var stored := if fails then policy.(lastReconciliationError := Some(PUSH_FAILED))
                  else policy.(lastReconciliationError := None, lastReconciledAt := Some(later));
    (s.(pushed := Push(env, s, reached), policies := s.policies[policy.id := stored]), stored)
  }

  const CREATED := "Policy created."
  const UNCHANGED := "Policy saved."

  function NewPolicy(id: string, input: PolicyInput, call: Call): Policy {
    Policy(id, input.name, input.status, input.serverRules, 1, call.actor, call.now, call.now, None, None)
  }

  function Create(env: Surroundings, s: State, id: string, input: PolicyInput, call: Call)
    : (State, Result<Policy, ServiceError>)
  {
    var invalid := Validate(env, input);
    if invalid.Some? then (s, Err(invalid.value))
    else if NameUsed(env, s, input.name, None) then (s, Err(NameTaken))
    else
      var policy := NewPolicy(id, input, call);
      (Save(s, policy, Note(call.actor, CREATED)), Ok(policy))
  }

  function Merged(current: Policy, change: PolicyChange): PolicyInput {
    PolicyInput(
      if change.name.Some? then change.name.value else current.name,
      if change.status.Some? then change.status.value else current.status,
      if change.serverRules.Some? then change.serverRules.value else current.serverRules)
  }

  function Revised(current: Policy, next: PolicyInput, now: string): Policy {
    current.(name := next.name, status := next.status, serverRules := next.serverRules,
             revision := current.revision + 1, updatedAt := now, lastReconciliationError := None)
  }

  function StatusName(status: Status): string {
    match status
    case DRAFT => "DRAFT"
    case ACTIVE => "ACTIVE"
  }

  /** What has changed, one sentence each. */
  function Changes(current: Policy, next: Policy): seq<string> {
    (if current.status != next.status then ["Status changed to " + StatusName(next.status) + "."] else [])
    + (if current.serverRules != next.serverRules then ["MCP tool rules updated."] else [])
    + (if current.name != next.name then ["Policy name updated."] else [])
  }

  function Spaced(sentences: seq<string>): string {
    if sentences == [] then ""
    else if |sentences| == 1 then sentences[0]
    else sentences[0] + " " + Spaced(sentences[1..])
  }

  function ChangeSummary(current: Policy, next: Policy): string {
    var changes := Spaced(Changes(current, next));
    if changes == "" then UNCHANGED else changes
  }

  function Update(
    env: Surroundings, s: State, id: string, change: PolicyChange, call: Call, failsAt: Option<nat>)
    : (State, Result<Policy, ServiceError>)
  {
    if id !in s.policies then (s, Err(PolicyNotFound))
    else
      var current := s.policies[id];
      var next := Merged(current, change);
      var invalid := Validate(env, next);
      if invalid.Some? then (s, Err(invalid.value))
      else if NameUsed(env, s, next.name, Some(id)) then (s, Err(NameTaken))
      else
        var policy := Revised(current, next, call.now);
        var saved := Save(s, policy, Note(call.actor, ChangeSummary(current, policy)));
        if current.status == ACTIVE || policy.status == ACTIVE then
          var r := Reconcile(env, saved, policy, failsAt, call.later);
          (r.0, Ok(r.1))
        else (saved, Ok(policy))
  }

  function Delete(s: State, id: string): (State, Result<bool, ServiceError>) {
    if id !in s.policies then (s, Err(PolicyNotFound))
    else if s.policies[id].status == ACTIVE then (s, Err(StillActive))
    else if exists i :: 0 <= i < |s.agents| && id in s.agents[i].accessPolicyIds then (s, Err(InUse))
    else (s.(policies := s.policies - {id}), Ok(true))
  }

  /** The bindings an instance may be given. */
  function AssertActivePolicyIds(s: State, ids: seq<string>): Option<ServiceError> {
    if ids == [] then Some(NoPolicySelected)
    else if !Distinct(ids) then Some(DuplicateBinding)
    else if !(forall i :: 0 <= i < |ids| ==> ids[i] in s.policies) then Some(UnknownPolicies)
    else if !(forall i :: 0 <= i < |ids| ==> s.policies[ids[i]].status == ACTIVE) then Some(InactivePolicies)
    else None
  }

  /** How the calls of a rebinding turn out: the push, the replacement of the bindings, the saving of
      the instance and, when either of these fails, putting back the bindings and the key. */
  datatype Outcomes = Outcomes(pushed: bool, replaced: bool, saved: bool, unbound: bool, restored: bool)

  predicate Succeeds(o: Outcomes) {
    o.replaced && o.saved
  }

  /** The instance keeps its new bindings: the rebinding succeeded, or could not be undone. */
  predicate BoundAnew(o: Outcomes) {
    o.replaced && (o.saved || !o.unbound)
  }

  /** Rebinding the instance at position `k`. The key is pushed first. */
  function Assign(env: Surroundings, s: State, k: nat, ids: seq<string>, o: Outcomes): (State, Option<ServiceError>)
    requires k < |s.agents|
  {
    var refused := AssertActivePolicyIds(s, ids);
    var current := s.agents[k];
    if refused.Some? then (s, refused)
    else if current.tokenId.Some? && !o.pushed then (s, Some(GatewayRefused))
    else
      var next := current.(accessPolicyIds := ids);
      var granted := if Succeeds(o) || !o.restored then next else current;
      var pushed := if current.tokenId.Some?
                    then s.pushed[current.tokenId.value := PermissionsForAgent(env, s.policies, granted)] else s.pushed;
      var after := s.(agents := s.agents[k := if BoundAnew(o) then next else current], pushed := pushed);
      if Succeeds(o) then (after, None)
      else if o.unbound && (current.tokenId.None? || o.restored) then (after, Some(AssignmentFailed))
      else (after, Some(RollbackIncomplete))
  }

  // ------------------------------------------------------------------ the class

  /** The service over its mutable store and gateway. */
  class Service {
    const env: Surroundings
    var policies: map<string, Policy>
    var versions: seq<Version>
    var agents: seq<Agent>
    var pushed: map<string, Permissions>

    constructor (env: Surroundings, agents: seq<Agent>)
      ensures this.env == env && Contents() == State(map[], [], agents, map[])
    {
      this.env := env;
      policies, versions, this.agents, pushed := map[], [], agents, map[];
    }

    function Contents(): State
      reads this
    {
      State(policies, versions, agents, pushed)
    }

    method SavePolicy(policy: Policy, note: Note)
      modifies this`policies, this`versions
      ensures Contents() == Save(old(Contents()), policy, note)
    {
      policies := policies[policy.id := policy];
      versions := versions + [VersionOf(policy, note)];
    }

    method CreatePolicy(id: string, input: PolicyInput, call: Call) returns (r: Result<Policy, ServiceError>)
      modifies this
      ensures (Contents(), r) == Create(env, old(Contents()), id, input, call)
    {
      var invalid := Validate(env, input);
      if invalid.Some? {
        return Err(invalid.value);
      }
      if NameUsed(env, Contents(), input.name, None) {
        return Err(NameTaken);
      }
      var policy := NewPolicy(id, input, call);
      SavePolicy(policy, Note(call.actor, CREATED));
      r := Ok(policy);
    }

    method UpdatePolicy(
      id: string, change: PolicyChange, call: Call, failsAt: Option<nat>) returns (r: Result<Policy, ServiceError>)
      modifies this
      ensures (Contents(), r) == Update(env, old(Contents()), id, change, call, failsAt)
    {
      hide Validate, NameUsed, Reconcile, ChangeSummary;
      if id !in policies {
        return Err(PolicyNotFound);
      }
      var current := policies[id];
      var next := Merged(current, change);
      var invalid := Validate(env, next);
      if invalid.Some? {
        return Err(invalid.value);
      }
      if NameUsed(env, Contents(), next.name, Some(id)) {
        return Err(NameTaken);
      }
      var policy := Revised(current, next, call.now);
      SavePolicy(policy, Note(call.actor, ChangeSummary(current, policy)));
      if current.status == ACTIVE || policy.status == ACTIVE {
        policy := ReconcilePolicy(policy, failsAt, call.later);
      }
      r := Ok(policy);
    }

    /** Pushes the keys one by one, until done or until the gateway throws. */
    method ReconcilePolicy(policy: Policy, failsAt: Option<nat>, later: string) returns (stored: Policy)
      modifies this`policies, this`pushed
      ensures (Contents(), stored) == Reconcile(env, old(Contents()), policy, failsAt, later)
    {
      hide PermissionsForAgent, Targets;
      var targets := Targets(agents, policy.id);
      TargetsHaveTokens(agents, policy.id);
      ghost var before := Contents();
      var i := 0;
      while i < |targets| && failsAt != Some(i)
        invariant i <= |targets| && (failsAt.Some? ==> i <= failsAt.value)
        invariant policies == before.policies && agents == before.agents && versions == before.versions
        invariant pushed == Push(env, before, targets[..i])
      {
        assert targets[..i + 1][..i] == targets[..i];
        pushed := pushed[targets[i].tokenId.value := PermissionsForAgent(env, policies, targets[i])];
        i := i + 1;
      }
      assert i == |targets| ==> targets[..i] == targets;
      if failsAt == Some(i) {
        stored := policy.(lastReconciliationError := Some(PUSH_FAILED));
      } else {
        stored := policy.(lastReconciliationError := None, lastReconciledAt := Some(later));
      }
      policies := policies[policy.id := stored];
    }

    method DeletePolicy(id: string) returns (r: Result<bool, ServiceError>)
      modifies this
      ensures (Contents(), r) == Delete(old(Contents()), id)
    {
      if id !in policies {
        return Err(PolicyNotFound);
      }
      if policies[id].status == ACTIVE {
        return Err(StillActive);
      }
      if exists i :: 0 <= i < |agents| && id in agents[i].accessPolicyIds {
        return Err(InUse);
      }
      policies := policies - {id};
      r := Ok(true);
    }

    method AssignPolicies(k: nat, ids: seq<string>, o: Outcomes) returns (refused: Option<ServiceError>)
      requires k < |agents|
      modifies this
      ensures (Contents(), refused) == Assign(env, old(Contents()), k, ids, o)
    {
      hide PermissionsForAgent, AssertActivePolicyIds;
      refused := AssertActivePolicyIds(Contents(), ids);
      if refused.Some? {
        return;
      }
      var current := agents[k];
      var next := current.(accessPolicyIds := ids);
      if current.tokenId.Some? {
        if !o.pushed {
          return Some(GatewayRefused);
        }
        pushed := pushed[current.tokenId.value := PermissionsForAgent(env, policies, next)];
      }
      if o.replaced {
        agents := agents[k := next];
      }
      if o.replaced && o.saved {
        return None;
      }
      var incomplete := !o.unbound;
      if o.unbound {
        agents := agents[k := current];
      }
      if current.tokenId.Some? {
        if o.restored {
          pushed := pushed[current.tokenId.value := PermissionsForAgent(env, policies, current)];
          assert pushed == old(pushed)[current.tokenId.value := PermissionsForAgent(env, policies, current)];
        } else {
          incomplete := true;
        }
      }
      assert agents == if BoundAnew(o) then old(agents)[k := next] else old(agents)[k := current];
      refused := Some(if incomplete then RollbackIncomplete else AssignmentFailed);
    }
  }
}
