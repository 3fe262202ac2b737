/** How a key that a failed push left out of date can lose its only mark. */
module LostFlags {
  import opened Sequences
  import opened AccessPolicy
  import opened AccessPolicyService
  import opened CacheAgreement

  const DRAFTED := PolicyChange(None, Some(DRAFT), None)

  function Renamed(name: string): PolicyChange {
    PolicyChange(Some(name), None, None)
  }

  /** Drafting a policy while the gateway refuses the first push, then renaming the draft. */
  function DraftThenRename(id: string, name: string, call: Call): seq<Step> {
    [UpdateStep(id, DRAFTED, call, Some(0)), UpdateStep(id, Renamed(name), call, None)]
  }

  function DraftRow(row: Policy): Policy {
    row.(status := DRAFT)
  }

  /** After the refused push the row is a draft that carries the error; no key has changed. */
  lemma {:induction false} RefusedDraft(env: Surroundings, s: State, id: string, call: Call)
    requires WellKept(s) && id in s.policies && s.policies[id].status == ACTIVE
    requires UpdateAccepted(env, s, id, DRAFTED)
    ensures var r := Update(env, s, id, DRAFTED, call, Some(0)).0;
            && r.pushed == s.pushed && r.agents == s.agents && WellKept(r)
            && id in r.policies && r.policies == s.policies[id := r.policies[id]]
            && r.policies[id].status == DRAFT && r.policies[id].serverRules == s.policies[id].serverRules
            && r.policies[id].lastReconciliationError.Some?
  {
    hide UpdateAccepted, Update, ChangeSummary;
    UpdateState(env, s, id, DRAFTED, call, Some(0));
    UpdateKeepsKept(env, s, id, DRAFTED, call, Some(0));
  }

  /** An update of a draft that stays one leaves a row without an error. */
  lemma {:induction false} RenamedDraft(env: Surroundings, s: State, id: string, name: string, call: Call)
    requires WellKept(s) && id in s.policies && s.policies[id].status == DRAFT
    requires UpdateAccepted(env, s, id, Renamed(name))
    ensures var r := Update(env, s, id, Renamed(name), call, None).0;
            && r.pushed == s.pushed && r.agents == s.agents && WellKept(r)
            && id in r.policies && r.policies == s.policies[id := r.policies[id]]
            && r.policies[id].status == DRAFT && r.policies[id].serverRules == s.policies[id].serverRules
            && r.policies[id].lastReconciliationError.None?
  {
    hide UpdateAccepted, Update, ChangeSummary;
    UpdateState(env, s, id, Renamed(name), call, None);
    UpdateKeepsKept(env, s, id, Renamed(name), call, None);
  }

  lemma {:induction false} StillAccepted(env: Surroundings, s: State, r: State, id: string, name: string)
    requires id in s.policies && UpdateAccepted(env, s, id, Renamed(name))
    requires id in r.policies && r.policies == s.policies[id := r.policies[id]]
    requires r.policies[id].serverRules == s.policies[id].serverRules
    ensures UpdateAccepted(env, r, id, Renamed(name))
  {
    hide CheckRules;
    assert forall other :: other != id && other in r.policies ==> other in s.policies;
  }

  /** From agreement, the two updates leave an instance with a stale key and no mark exactly when
      drafting the policy changes what the instance is allowed, and no other of its policies is marked. */
  lemma {:induction false} DraftThenRenameIff(
    env: Surroundings, s: State, id: string, k: nat, name: string, call: Call)
    requires ListsRows(env) && WellKept(s) && CacheAgrees(env, s)
    requires id in s.policies && s.policies[id].status == ACTIVE
    requires UpdateAccepted(env, s, id, DRAFTED) && UpdateAccepted(env, s, id, Renamed(name))
    requires k < |s.agents| && id in s.agents[k].accessPolicyIds && s.agents[k].tokenId.Some?
    ensures Runnable(env, s, DraftThenRename(id, name, call))
    ensures var r, agent := AfterSteps(env, s, DraftThenRename(id, name, call)), s.agents[k];
            && r.agents == s.agents
            && (!Fresh(env, r, agent) && !Flagged(r, agent)
                <==> && !FlaggedElsewhere(s, agent, id)
                     && PermissionsForAgent(env, s.policies[id := DraftRow(s.policies[id])], agent)
                        != PermissionsForAgent(env, s.policies, agent))
  {
    hide UpdateAccepted, Update, PermissionsForAgent, ListsRows, Validate, NameUsed;
    var agent, drafted := s.agents[k], s.policies[id := DraftRow(s.policies[id])];
    var t := Update(env, s, id, DRAFTED, call, Some(0)).0;
    RefusedDraft(env, s, id, call);
    StillAccepted(env, s, t, id, name);
    var r := Update(env, t, id, Renamed(name), call, None).0;
    RenamedDraft(env, t, id, name, call);
    TwoSteps(env, s, UpdateStep(id, DRAFTED, call, Some(0)), UpdateStep(id, Renamed(name), call, None));
    SamePermissions(env, r.policies, drafted, agent);
    FlagsElsewhere(s, r, agent, id);
    assert Fresh(env, s, agent);
  }

  lemma {:induction false} TwoSteps(env: Surroundings, s: State, a: Step, b: Step)
    requires Enabled(s, a) && Enabled(Do(env, s, a), b)
    ensures Runnable(env, s, [a, b]) && AfterSteps(env, s, [a, b]) == Do(env, Do(env, s, a), b)
  {
    assert [a, b][1..] == [b] && [b][1..] == [];
    var t := Do(env, s, a);
    hide Do, Enabled;
    assert Runnable(env, t, [b]);
    assert AfterSteps(env, t, [b]) == AfterSteps(env, Do(env, t, b), []) == Do(env, t, b);
  }

  // -------------------------------------------------------------------- a witness

  const SERVER := Server("server", "gateway-server", ["search"], [], [])
  const ADMIN := Call("admin", "2026-01-01", "2026-01-02")
  const POLICY :=
    NewPolicy("policy", PolicyInput("Search", ACTIVE, [ServerRule("server", ALLOW, [])]), ADMIN)
  const INSTANCE := Agent(["policy"], ["server"], [], Some("token"))

  /** One active policy that allows one tool, bound to one instance whose key is up to date. */
  function OneInstance(env: Surroundings): State {
    var policies := map["policy" := POLICY];
    State(
      policies, [VersionOf(POLICY, Note("admin", CREATED))], [INSTANCE],
      map["token" := PermissionsForAgent(env, policies, INSTANCE)])
  }

  lemma {:induction false} OneInstanceAgrees(env: Surroundings)
    requires ListsRows(env) && env.servers == [SERVER]
    ensures WellKept(OneInstance(env)) && CacheAgrees(env, OneInstance(env))
    ensures UpdateAccepted(env, OneInstance(env), "policy", DRAFTED)
    ensures UpdateAccepted(env, OneInstance(env), "policy", Renamed("Lookup"))
  {
    hide PermissionsForAgent, ListsRows;
    var s := OneInstance(env);
    assert POLICY.serverRules[1..] == [];
    assert FindServer(env.servers, "server") == Some(SERVER);
    assert CheckRules(env, []) == None;
    assert CheckRules(env, POLICY.serverRules) == None;
    assert Validate(env, Merged(POLICY, DRAFTED)) == None;
  }

  /** The tool is granted while the policy is active and not once it is a draft. */
  lemma {:induction false} DraftingRevokes(env: Surroundings)
    requires ListsRows(env) && env.servers == [SERVER]
    ensures PermissionsForAgent(env, map["policy" := DraftRow(POLICY)], INSTANCE)
         != PermissionsForAgent(env, map["policy" := POLICY], INSTANCE)
  {
    GrantedWhile(env, POLICY);
    GrantedWhile(env, DraftRow(POLICY));
  }

  lemma {:induction false} OneServer(env: Surroundings, agent: Agent)
    requires env.servers == [SERVER] && agent.mcpServerIds == ["server"]
    ensures Filter((s: Server) => s.id in agent.mcpServerIds, env.servers) == [SERVER]
  {
    var rest := env.servers[1..];
    assert rest == [];
    assert Filter((s: Server) => s.id in agent.mcpServerIds, rest) == [];
  }

  lemma {:induction false} GrantedWhile(env: Surroundings, row: Policy)
    requires ListsRows(env) && env.servers == [SERVER]
    requires row.id == "policy" && row.serverRules == POLICY.serverRules
    ensures Granted(PermissionsForAgent(env, map["policy" := row], INSTANCE), SERVER, "search")
            <==> row.status == ACTIVE
  {
    var ids, policies := INSTANCE.accessPolicyIds, PolicyList(env, map["policy" := row]);
    var rows := map["policy" := row];
    assert rows["policy"] == row;
    assert rows.Values == {row};
    assert forall p :: p in policies <==> p in Elements(policies);
    var servers := Filter((s: Server) => s.id in INSTANCE.mcpServerIds, env.servers);
    OneServer(env, INSTANCE);
    var sources := Map((k: Source) => k.vectorStoreId,
      Filter((k: Source) => k.id in INSTANCE.knowledgeSourceIds, env.sources));
    GrantedIff(ids, servers, sources, policies, SERVER, "search");
    var rule := POLICY.serverRules[0];
    assert ResolvedDecision(rule, "search") == ALLOW;
    if row.status == ACTIVE {
      assert row in policies && Bound(ids, row) && rule in row.serverRules;
      assert SomeRuleDecides(ids, policies, "server", "search", ALLOW);
    }
  }

  /** A reachable stale key without a mark: the instance may still use the tool that drafting the
      policy has taken away, and no policy shows an error. */
  lemma {:induction false} FlagIsLost(env: Surroundings)
    requires ListsRows(env) && env.servers == [SERVER]
    ensures var s, run := OneInstance(env), DraftThenRename("policy", "Lookup", ADMIN);
            && CacheAgrees(env, s) && WellKept(s) && Runnable(env, s, run)
            && !StaleIsFlagged(env, AfterSteps(env, s, run))
  {
    hide PermissionsForAgent, ListsRows, UpdateAccepted;
    var s := OneInstance(env);
    OneInstanceAgrees(env);
    DraftingRevokes(env);
    assert s.policies["policy" := DraftRow(POLICY)] == map["policy" := DraftRow(POLICY)];
    DraftThenRenameIff(env, s, "policy", 0, "Lookup", ADMIN);
  }

  // ---------------------------------------------------- an incomplete rollback

  const EMPTY_POLICY := NewPolicy("other", PolicyInput("Nothing", ACTIVE, []), ADMIN)

  /** The push of the new bindings goes through and saving them does not; the old bindings are put
      back, but not the old key. */
  const HALF_UNDONE := Outcomes(true, true, false, true, false)

  function TwoPolicies(env: Surroundings): State {
    var policies := map["policy" := POLICY, "other" := EMPTY_POLICY];
    State(
      policies, [VersionOf(POLICY, Note("admin", CREATED)), VersionOf(EMPTY_POLICY, Note("admin", CREATED))],
      [INSTANCE], map["token" := PermissionsForAgent(env, policies, INSTANCE)])
  }

  lemma {:induction false} TwoPoliciesAgree(env: Surroundings)
    ensures CacheAgrees(env, TwoPolicies(env)) && WellKept(TwoPolicies(env))
    ensures ComesApart(TwoPolicies(env), 0, ["other"], HALF_UNDONE)
    ensures Assign(env, TwoPolicies(env), 0, ["other"], HALF_UNDONE).0.agents == TwoPolicies(env).agents
    ensures !Flagged(TwoPolicies(env), INSTANCE)
  {
    hide PermissionsForAgent;
    var s := TwoPolicies(env);
    assert s.policies["policy"] == POLICY && s.policies["other"] == EMPTY_POLICY;
    assert AssertActivePolicyIds(s, ["other"]) == None;
    assert [INSTANCE][0 := INSTANCE] == [INSTANCE];
  }

  lemma {:induction false} OnlyOnePolicyGrants(env: Surroundings)
    requires ListsRows(env) && env.servers == [SERVER]
    ensures PermissionsForAgent(env, TwoPolicies(env).policies, INSTANCE.(accessPolicyIds := ["other"]))
         != PermissionsForAgent(env, TwoPolicies(env).policies, INSTANCE)
  {
    var policies := map["policy" := POLICY, "other" := EMPTY_POLICY];
    var rebound := INSTANCE.(accessPolicyIds := ["other"]);
    GrantedToBound(env, policies, INSTANCE);
    GrantedToBound(env, policies, rebound);
    hide PermissionsForAgent, Granted;
    assert "policy" !in rebound.accessPolicyIds;
  }

  lemma {:induction false} GrantedToBound(env: Surroundings, policies: map<string, Policy>, agent: Agent)
    requires ListsRows(env) && env.servers == [SERVER]
    requires policies == map["policy" := POLICY, "other" := EMPTY_POLICY] && agent.mcpServerIds == ["server"]
    requires agent.knowledgeSourceIds == []
    ensures Granted(PermissionsForAgent(env, policies, agent), SERVER, "search") <==> "policy" in agent.accessPolicyIds
  {
    var ids, rows := agent.accessPolicyIds, PolicyList(env, policies);
    assert policies["policy"] == POLICY && policies["other"] == EMPTY_POLICY;
    assert policies.Values == {POLICY, EMPTY_POLICY};
    assert forall p :: p in rows <==> p in Elements(rows);
    var servers := Filter((s: Server) => s.id in agent.mcpServerIds, env.servers);
    OneServer(env, agent);
    var sources := Map((k: Source) => k.vectorStoreId,
      Filter((k: Source) => k.id in agent.knowledgeSourceIds, env.sources));
    GrantedIff(ids, servers, sources, rows, SERVER, "search");
    var rule := POLICY.serverRules[0];
    assert ResolvedDecision(rule, "search") == ALLOW;
    if "policy" in ids {
      assert POLICY in rows && Bound(ids, POLICY) && rule in POLICY.serverRules;
      assert SomeRuleDecides(ids, rows, "server", "search", ALLOW);
    }
  }

  /** A reachable stale key without a mark: after the incomplete rollback the instance is bound to the
      policy that allows its tool, and its key does not grant it. */
  lemma {:induction false} RollbackLosesFlag(env: Surroundings)
    requires ListsRows(env) && env.servers == [SERVER]
    ensures var s, step := TwoPolicies(env), AssignStep(0, ["other"], HALF_UNDONE);
            && CacheAgrees(env, s) && WellKept(s) && Enabled(s, step)
            && !StaleIsFlagged(env, Do(env, s, step))
            && Do(env, s, step).agents == s.agents
            && Assign(env, s, 0, ["other"], HALF_UNDONE).1 == Some(RollbackIncomplete)
  {
    var s := TwoPolicies(env);
    OnlyOnePolicyGrants(env);
    TwoPoliciesAgree(env);
    hide *;
    ComingApartIsReported(env, s, 0, ["other"], HALF_UNDONE);
    CacheAgreesStale(env, s);
    BrokenRebindingKeepsFlagsIff(env, s, 0, ["other"], HALF_UNDONE);
  }

  lemma {:induction false} CacheAgreesStale(env: Surroundings, s: State)
    requires CacheAgrees(env, s)
    ensures StaleIsFlagged(env, s)
  {
    hide Fresh, Flagged;
  }
}
