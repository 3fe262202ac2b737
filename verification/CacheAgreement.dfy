/** The pushed permissions stay equal to the evaluation of the current policies. */
module CacheAgreement {
  import opened Sequences
  import opened AccessPolicy
  import opened AccessPolicyService

  // ------------------------------------------------------------------ pushes

  lemma {:induction false} TargetIndex(agents: seq<Agent>, policyId: string, a: Agent)
    ensures a in Targets(agents, policyId) <==> a in agents && policyId in a.accessPolicyIds && a.tokenId.Some?
  {
    FilterMember((b: Agent) => policyId in b.accessPolicyIds && b.tokenId.Some?, agents, a);
  }

  lemma {:induction false} FilterKeepsTokens(agents: seq<Agent>, policyId: string)
    requires DistinctTokens(agents)
    ensures DistinctTokens(Targets(agents, policyId))
  {
    if agents != [] {
      var rest := agents[1..];
      FilterKeepsTokens(rest, policyId);
      var tail := Targets(rest, policyId);
      forall j | 0 <= j < |tail| ensures agents[0].tokenId.Some? ==> tail[j].tokenId != agents[0].tokenId {
        TargetIndex(rest, policyId, tail[j]);
        var k :| 0 <= k < |rest| && rest[k] == tail[j];
        assert rest[k] == agents[k + 1];
      }
    }
  }

  /** A key that one of the pushed instances owns is up to date. */
  lemma {:induction false} PushedKey(env: Surroundings, s: State, agents: seq<Agent>, i: nat)
    requires DistinctTokens(agents) && i < |agents|
    requires forall k :: 0 <= k < |agents| ==> agents[k].tokenId.Some?
    ensures var after := Push(env, s, agents);
            agents[i].tokenId.value in after
            && after[agents[i].tokenId.value] == PermissionsForAgent(env, s.policies, agents[i])
  {
    hide PermissionsForAgent;
    if i < |agents| - 1 {
      assert agents[i].tokenId != agents[|agents| - 1].tokenId;
      PushedKey(env, s, agents[..|agents| - 1], i);
    }
  }

  /** Every other key is left alone. */
  lemma {:induction false} UnpushedKey(env: Surroundings, s: State, agents: seq<Agent>, token: string)
    requires forall k :: 0 <= k < |agents| ==> agents[k].tokenId.Some? && agents[k].tokenId.value != token
    ensures var after := Push(env, s, agents);
            (token in after <==> token in s.pushed) && (token in after ==> after[token] == s.pushed[token])
  {
    hide PermissionsForAgent;
    if agents != [] {
      UnpushedKey(env, s, agents[..|agents| - 1], token);
    }
  }

  // ------------------------------------------------------------- reconciliation

  /** Policies that differ from `a` at most in the row of `id`. */
  ghost predicate DiffersAt(a: map<string, Policy>, b: map<string, Policy>, id: string) {
    && (forall k :: k != id ==> (k in a <==> k in b))
    && (forall k :: k != id && k in a ==> a[k] == b[k])
    && (forall k :: k in b ==> b[k].id == k)
  }

  lemma {:induction false} UnboundKeepsPermissions(
    env: Surroundings, a: map<string, Policy>, b: map<string, Policy>, id: string, agent: Agent)
    requires ListsRows(env) && DiffersAt(a, b, id) && (forall k :: k in a ==> a[k].id == k)
    requires id !in agent.accessPolicyIds
    ensures PermissionsForAgent(env, a, agent) == PermissionsForAgent(env, b, agent)
  {
    SamePermissions(env, a, b, agent);
  }

  /** The rows differ at most in what the last reconciliation recorded. */
  predicate SameButOutcome(a: Policy, b: Policy) {
    b == a.(lastReconciledAt := b.lastReconciledAt, lastReconciliationError := b.lastReconciliationError)
  }

  /** What reconciliation leaves in the row of the policy. */
  lemma {:induction false} ReconciledState(
    env: Surroundings, s: State, policy: Policy, failsAt: Option<nat>, later: string)
    requires policy.id in s.policies && s.policies[policy.id] == policy && WellKept(s)
    ensures var r := Reconcile(env, s, policy, failsAt, later).0;
            && r.agents == s.agents && WellKept(r)
            && policy.id in r.policies
            && SameButOutcome(policy, r.policies[policy.id])
            && r.policies == s.policies[policy.id := r.policies[policy.id]]
            && (failsAt.None? ==> r.policies[policy.id].lastReconciliationError.None?)
  {
    hide Push, Targets;
  }

  lemma {:induction false} OutcomeIsImmaterial(env: Surroundings, s: State, policy: Policy, row: Policy, agent: Agent)
    requires ListsRows(env) && WellKept(s) && policy.id in s.policies && s.policies[policy.id] == policy
    requires SameButOutcome(policy, row)
    ensures PermissionsForAgent(env, s.policies[policy.id := row], agent) == PermissionsForAgent(env, s.policies, agent)
  {
    hide PermissionsForAgent;
    SamePermissions(env, s.policies[policy.id := row], s.policies, agent);
  }

  /** What has been pushed when reconciliation is over. */
  lemma {:induction false} ReconciledKeys(
    env: Surroundings, s: State, policy: Policy, failsAt: Option<nat>, later: string)
    requires policy.id in s.policies
    ensures var r, targets := Reconcile(env, s, policy, failsAt, later).0, Targets(s.agents, policy.id);
            && (forall i :: 0 <= i < |targets| ==> targets[i].tokenId.Some?)
            && (r.policies[policy.id].lastReconciliationError.None? ==> r.pushed == Push(env, s, targets))
            && exists n :: 0 <= n <= |targets| && r.pushed == Push(env, s, targets[..n])
  {
    hide Push, Targets;
    TargetsHaveTokens(s.agents, policy.id);
    var targets := Targets(s.agents, policy.id);
    assert targets[..|targets|] == targets;
  }

  /** After reconciling, an instance bound to the policy is up to date unless a push failed, in
      which case the policy carries the error. */
  lemma {:induction false} ReconcileBound(
    env: Surroundings, s: State, policy: Policy, failsAt: Option<nat>, later: string, k: nat)
    requires ListsRows(env) && WellKept(s) && policy.id in s.policies && s.policies[policy.id] == policy
    requires k < |s.agents| && policy.id in s.agents[k].accessPolicyIds
    ensures var r := Reconcile(env, s, policy, failsAt, later).0;
            Fresh(env, r, s.agents[k]) || r.policies[policy.id].lastReconciliationError.Some?
  {
    hide PermissionsForAgent, Push, Targets, Reconcile, ListsRows;
    var agent, targets := s.agents[k], Targets(s.agents, policy.id);
    var r := Reconcile(env, s, policy, failsAt, later).0;
    ReconciledState(env, s, policy, failsAt, later);
    ReconciledKeys(env, s, policy, failsAt, later);
    if agent.tokenId.Some? && r.policies[policy.id].lastReconciliationError.None? {
      TargetIndex(s.agents, policy.id, agent);
      var i :| 0 <= i < |targets| && targets[i] == agent;
      FilterKeepsTokens(s.agents, policy.id);
      PushedKey(env, s, targets, i);
      OutcomeIsImmaterial(env, s, policy, r.policies[policy.id], agent);
    }
  }

  /** An instance not bound to the policy keeps its key. */
  lemma {:induction false} ReconcileUnbound(
    env: Surroundings, s: State, policy: Policy, failsAt: Option<nat>, later: string, k: nat)
    requires ListsRows(env) && WellKept(s) && policy.id in s.policies && s.policies[policy.id] == policy
    requires k < |s.agents| && policy.id !in s.agents[k].accessPolicyIds
    ensures Fresh(env, Reconcile(env, s, policy, failsAt, later).0, s.agents[k]) <==> Fresh(env, s, s.agents[k])
  {
    hide PermissionsForAgent, Push, Targets, Reconcile, ListsRows;
    var agent, targets := s.agents[k], Targets(s.agents, policy.id);
    var r := Reconcile(env, s, policy, failsAt, later).0;
    ReconciledState(env, s, policy, failsAt, later);
    ReconciledKeys(env, s, policy, failsAt, later);
    OutcomeIsImmaterial(env, s, policy, r.policies[policy.id], agent);
    if agent.tokenId.Some? {
      var n :| 0 <= n <= |targets| && r.pushed == Push(env, s, targets[..n]);
      forall i | 0 <= i < n ensures targets[..n][i].tokenId.Some? && targets[..n][i].tokenId != agent.tokenId {
        TargetIndex(s.agents, policy.id, targets[i]);
        var j :| 0 <= j < |s.agents| && s.agents[j] == targets[i];
        assert j != k;
      }
      UnpushedKey(env, s, targets[..n], agent.tokenId.value);
    }
  }

  // ---------------------------------------------------------------- operations

  lemma {:induction false} SavedRow(s: State, policy: Policy, note: Note)
    requires WellKept(s)
    ensures WellKept(Save(s, policy, note)) && DiffersAt(s.policies, Save(s, policy, note).policies, policy.id)
    ensures Save(s, policy, note).agents == s.agents && Save(s, policy, note).pushed == s.pushed
  {
  }

  /** Saving a row of a policy no instance is bound to, or one that was and stays a draft,
      changes nobody's permissions. */
  lemma {:induction false} SaveKeepsFresh(env: Surroundings, s: State, policy: Policy, note: Note, agent: Agent)
    requires ListsRows(env) && WellKept(s)
    requires policy.id !in agent.accessPolicyIds
          || (policy.status == DRAFT && policy.id in s.policies && s.policies[policy.id].status == DRAFT)
    ensures Fresh(env, Save(s, policy, note), agent) <==> Fresh(env, s, agent)
  {
    SavedRow(s, policy, note);
    SamePermissions(env, s.policies, Save(s, policy, note).policies, agent);
  }

  lemma {:induction false} CreateKeepsFresh(
    env: Surroundings, s: State, id: string, input: PolicyInput, call: Call, k: nat)
    requires ListsRows(env) && WellKept(s) && id !in s.policies && k < |s.agents|
    ensures var r := Create(env, s, id, input, call).0;
            r.agents == s.agents && WellKept(r)
            && (Fresh(env, r, s.agents[k]) <==> Fresh(env, s, s.agents[k]))
  {
    hide Fresh, Validate, NameUsed;
    if Create(env, s, id, input, call).1.Ok? {
      var policy, note := NewPolicy(id, input, call), Note(call.actor, CREATED);
      SavedRow(s, policy, note);
      SaveKeepsFresh(env, s, policy, note, s.agents[k]);
    }
  }

  lemma {:induction false} DeleteKeepsFresh(env: Surroundings, s: State, id: string, k: nat)
    requires ListsRows(env) && WellKept(s) && k < |s.agents|
    ensures var r := Delete(s, id).0;
            r.agents == s.agents && WellKept(r)
            && (Fresh(env, r, s.agents[k]) <==> Fresh(env, s, s.agents[k]))
  {
    hide PermissionsForAgent;
    if Delete(s, id).1.Ok? {
      UnboundKeepsPermissions(env, s.policies, s.policies - {id}, id, s.agents[k]);
    }
  }

  /** How an accepted update is put together. */
  ghost predicate UpdateAccepted(env: Surroundings, s: State, id: string, change: PolicyChange) {
    && id in s.policies
    && Validate(env, Merged(s.policies[id], change)).None?
    && !NameUsed(env, s, Merged(s.policies[id], change).name, Some(id))
  }

  function UpdatedRow(s: State, id: string, change: PolicyChange, call: Call): Policy
    requires id in s.policies
  {
    Revised(s.policies[id], Merged(s.policies[id], change), call.now)
  }

  function UpdateNote(s: State, id: string, change: PolicyChange, call: Call): Note
    requires id in s.policies
  {
    Note(call.actor, ChangeSummary(s.policies[id], UpdatedRow(s, id, change, call)))
  }

  predicate PushNeeded(s: State, id: string, change: PolicyChange)
    requires id in s.policies
  {
    s.policies[id].status == ACTIVE || Merged(s.policies[id], change).status == ACTIVE
  }

  lemma {:induction false} UpdateState(
    env: Surroundings, s: State, id: string, change: PolicyChange, call: Call, failsAt: Option<nat>)
    requires WellKept(s)
    ensures !UpdateAccepted(env, s, id, change) ==> Update(env, s, id, change, call, failsAt).0 == s
    ensures UpdateAccepted(env, s, id, change) ==>
              var row := UpdatedRow(s, id, change, call);
              var saved := Save(s, row, UpdateNote(s, id, change, call));
              && row.id == id
              && Update(env, s, id, change, call, failsAt).0
                 == if PushNeeded(s, id, change) then Reconcile(env, saved, row, failsAt, call.later).0 else saved
  {
    hide Validate, NameUsed, Reconcile;
  }

  lemma {:induction false} UpdateKeepsKept(
    env: Surroundings, s: State, id: string, change: PolicyChange, call: Call, failsAt: Option<nat>)
    requires WellKept(s)
    ensures var r := Update(env, s, id, change, call, failsAt).0; r.agents == s.agents && WellKept(r)
  {
    hide UpdateAccepted, PushNeeded, Reconcile, Update;
    UpdateState(env, s, id, change, call, failsAt);
    if UpdateAccepted(env, s, id, change) {
      AcceptedHasRow(env, s, id, change);
      var row, note := UpdatedRow(s, id, change, call), UpdateNote(s, id, change, call);
      SavedRow(s, row, note);
      if PushNeeded(s, id, change) {
        ReconciledState(env, Save(s, row, note), row, failsAt, call.later);
      }
    }
  }

  lemma {:induction false} AcceptedHasRow(env: Surroundings, s: State, id: string, change: PolicyChange)
    requires UpdateAccepted(env, s, id, change)
    ensures id in s.policies
  {
  }

  /** With every push succeeding an update leaves each key up to date that was so before, and those
      bound to a policy that it pushes in any case. */
  lemma {:induction false} UpdateKeepsFresh(
    env: Surroundings, s: State, id: string, change: PolicyChange, call: Call, k: nat)
    requires ListsRows(env) && WellKept(s) && k < |s.agents|
    requires Fresh(env, s, s.agents[k])
          || (id in s.agents[k].accessPolicyIds && UpdateAccepted(env, s, id, change) && PushNeeded(s, id, change))
    ensures Fresh(env, Update(env, s, id, change, call, None).0, s.agents[k])
  {
    hide UpdateAccepted, Reconcile, Update, Fresh;
    UpdateState(env, s, id, change, call, None);
    if UpdateAccepted(env, s, id, change) {
      AcceptedHasRow(env, s, id, change);
      var row, note := UpdatedRow(s, id, change, call), UpdateNote(s, id, change, call);
      SavedRow(s, row, note);
      var saved := Save(s, row, note);
      if PushNeeded(s, id, change) {
        ReconciledState(env, saved, row, None, call.later);
        if id in s.agents[k].accessPolicyIds {
          ReconcileBound(env, saved, row, None, call.later, k);
        } else {
          SaveKeepsFresh(env, s, row, note, s.agents[k]);
          ReconcileUnbound(env, saved, row, None, call.later, k);
        }
      } else {
        SaveKeepsFresh(env, s, row, note, s.agents[k]);
      }
    }
  }

  /** The rebinding gets past its checks and its push, so that the key is written. */
  predicate Rebinds(s: State, k: nat, ids: seq<string>, o: Outcomes)
    requires k < |s.agents|
  {
    AssertActivePolicyIds(s, ids).None? && (s.agents[k].tokenId.Some? ==> o.pushed)
  }

  /** The bindings and the key of the instance have gone separate ways. */
  predicate ComesApart(s: State, k: nat, ids: seq<string>, o: Outcomes)
    requires k < |s.agents|
  {
    Rebinds(s, k, ids, o) && s.agents[k].tokenId.Some? && !Succeeds(o) && BoundAnew(o) == o.restored
  }

  /** Rebinding touches no other instance. Its own key is up to date afterwards unless the rollback
      was incomplete; then it is exactly if both sets of bindings give the same permissions. */
  lemma {:induction false} AssignKeepsFresh(
    env: Surroundings, s: State, k: nat, ids: seq<string>, o: Outcomes, i: nat)
    requires WellKept(s) && k < |s.agents| && i < |s.agents|
    ensures var r, next := Assign(env, s, k, ids, o).0, s.agents[k].(accessPolicyIds := ids);
            && |r.agents| == |s.agents| && WellKept(r) && r.policies == s.policies
            && (i != k ==> r.agents[i] == s.agents[i] && (Fresh(env, r, r.agents[i]) <==> Fresh(env, s, s.agents[i])))
            && (!Rebinds(s, k, ids, o) ==> r == s)
            && (Rebinds(s, k, ids, o) ==>
                  (Fresh(env, r, r.agents[k])
                   <==> (ComesApart(s, k, ids, o) ==>
                           PermissionsForAgent(env, s.policies, next)
                           == PermissionsForAgent(env, s.policies, s.agents[k]))))
  {
    hide PermissionsForAgent;
    var r := Assign(env, s, k, ids, o).0;
    if Rebinds(s, k, ids, o) && i != k {
      assert r.agents[i] == s.agents[i];
      assert s.agents[i].tokenId.Some? ==> s.agents[i].tokenId != s.agents[k].tokenId;
    }
  }

  lemma {:induction false} ComingApartIsReported(env: Surroundings, s: State, k: nat, ids: seq<string>, o: Outcomes)
    requires k < |s.agents| && ComesApart(s, k, ids, o)
    ensures Assign(env, s, k, ids, o).1 == Some(RollbackIncomplete)
  {
    hide PermissionsForAgent, AssertActivePolicyIds;
  }

  // ----------------------------------------------------------------------- runs

  datatype Step =
    | CreateStep(id: string, input: PolicyInput, call: Call)
    | UpdateStep(id: string, change: PolicyChange, call: Call, failsAt: Option<nat>)
    | DeleteStep(id: string)
    | AssignStep(instance: nat, ids: seq<string>, outcomes: Outcomes)

  /** New policies get unused identifiers; instances are addressed by position. */
  predicate Enabled(s: State, step: Step) {
    match step
    case CreateStep(id, _, _) => id !in s.policies
    case AssignStep(k, _, _) => k < |s.agents|
    case _ => true
  }

  function Do(env: Surroundings, s: State, step: Step): State
    requires Enabled(s, step)
  {
    match step
    case CreateStep(id, input, call) => Create(env, s, id, input, call).0
    case UpdateStep(id, change, call, failsAt) => Update(env, s, id, change, call, failsAt).0
    case DeleteStep(id) => Delete(s, id).0
    case AssignStep(k, ids, o) => Assign(env, s, k, ids, o).0
  }

  /** No push of an update fails, and what a rebinding could not save it puts back. */
  ghost predicate PushesSucceed(step: Step) {
    match step
    case UpdateStep(_, _, _, failsAt) => failsAt.None?
    case AssignStep(_, _, o) => Succeeds(o) || (o.unbound && o.restored)
    case _ => true
  }

  lemma {:induction false} StepKeepsKept(env: Surroundings, s: State, step: Step)
    requires ListsRows(env) && WellKept(s) && Enabled(s, step)
    ensures WellKept(Do(env, s, step)) && |Do(env, s, step).agents| == |s.agents|
  {
    hide WellKept, ListsRows, Create, Update, Delete, Assign;
    match step
    case CreateStep(id, input, call) => CreateKept(env, s, id, input, call);
    case UpdateStep(id, change, call, failsAt) => UpdateKeepsKept(env, s, id, change, call, failsAt);
    case DeleteStep(id) => DeleteKept(s, id);
    case AssignStep(k, ids, o) => AssignKeepsFresh(env, s, k, ids, o, k);
  }

  lemma {:induction false} CreateKept(env: Surroundings, s: State, id: string, input: PolicyInput, call: Call)
    requires WellKept(s)
    ensures WellKept(Create(env, s, id, input, call).0) && Create(env, s, id, input, call).0.agents == s.agents
  {
    hide Validate, NameUsed;
  }

  lemma {:induction false} DeleteKept(s: State, id: string)
    requires WellKept(s)
    ensures WellKept(Delete(s, id).0) && Delete(s, id).0.agents == s.agents
  {
  }

  /** Each operation whose pushes succeed keeps the cache in agreement, whether or not it pushes. */
  lemma {:induction false} StepKeepsAgreement(env: Surroundings, s: State, step: Step)
    requires ListsRows(env) && WellKept(s) && Enabled(s, step) && PushesSucceed(step) && CacheAgrees(env, s)
    ensures CacheAgrees(env, Do(env, s, step))
  {
    hide WellKept, ListsRows, Create, Update, Delete, Assign, Fresh;
    StepKeepsKept(env, s, step);
    var r := Do(env, s, step);
    forall i | 0 <= i < |r.agents| ensures Fresh(env, r, r.agents[i]) {
      match step
      case CreateStep(id, input, call) => CreateKeepsFresh(env, s, id, input, call, i);
      case UpdateStep(id, change, call, failsAt) =>
        UpdateKeepsKept(env, s, id, change, call, None);
        UpdateKeepsFresh(env, s, id, change, call, i);
      case DeleteStep(id) => DeleteKeepsFresh(env, s, id, i);
      case AssignStep(k, ids, o) => AssignKeepsFresh(env, s, k, ids, o, i);
    }
  }

  /** `steps` can be carried out one after the other. */
  ghost predicate Runnable(env: Surroundings, s: State, steps: seq<Step>)
    decreases |steps|
  {
    steps != [] ==> Enabled(s, steps[0]) && Runnable(env, Do(env, s, steps[0]), steps[1..])
  }

  function AfterSteps(env: Surroundings, s: State, steps: seq<Step>): State
    requires Runnable(env, s, steps)
    decreases |steps|
  {
    if steps == [] then s else AfterSteps(env, Do(env, s, steps[0]), steps[1..])
  }

  /** Over every run in which pushes succeed, what was last pushed for each key equals the
      evaluation of the policies as they are. */
  lemma {:induction false} RunsKeepAgreement(env: Surroundings, s: State, steps: seq<Step>)
    requires ListsRows(env) && WellKept(s) && CacheAgrees(env, s)
    requires Runnable(env, s, steps) && forall i :: 0 <= i < |steps| ==> PushesSucceed(steps[i])
    ensures WellKept(AfterSteps(env, s, steps)) && CacheAgrees(env, AfterSteps(env, s, steps))
    decreases |steps|
  {
    hide WellKept, CacheAgrees, ListsRows, Do, Enabled, PushesSucceed;
    if steps != [] {
      StepKeepsKept(env, s, steps[0]);
      StepKeepsAgreement(env, s, steps[0]);
      RunsKeepAgreement(env, Do(env, s, steps[0]), steps[1..]);
    }
  }

  // ---------------------------------------------------------- when pushes fail

  /** Every key that is out of date belongs to an instance with a flagged policy. */
  ghost predicate StaleIsFlagged(env: Surroundings, s: State) {
    forall i :: 0 <= i < |s.agents| ==> Fresh(env, s, s.agents[i]) || Flagged(s, s.agents[i])
  }

  /** Some policy other than `id` that the agent is bound to carries an error. */
  ghost predicate FlaggedElsewhere(s: State, agent: Agent, id: string) {
    exists k :: k != id && k in agent.accessPolicyIds && k in s.policies && s.policies[k].lastReconciliationError.Some?
  }

  ghost predicate FlaggedHere(s: State, agent: Agent, id: string) {
    id in agent.accessPolicyIds && id in s.policies && s.policies[id].lastReconciliationError.Some?
  }

  lemma {:induction false} FlagsElsewhere(a: State, b: State, agent: Agent, id: string)
    requires DiffersAt(a.policies, b.policies, id)
    ensures FlaggedElsewhere(a, agent, id) <==> FlaggedElsewhere(b, agent, id)
    ensures Flagged(a, agent) <==> (FlaggedElsewhere(a, agent, id) || FlaggedHere(a, agent, id))
    ensures Flagged(b, agent) <==> (FlaggedElsewhere(b, agent, id) || FlaggedHere(b, agent, id))
  {
  }

  /** An update that pushes keeps every stale key flagged, however many pushes fail. */
  lemma {:induction false} PushingUpdateKeepsFlags(
    env: Surroundings, s: State, id: string, change: PolicyChange, call: Call, failsAt: Option<nat>, k: nat)
    requires ListsRows(env) && WellKept(s) && k < |s.agents|
    requires UpdateAccepted(env, s, id, change) && id in s.policies && PushNeeded(s, id, change)
    requires Fresh(env, s, s.agents[k]) || Flagged(s, s.agents[k])
    ensures var r := Update(env, s, id, change, call, failsAt).0; Fresh(env, r, s.agents[k]) || Flagged(r, s.agents[k])
  {
    hide UpdateAccepted, Reconcile, Update, Fresh, Flagged;
    var agent := s.agents[k];
    var row, note := UpdatedRow(s, id, change, call), UpdateNote(s, id, change, call);
    UpdateState(env, s, id, change, call, failsAt);
    SavedRow(s, row, note);
    var saved := Save(s, row, note);
    var r := Update(env, s, id, change, call, failsAt).0;
    ReconciledState(env, saved, row, failsAt, call.later);
    assert DiffersAt(s.policies, r.policies, id);
    FlagsElsewhere(s, r, agent, id);
    if id in agent.accessPolicyIds {
      ReconcileBound(env, saved, row, failsAt, call.later, k);
    } else {
      SaveKeepsFresh(env, s, row, note, agent);
      ReconcileUnbound(env, saved, row, failsAt, call.later, k);
    }
  }

  /** An update that leaves a draft a draft drops the error of that policy without pushing. Stale
      keys stay flagged exactly when none of them relied on that error alone. */
  lemma {:induction false} DraftUpdateKeepsFlagsIff(
    env: Surroundings, s: State, id: string, change: PolicyChange, call: Call, failsAt: Option<nat>)
    requires ListsRows(env) && WellKept(s) && StaleIsFlagged(env, s)
    requires UpdateAccepted(env, s, id, change) && id in s.policies && !PushNeeded(s, id, change)
    ensures StaleIsFlagged(env, Update(env, s, id, change, call, failsAt).0)
            <==> forall i :: 0 <= i < |s.agents| && id in s.agents[i].accessPolicyIds && !Fresh(env, s, s.agents[i])
                   ==> FlaggedElsewhere(s, s.agents[i], id)
  {
    hide UpdateAccepted, Update, Fresh, Flagged, FlaggedElsewhere;
    var row, note := UpdatedRow(s, id, change, call), UpdateNote(s, id, change, call);
    UpdateState(env, s, id, change, call, failsAt);
    SavedRow(s, row, note);
    var r := Save(s, row, note);
    forall i | 0 <= i < |s.agents|
      ensures Fresh(env, r, s.agents[i]) <==> Fresh(env, s, s.agents[i])
      ensures Flagged(r, s.agents[i]) <==> FlaggedElsewhere(s, s.agents[i], id)
      ensures id !in s.agents[i].accessPolicyIds ==> (Flagged(s, s.agents[i]) <==> FlaggedElsewhere(s, s.agents[i], id))
    {
      SaveKeepsFresh(env, s, row, note, s.agents[i]);
      FlagsElsewhere(s, r, s.agents[i], id);
    }
  }

  lemma {:induction false} CreateKeepsFlags(
    env: Surroundings, s: State, id: string, input: PolicyInput, call: Call, k: nat)
    requires WellKept(s) && id !in s.policies && k < |s.agents|
    ensures Flagged(Create(env, s, id, input, call).0, s.agents[k]) <==> Flagged(s, s.agents[k])
  {
    hide Validate, NameUsed;
    assert id !in s.agents[k].accessPolicyIds;
  }

  lemma {:induction false} DeleteKeepsFlags(s: State, id: string, k: nat)
    requires WellKept(s) && k < |s.agents|
    ensures Flagged(Delete(s, id).0, s.agents[k]) <==> Flagged(s, s.agents[k])
  {
  }

  /** An accepted update that pushes nothing. */
  ghost predicate SilentUpdate(env: Surroundings, s: State, step: Step) {
    step.UpdateStep? && UpdateAccepted(env, s, step.id, step.change) && !PushNeeded(s, step.id, step.change)
  }

  /** A rebinding that fails and whose rollback is incomplete. */
  ghost predicate BrokenRebinding(s: State, step: Step) {
    step.AssignStep? && step.instance < |s.agents| && ComesApart(s, step.instance, step.ids, step.outcomes)
  }

  /** A rebinding whose rollback is incomplete leaves every stale key marked if and only if both sets
      of bindings give the same permissions, or the instance is left with a policy that is marked. */
  lemma {:induction false} BrokenRebindingKeepsFlagsIff(
    env: Surroundings, s: State, k: nat, ids: seq<string>, o: Outcomes)
    requires WellKept(s) && k < |s.agents| && StaleIsFlagged(env, s) && ComesApart(s, k, ids, o)
    ensures var r, next := Assign(env, s, k, ids, o).0, s.agents[k].(accessPolicyIds := ids);
            && |r.agents| == |s.agents|
            && (StaleIsFlagged(env, r)
                <==> PermissionsForAgent(env, s.policies, next) == PermissionsForAgent(env, s.policies, s.agents[k])
                     || Flagged(s, r.agents[k]))
  {
    hide Assign, Fresh, Flagged, PermissionsForAgent, WellKept;
    var r := Assign(env, s, k, ids, o).0;
    AssignKeepsFresh(env, s, k, ids, o, k);
    forall i | 0 <= i < |r.agents|
      ensures i != k ==> (Fresh(env, r, r.agents[i]) || Flagged(r, r.agents[i]))
      ensures Flagged(r, r.agents[i]) <==> Flagged(s, r.agents[i])
    {
      AssignKeepsFresh(env, s, k, ids, o, i);
      FlagsByRows(s, r, r.agents[i]);
    }
  }

  /** Whether pushes succeed or fail, only two kinds of operation can leave a stale key without a
      flagged policy: an accepted update that keeps a draft a draft, and a rebinding whose rollback
      is incomplete, which says so to its caller. */
  lemma {:induction false} OnlyDraftUpdatesDropFlags(env: Surroundings, s: State, step: Step)
    requires ListsRows(env) && WellKept(s) && Enabled(s, step) && StaleIsFlagged(env, s)
    ensures StaleIsFlagged(env, Do(env, s, step)) || SilentUpdate(env, s, step) || BrokenRebinding(s, step)
    ensures BrokenRebinding(s, step) ==>
              Assign(env, s, step.instance, step.ids, step.outcomes).1 == Some(RollbackIncomplete)
  {
    hide WellKept, ListsRows, Create, Update, Delete, Assign, Fresh, Flagged;
    hide UpdateAccepted, PushNeeded, AssertActivePolicyIds;
    StepKeepsKept(env, s, step);
    if BrokenRebinding(s, step) {
      ComingApartIsReported(env, s, step.instance, step.ids, step.outcomes);
    }
    var r := Do(env, s, step);
    forall i | 0 <= i < |r.agents| && !SilentUpdate(env, s, step) && !BrokenRebinding(s, step)
      ensures Fresh(env, r, r.agents[i]) || Flagged(r, r.agents[i])
    {
      match step
      case CreateStep(id, input, call) =>
        CreateKeepsFresh(env, s, id, input, call, i);
        CreateKeepsFlags(env, s, id, input, call, i);
      case UpdateStep(id, change, call, failsAt) =>
        UpdateKeepsKept(env, s, id, change, call, failsAt);
        UpdateState(env, s, id, change, call, failsAt);
        if UpdateAccepted(env, s, id, change) {
          AcceptedHasRow(env, s, id, change);
          PushingUpdateKeepsFlags(env, s, id, change, call, failsAt, i);
        }
      case DeleteStep(id) =>
        DeleteKeepsFresh(env, s, id, i);
        DeleteKeepsFlags(s, id, i);
      case AssignStep(k, ids, o) =>
        AssignKeepsFresh(env, s, k, ids, o, i);
        FlagsByRows(s, r, s.agents[i]);
    }
  }

  lemma {:induction false} FlagsByRows(a: State, b: State, agent: Agent)
    ensures a.policies == b.policies ==> (Flagged(a, agent) <==> Flagged(b, agent))
  {
  }
}
