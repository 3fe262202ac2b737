/** What every run of the policy service keeps true of the stored policies and of their versions. */
module PolicyHistory {
  import opened Sequences
  import opened AccessPolicy
  import opened AccessPolicyService
  import opened CacheAgreement

  // ------------------------------------------------------------------ validation

  /** A rule speaks of a known server and at most once of each of its discovered tools. */
  ghost predicate RuleOk(env: Surroundings, rule: ServerRule) {
    && ToolNamesUnique(rule)
    && FindServer(env.servers, rule.mcpServerId).Some?
    && ToolsDiscovered(rule, FindServer(env.servers, rule.mcpServerId).value)
  }

  ghost predicate RulesOk(env: Surroundings, rules: seq<ServerRule>) {
    && Distinct(Map((r: ServerRule) => r.mcpServerId, rules))
    && forall i :: 0 <= i < |rules| ==> RuleOk(env, rules[i])
  }

  lemma {:induction false} ChecksIff(env: Surroundings, rules: seq<ServerRule>)
    ensures CheckRules(env, rules) == None <==> forall i :: 0 <= i < |rules| ==> RuleOk(env, rules[i])
  {
    if rules != [] {
      ChecksIff(env, rules[1..]);
      assert forall i :: 0 < i < |rules| ==> rules[i] == rules[1..][i - 1];
      assert forall i :: 0 <= i < |rules| - 1 ==> rules[1..][i] == rules[i + 1];
      hide ToolNamesUnique, ToolsDiscovered, FindServer;
      assert RuleOk(env, rules[0]) && CheckRules(env, rules[1..]) == None <==> CheckRules(env, rules) == None;
    }
  }

  /** Validation lets a policy through exactly when its rules are in order. */
  lemma {:induction false} ValidIffRulesOk(env: Surroundings, input: PolicyInput)
    ensures Validate(env, input) == None <==> RulesOk(env, input.serverRules)
  {
    ChecksIff(env, input.serverRules);
  }

  // ------------------------------------------------------------------- the rows

  /** Every stored policy has rules in order, and no two have the same name up to case. */
  ghost predicate Tidy(env: Surroundings, s: State) {
    && (forall id :: id in s.policies ==> RulesOk(env, s.policies[id].serverRules))
    && (forall a, b :: a in s.policies && b in s.policies && a != b ==>
          env.lower(s.policies[a].name) != env.lower(s.policies[b].name))
  }

  /** The versions of one policy, oldest first. */
  function VersionsOf(versions: seq<Version>, id: string): seq<Version> {
    Filter((v: Version) => v.policyId == id, versions)
  }

  /** `v` is version `n` of a policy with the origin of `row`, dated when it was written. */
  ghost predicate VersionOk(v: Version, n: nat, row: Policy) {
    && v.revision == n && v.snapshot.revision == n
    && v.snapshot.createdBy == row.createdBy && v.snapshot.createdAt == row.createdAt
    && v.createdAt == v.snapshot.updatedAt
  }

  /** The versions of a policy are numbered from one up to its revision, keep its origin, and the last
      one is a snapshot of the row as it is, reconciliation outcome aside. */
  ghost predicate History(versions: seq<Version>, row: Policy) {
    var log := VersionsOf(versions, row.id);
    && |log| == row.revision && log != []
    && (forall i :: 0 <= i < |log| ==> VersionOk(log[i], i + 1, row))
    && SameButOutcome(row, log[|log| - 1].snapshot)
  }

  ghost predicate Logged(s: State) {
    forall id :: id in s.policies ==> s.policies[id].id == id && History(s.versions, s.policies[id])
  }

  lemma {:induction false} LogGrows(versions: seq<Version>, v: Version, id: string)
    ensures VersionsOf(versions + [v], id) == VersionsOf(versions, id) + if v.policyId == id then [v] else []
  {
    FilterConcat((u: Version) => u.policyId == id, versions, [v]);
    assert [v][1..] == [];
  }

  /** `b` is the next revision of `a`. */
  ghost predicate Succeeds(a: Policy, b: Policy) {
    b.revision == a.revision + 1 && b.createdBy == a.createdBy && b.createdAt == a.createdAt
  }

  /** Saving a new row or the next revision of a row continues the history. */
  lemma {:induction false} SaveLogs(s: State, row: Policy, note: Note)
    requires Logged(s) && row.lastReconciliationError == None
    requires if row.id in s.policies then Succeeds(s.policies[row.id], row)
             else row.revision == 1 && VersionsOf(s.versions, row.id) == []
    ensures Logged(Save(s, row, note))
  {
    hide VersionsOf;
    var v := VersionOf(row, note);
    var r := Save(s, row, note);
    forall id | id in r.policies ensures History(r.versions, r.policies[id]) {
      LogGrows(s.versions, v, id);
      if id == row.id {
        HistoryGrows(s, row, note);
      }
    }
  }

  lemma {:induction false} HistoryGrows(s: State, row: Policy, note: Note)
    requires Logged(s) && row.lastReconciliationError == None
    requires if row.id in s.policies then Succeeds(s.policies[row.id], row)
             else row.revision == 1 && VersionsOf(s.versions, row.id) == []
    ensures History(s.versions + [VersionOf(row, note)], row)
  {
    hide VersionsOf;
    LogGrows(s.versions, VersionOf(row, note), row.id);
    if row.id in s.policies {
      assert History(s.versions, s.policies[row.id]);
    }
  }

  lemma {:induction false} OnlyTheOutcome(env: Surroundings, s: State, row: Policy, failsAt: Option<nat>, later: string)
    ensures var r := Reconcile(env, s, row, failsAt, later).0;
            && r.versions == s.versions && row.id in r.policies
            && SameButOutcome(row, r.policies[row.id])
            && r.policies == s.policies[row.id := r.policies[row.id]]
  {
    hide Push, Targets;
    TargetsHaveTokens(s.agents, row.id);
  }

  lemma {:induction false} HistoryIgnoresOutcome(versions: seq<Version>, a: Policy, b: Policy)
    requires History(versions, a) && SameButOutcome(a, b)
    ensures History(versions, b)
  {
    hide VersionsOf;
  }

  lemma {:induction false} TidyIgnoresOutcome(env: Surroundings, s: State, row: Policy, r: State)
    requires Tidy(env, s) && row.id in s.policies && SameButOutcome(s.policies[row.id], row)
    requires r.policies == s.policies[row.id := row]
    ensures Tidy(env, r)
  {
    hide RulesOk;
    assert forall id :: id in r.policies ==>
      r.policies[id].serverRules == s.policies[id].serverRules && r.policies[id].name == s.policies[id].name;
  }

  /** Reconciling changes nothing but the outcome that the row carries. */
  lemma {:induction false} ReconcileKeepsRows(
    env: Surroundings, s: State, row: Policy, failsAt: Option<nat>, later: string)
    requires Logged(s) && Tidy(env, s) && row.id in s.policies && s.policies[row.id] == row
    ensures var r := Reconcile(env, s, row, failsAt, later).0; Logged(r) && Tidy(env, r) && r.versions == s.versions
  {
    hide History, Tidy, Reconcile;
    var r := Reconcile(env, s, row, failsAt, later).0;
    OnlyTheOutcome(env, s, row, failsAt, later);
    TidyIgnoresOutcome(env, s, r.policies[row.id], r);
    HistoryIgnoresOutcome(s.versions, row, r.policies[row.id]);
  }

  lemma {:induction false} SaveKeepsTidy(env: Surroundings, s: State, row: Policy, note: Note)
    requires Tidy(env, s) && RulesOk(env, row.serverRules) && !NameUsed(env, s, row.name, Some(row.id))
    ensures Tidy(env, Save(s, row, note))
  {
    hide RulesOk;
    forall a | a in s.policies && a != row.id ensures env.lower(s.policies[a].name) != env.lower(row.name) {
    }
  }

  lemma {:induction false} CreateKeepsRows(env: Surroundings, s: State, id: string, input: PolicyInput, call: Call)
    requires Tidy(env, s) && Logged(s) && id !in s.policies && VersionsOf(s.versions, id) == []
    ensures var r := Create(env, s, id, input, call).0; Tidy(env, r) && Logged(r)
  {
    hide Tidy, Logged, Validate, RulesOk, VersionsOf;
    ValidIffRulesOk(env, input);
    if Validate(env, input).None? && !NameUsed(env, s, input.name, None) {
      var row, note := NewPolicy(id, input, call), Note(call.actor, CREATED);
      SaveKeepsTidy(env, s, row, note);
      SaveLogs(s, row, note);
    }
  }

  lemma {:induction false} UpdateKeepsRows(
    env: Surroundings, s: State, id: string, change: PolicyChange, call: Call, failsAt: Option<nat>)
    requires WellKept(s) && Tidy(env, s) && Logged(s)
    ensures var r := Update(env, s, id, change, call, failsAt).0; Tidy(env, r) && Logged(r)
  {
    hide Tidy, Logged, Validate, RulesOk, VersionsOf, NameUsed, Reconcile, Update, WellKept;
    UpdateState(env, s, id, change, call, failsAt);
    if UpdateAccepted(env, s, id, change) {
      var row, note := UpdatedRow(s, id, change, call), UpdateNote(s, id, change, call);
      ValidIffRulesOk(env, Merged(s.policies[id], change));
      SaveKeepsTidy(env, s, row, note);
      SaveLogs(s, row, note);
      ReconcileKeepsRows(env, Save(s, row, note), row, failsAt, call.later);
    }
  }

  /** The random identifier of a new policy has not been used before, not even by a deleted one. */
  predicate UnusedId(s: State, step: Step) {
    step.CreateStep? ==> step.id !in s.policies && VersionsOf(s.versions, step.id) == []
  }

  lemma {:induction false} StepKeepsRows(env: Surroundings, s: State, step: Step)
    requires WellKept(s) && Tidy(env, s) && Logged(s) && Enabled(s, step) && UnusedId(s, step)
    ensures Tidy(env, Do(env, s, step)) && Logged(Do(env, s, step))
  {
    hide RulesOk, VersionsOf, Create, Update, History, AssertActivePolicyIds, PermissionsForAgent, WellKept;
    match step
    case CreateStep(id, input, call) => CreateKeepsRows(env, s, id, input, call);
    case UpdateStep(id, change, call, failsAt) => UpdateKeepsRows(env, s, id, change, call, failsAt);
    case DeleteStep(id) =>
    case AssignStep(k, ids, o) =>
  }

  ghost predicate FreshRun(env: Surroundings, s: State, steps: seq<Step>)
    decreases |steps|
  {
    steps != [] ==> Enabled(s, steps[0]) && UnusedId(s, steps[0]) && FreshRun(env, Do(env, s, steps[0]), steps[1..])
  }

  /** In every run, whether pushes succeed or fail, names stay unique, rules stay in order, and each
      policy can be told from its version log. */
  lemma {:induction false} RunsKeepRows(env: Surroundings, s: State, steps: seq<Step>)
    requires ListsRows(env) && WellKept(s) && Tidy(env, s) && Logged(s) && FreshRun(env, s, steps)
    ensures Runnable(env, s, steps)
    ensures Tidy(env, AfterSteps(env, s, steps)) && Logged(AfterSteps(env, s, steps))
    decreases |steps|
  {
    hide ListsRows, WellKept, Tidy, Logged, Enabled, UnusedId, Do;
    if steps != [] {
      StepKeepsKept(env, s, steps[0]);
      StepKeepsRows(env, s, steps[0]);
      RunsKeepRows(env, Do(env, s, steps[0]), steps[1..]);
    }
  }

  /** Hence the rules in force for an instance do not depend on the order of their tool rules:
      any rule with the same tool rules decides alike. */
  lemma {:induction false} StoredRulesAreOrderFree(
    env: Surroundings, s: State, id: string, i: nat, other: ServerRule, tool: string)
    requires Tidy(env, s) && id in s.policies && i < |s.policies[id].serverRules|
    requires other.defaultDecision == s.policies[id].serverRules[i].defaultDecision
    requires multiset(other.tools) == multiset(s.policies[id].serverRules[i].tools)
    ensures ResolvedDecision(other, tool) == ResolvedDecision(s.policies[id].serverRules[i], tool)
  {
    var rule := s.policies[id].serverRules[i];
    assert RuleOk(env, rule);
    RearrangedNames(rule.tools, other.tools);
    ToolRuleOrder(rule, other, tool);
  }

  /** A rearrangement of tool rules with distinct names has distinct names. */
  lemma {:induction false} RearrangedNames(a: seq<ToolRule>, b: seq<ToolRule>)
    requires multiset(a) == multiset(b) && Distinct(Map((t: ToolRule) => t.toolName, a))
    ensures Elements(a) == Elements(b) && Distinct(Map((t: ToolRule) => t.toolName, b))
  {
    var names := Map((t: ToolRule) => t.toolName, a);
    forall x ensures x in a <==> x in b {
      MembersByMultiset(a, b, x);
    }
    forall i, j | 0 <= i < j < |b| ensures b[i].toolName != b[j].toolName {
      MembersByMultiset(a, b, b[i]);
      MembersByMultiset(a, b, b[j]);
      var k :| 0 <= k < |a| && a[k] == b[i];
      var l :| 0 <= l < |a| && a[l] == b[j];
      if b[i].toolName == b[j].toolName {
        assert names[k] == names[l];
        TwiceInSequence(b, i, j);
        TwiceInMultiset(a, b[i]);
        NamesTellApart(a);
        assert false;
      }
    }
  }

  lemma {:induction false} NamesTellApart(tools: seq<ToolRule>)
    requires Distinct(Map((t: ToolRule) => t.toolName, tools))
    ensures Distinct(tools)
  {
    var names := Map((t: ToolRule) => t.toolName, tools);
    forall i, j | 0 <= i < j < |tools| ensures tools[i] != tools[j] {
      assert names[i] != names[j];
    }
  }

  // ------------------------------------------------------------------ summaries

  lemma {:induction false} SentencesShow(current: Policy, next: Policy)
    ensures var changes := Changes(current, next);
            && (changes == [] <==> current.status == next.status && current.serverRules == next.serverRules
                                   && current.name == next.name)
            && forall i :: 0 <= i < |changes| ==> |changes[i]| > 7 && changes[i][7] != UNCHANGED[7]
  {
    assert UNCHANGED[7] == 's';
    var status := "Status changed to " + StatusName(next.status) + ".";
    assert status[7] == "Status changed to "[7] == 'c';
    assert "MCP tool rules updated."[7] == 'l';
    assert "Policy name updated."[7] == 'n';
  }

  /** The summary of an update says that nothing changed exactly when name, status and rules are as before. */
  lemma {:induction false} SummaryIff(current: Policy, next: Policy)
    ensures ChangeSummary(current, next) == UNCHANGED
            <==> current.status == next.status && current.serverRules == next.serverRules
                 && current.name == next.name
  {
    var changes := Changes(current, next);
    SentencesShow(current, next);
    if changes != [] {
      hide Changes;
      assert Spaced(changes)[7] == changes[0][7];
    }
  }

  /** The summary says what has changed: the status first, then the rules, then the name. */
  lemma {:induction false} SummaryText(current: Policy, next: Policy)
    ensures var status := "Status changed to " + (if next.status == ACTIVE then "ACTIVE" else "DRAFT") + ".";
            var rules, name := "MCP tool rules updated.", "Policy name updated.";
            ChangeSummary(current, next) ==
              match (current.status == next.status, current.serverRules == next.serverRules, current.name == next.name)
              case (true, true, true) => "Policy saved."
              case (true, true, false) => name
              case (true, false, true) => rules
              case (true, false, false) => rules + " " + name
              case (false, true, true) => status
              case (false, true, false) => status + " " + name
              case (false, false, true) => status + " " + rules
              case (false, false, false) => status + " " + (rules + " " + name)
  {
    var status := "Status changed to " + StatusName(next.status) + ".";
    var rules, name := "MCP tool rules updated.", "Policy name updated.";
    assert status == "Status changed to " + (if next.status == ACTIVE then "ACTIVE" else "DRAFT") + ".";
    SpacedParts(
      if current.status == next.status then [] else [status],
      if current.serverRules == next.serverRules then [] else [rules],
      if current.name == next.name then [] else [name]);
    hide Spaced, StatusName;
  }

  /** At most one sentence on each of three matters. */
  lemma {:induction false} SpacedParts(a: seq<string>, b: seq<string>, c: seq<string>)
    requires |a| <= 1 && |b| <= 1 && |c| <= 1
    ensures Spaced(a + b + c) ==
            match (|a|, |b|, |c|)
            case (0, 0, 0) => ""
            case (0, 0, 1) => c[0]
            case (0, 1, 0) => b[0]
            case (0, 1, 1) => b[0] + " " + c[0]
            case (1, 0, 0) => a[0]
            case (1, 0, 1) => a[0] + " " + c[0]
            case (1, 1, 0) => a[0] + " " + b[0]
            case (1, 1, 1) => a[0] + " " + (b[0] + " " + c[0])
  {
    var all := a + b + c;
    if |all| == 2 {
      assert all[1..] == [all[1]];
    } else if |all| == 3 {
      assert all == [a[0], b[0], c[0]];
      assert all[1..] == [b[0], c[0]] && [b[0], c[0]][1..] == [c[0]];
      assert Spaced([b[0], c[0]]) == b[0] + " " + c[0];
    }
  }
}
