/** The refinement that decides which Playbooks are accepted: identifier and
    transition checks followed by a depth-first search over the transitions. */
module PlaybookSchema {
  import opened Sequences
  import opened PlaybookGraph
  import opened WhiteSpace

  datatype NodeType =
    | REASON | KNOWLEDGE | TOOL | TRANSFORM | VERIFY | DELEGATE | APPROVAL | RESPONSE
    | NORMALIZE_INPUT | CLASSIFY_INTENT | RETRIEVE_EVIDENCE | DECISION | RENDER_TEMPLATE
    | ESCALATE | END

  datatype FailurePolicy = FAIL_RUN | FOLLOW_FAILURE_EDGE

  datatype Retry = Retry(maxAttempts: nat, backoffMs: nat)

  datatype Node = Node(
    id: string,
    kind: NodeType,
    timeoutMs: Option<nat>,
    retry: Option<Retry>,
    failurePolicy: Option<FailurePolicy>
  )

  datatype Playbook = Playbook(
    entrypoint: string,
    nodes: seq<Node>,
    transitions: seq<Transition>,
    timeoutMs: nat
  )

  datatype Issue =
    | DuplicateNodeIds
    | UnknownEntrypoint
    | NoEndNode
    | UnknownSource(index: nat)
    | UnknownTarget(index: nat)
    | DuplicateTransitionKeys
    | MissingFailureEdge(index: nat)
    | EndHasTransition(index: nat)
    | CycleFound
    | EndOutOfReach
    | UnreachableNodes(ids: seq<string>)

  // ---------------------------------------------------------------- identifiers

  predicate KebabChar(c: char) {
    'a' <= c <= 'z' || '0' <= c <= '9' || c == '-'
  }

  /** The lowercase kebab-case identifiers that the object schema lets through. */
  predicate Identifier(s: string) {
    && 1 <= |s| <= 160
    && 'a' <= s[0] <= 'z'
    && s[|s| - 1] != '-'
    && (forall i :: 0 <= i < |s| ==> KebabChar(s[i]))
    && (forall i :: 0 <= i < |s| - 1 ==> !(s[i] == '-' && s[i + 1] == '-'))
  }

  predicate WordChar(c: char) { 'a' <= c <= 'z' || '0' <= c <= '9' }

  /** Words of lowercase letters and digits, joined by dashes. */
  ghost predicate DashedWords(s: string)
    decreases |s|
  {
    || (s != [] && forall i :: 0 <= i < |s| ==> WordChar(s[i]))
    || exists k :: && 0 < k < |s| - 1 && s[k] == '-' && (forall i :: 0 <= i < k ==> WordChar(s[i]))
                   && DashedWords(s[k + 1..])
  }

  /** Words and single dashes between them. */
  predicate DashesApart(s: string) {
    && s != [] && s[0] != '-' && s[|s| - 1] != '-' && (forall i :: 0 <= i < |s| ==> KebabChar(s[i]))
    && (forall i :: 0 <= i < |s| - 1 ==> !(s[i] == '-' && s[i + 1] == '-'))
  }

  /** The characters by themselves say the same as the pattern: a letter, then words joined by dashes. */
  lemma {:induction false} IdentifierIffPattern(s: string)
    ensures Identifier(s) <==> |s| <= 160 && s != [] && 'a' <= s[0] <= 'z' && DashedWords(s)
  {
    DashedIff(s);
  }

  lemma {:induction false} DashedIff(s: string)
    ensures DashedWords(s) <==> DashesApart(s)
    decreases |s|
  {
    if i :| 0 <= i < |s| && !WordChar(s[i]) {
      var k := FirstDash(s);
      DashedIff(s[k + 1..]);
      CutDashes(s, k);
      CutPattern(s, k);
    }
  }

  lemma {:induction false} CutDashes(s: string, k: nat)
    requires k < |s| && !WordChar(s[k]) && forall i :: 0 <= i < k ==> WordChar(s[i])
    ensures DashesApart(s) <==> s[k] == '-' && 0 < k < |s| - 1 && DashesApart(s[k + 1..])
  {
    var rest := s[k + 1..];
    assert forall i :: k < i < |s| ==> s[i] == rest[i - k - 1];
    assert forall i :: 0 <= i < |rest| ==> rest[i] == s[k + 1 + i];
    if DashesApart(s) {
      assert KebabChar(s[k]);
    }
  }

  lemma {:induction false} CutPattern(s: string, k: nat)
    requires k < |s| && !WordChar(s[k]) && forall i :: 0 <= i < k ==> WordChar(s[i])
    ensures DashedWords(s) <==> s[k] == '-' && 0 < k < |s| - 1 && DashedWords(s[k + 1..])
  {
  }

  /** The position of the first character that is no letter and no digit. */
  lemma {:induction false} FirstDash(s: string) returns (k: nat)
    requires exists i :: 0 <= i < |s| && !WordChar(s[i])
    ensures k < |s| && !WordChar(s[k]) && forall i :: 0 <= i < k ==> WordChar(s[i])
  {
    k := 0;
    while WordChar(s[k])
      invariant k < |s| && forall i :: 0 <= i < k ==> WordChar(s[i])
      decreases |s| - k
    {
      k := k + 1;
    }
  }

  /** Parsing trims identifiers and outcomes. */
  function ParsedTransition(t: Transition): Transition {
    Transition(Trim(t.from), Trim(t.outcome), Trim(t.to))
  }

  function Parsed(w: Playbook): Playbook {
    w.(entrypoint := Trim(w.entrypoint),
       nodes := Map((n: Node) => n.(id := Trim(n.id)), w.nodes),
       transitions := Map(ParsedTransition, w.transitions))
  }

  ghost predicate TightTransition(t: Transition) {
    Tight(t.from) && Tight(t.outcome) && Tight(t.to)
  }

  ghost predicate PadsTransition(t: Transition, core: Transition) {
    Pads(t.from, core.from) && Pads(t.outcome, core.outcome) && Pads(t.to, core.to)
  }

  /** Parsing removes the white space around identifiers and outcomes and changes nothing else. */
  lemma {:induction false} ParsingDropsSpace(w: Playbook, core: Playbook)
    requires Tight(core.entrypoint) && Pads(w.entrypoint, core.entrypoint) && w.timeoutMs == core.timeoutMs
    requires |w.nodes| == |core.nodes| && |w.transitions| == |core.transitions|
    requires forall i :: 0 <= i < |w.nodes| ==>
               && Tight(core.nodes[i].id) && Pads(w.nodes[i].id, core.nodes[i].id)
               && core.nodes[i] == w.nodes[i].(id := core.nodes[i].id)
    requires forall i :: 0 <= i < |w.transitions| ==>
               TightTransition(core.transitions[i]) && PadsTransition(w.transitions[i], core.transitions[i])
    ensures Parsed(w) == core
  {
    TrimFindsCore(w.entrypoint, core.entrypoint);
    forall i | 0 <= i < |w.nodes| ensures Parsed(w).nodes[i] == core.nodes[i] {
      TrimFindsCore(w.nodes[i].id, core.nodes[i].id);
    }
    forall i | 0 <= i < |w.transitions| ensures Parsed(w).transitions[i] == core.transitions[i] {
      var t, c := w.transitions[i], core.transitions[i];
      TrimFindsCore(t.from, c.from);
      TrimFindsCore(t.outcome, c.outcome);
      TrimFindsCore(t.to, c.to);
    }
    assert Parsed(w).nodes == core.nodes && Parsed(w).transitions == core.transitions;
  }

  predicate NodeShape(n: Node) {
    && Identifier(n.id)
    && (n.timeoutMs.Some? ==> 100 <= n.timeoutMs.value <= 900_000)
    && (n.retry.Some? ==> 1 <= n.retry.value.maxAttempts <= 10 && n.retry.value.backoffMs <= 60_000)
  }

  predicate TransitionShape(t: Transition) {
    Identifier(t.from) && Identifier(t.to) && 1 <= |t.outcome| <= 120
  }

  /** What parsing the object shape has established before the refinement starts. */
  predicate WellShaped(w: Playbook) {
    && Identifier(w.entrypoint)
    && 2 <= |w.nodes| <= 200 && (forall i :: 0 <= i < |w.nodes| ==> NodeShape(w.nodes[i]))
    && 1 <= |w.transitions| <= 1_000 && (forall i :: 0 <= i < |w.transitions| ==> TransitionShape(w.transitions[i]))
    && 1_000 <= w.timeoutMs <= 900_000
  }

  function NodeIds(w: Playbook): seq<string> {
    Map((n: Node) => n.id, w.nodes)
  }

  function EndIds(w: Playbook): seq<string> {
    Map((n: Node) => n.id, Filter((n: Node) => n.kind == END, w.nodes))
  }

  /** The text under which a transition is compared for uniqueness. */
  function TransitionKey(t: Transition): string {
    t.from + ['\0'] + t.outcome
  }

  function TransitionKeys(w: Playbook): seq<string> {
    Map(TransitionKey, w.transitions)
  }

  predicate HasFailureEdge(w: Playbook, id: string) {
    exists i :: 0 <= i < |w.transitions| && w.transitions[i].from == id && w.transitions[i].outcome == "FAILURE"
  }

  /** No two transitions leave one node on one outcome. */
  predicate Deterministic(ts: seq<Transition>) {
    forall i, j :: 0 <= i < j < |ts| ==> ts[i].from != ts[j].from || ts[i].outcome != ts[j].outcome
  }

  // ------------------------------------------------------- what acceptance means

  /** What each declaration must satisfy by itself. */
  ghost predicate WellDeclared(w: Playbook) {
    && Distinct(NodeIds(w))
    && w.entrypoint in NodeIds(w)
    && (exists n :: n in w.nodes && n.kind == END)
    && (forall t :: t in w.transitions ==> t.from in NodeIds(w) && t.to in NodeIds(w))
    && Deterministic(w.transitions)
    && (forall n :: n in w.nodes && n.failurePolicy == Some(FOLLOW_FAILURE_EDGE) ==> HasFailureEdge(w, n.id))
    && (forall t, n :: t in w.transitions && n in w.nodes && n.kind == END ==> t.from != n.id)
  }

  /** No cycle and nothing out of reach, in terms of paths. */
  ghost predicate WellConnected(w: Playbook) {
    && !CycleReachable(w.transitions, w.entrypoint)
    && (exists n :: n in w.nodes && n.kind == END && Reaches(w.transitions, w.entrypoint, n.id))
    && (forall n :: n in w.nodes ==> Reaches(w.transitions, w.entrypoint, n.id))
  }

  /** The property a Playbook author relies on, without reference to the search. */
  ghost predicate WellFormed(w: Playbook) {
    WellDeclared(w) && WellConnected(w)
  }

  function SourceAndTargetIssues(w: Playbook, k: nat): seq<Issue>
    requires k <= |w.transitions|
  {
    if k == 0 then []
    else
      SourceAndTargetIssues(w, k - 1)
      + (if w.transitions[k - 1].from !in NodeIds(w) then [UnknownSource(k - 1)] else [])
      + (if w.transitions[k - 1].to !in NodeIds(w) then [UnknownTarget(k - 1)] else [])
  }

  function FailureEdgeIssues(w: Playbook, k: nat): seq<Issue>
    requires k <= |w.nodes|
  {
    if k == 0 then []
    else
      FailureEdgeIssues(w, k - 1)
      + (if w.nodes[k - 1].failurePolicy == Some(FOLLOW_FAILURE_EDGE) && !HasFailureEdge(w, w.nodes[k - 1].id)
         then [MissingFailureEdge(k - 1)] else [])
  }

  function EndTransitionIssues(w: Playbook, k: nat): seq<Issue>
    requires k <= |w.transitions|
  {
    if k == 0 then []
    else
      EndTransitionIssues(w, k - 1)
      + (if w.transitions[k - 1].from in EndIds(w) then [EndHasTransition(k - 1)] else [])
  }

  ghost function UnreachableIds(w: Playbook): seq<string> {
    Filter(id => !Reaches(w.transitions, w.entrypoint, id), NodeIds(w))
  }

  function NodeIssues(w: Playbook): seq<Issue> {
    (if !Distinct(NodeIds(w)) then [DuplicateNodeIds] else [])
    + (if w.entrypoint !in NodeIds(w) then [UnknownEntrypoint] else [])
    + (if !(exists n :: n in w.nodes && n.kind == END) then [NoEndNode] else [])
  }

  function KeyIssues(w: Playbook): seq<Issue> {
    if Deterministic(w.transitions) then [] else [DuplicateTransitionKeys]
  }

  /** What the checks made before the search must report. */
  function DeclarationIssues(w: Playbook): seq<Issue> {
    NodeIssues(w)
    + SourceAndTargetIssues(w, |w.transitions|)
    + KeyIssues(w)
    + FailureEdgeIssues(w, |w.nodes|)
    + EndTransitionIssues(w, |w.transitions|)
  }

  /** What the search must report, in terms of paths. */
  ghost function SearchIssues(w: Playbook): seq<Issue> {
    (if CycleReachable(w.transitions, w.entrypoint) then [CycleFound] else [])
    + (if !(exists id :: id in EndIds(w) && Reaches(w.transitions, w.entrypoint, id)) then [EndOutOfReach] else [])
    + (if UnreachableIds(w) != [] then [UnreachableNodes(UnreachableIds(w))] else [])
  }

  /** The issues a Playbook deserves, in reporting order. */
  ghost function ExpectedIssues(w: Playbook): seq<Issue> {
    DeclarationIssues(w) + SearchIssues(w)
  }

  // --------------------------------------------------------------- the search

  /** As long as no cycle has been met, targets finish before their sources. */
  ghost predicate Ranked(ts: seq<Transition>, finished: seq<string>) {
    forall i, t :: 0 <= i < |finished| && Edge(ts, finished[i], t) ==> t in finished[..i]
  }

  /** What holds between calls of `visit`. `stack` is the chain of calls in progress,
      outermost first; `finished` lists the visited nodes in finishing order. */
  ghost predicate Consistent(
    ts: seq<Transition>, root: string, stack: seq<string>, finished: seq<string>, cycleFound: bool)
  {
    && (stack != [] ==> IsPath(ts, stack) && stack[0] == root)
    && Elements(stack) !! Elements(finished)
    && Elements(stack) + Elements(finished) <= Universe(ts, root)
    && (forall v :: v in Elements(finished) ==> Reaches(ts, root, v))
    && (forall v, t :: v in Elements(finished) && Edge(ts, v, t) ==> t in Elements(finished) + Elements(stack))
    && (!cycleFound ==> Ranked(ts, finished))
    && (cycleFound ==> CycleReachable(ts, root))
  }

  /** A call on `id` is one the chain `stack` can make. */
  ghost predicate Callable(ts: seq<Transition>, root: string, stack: seq<string>, id: string) {
    if stack == [] then id == root else Edge(ts, stack[|stack| - 1], id)
  }

  lemma {:induction false} ChainExtends(
    ts: seq<Transition>, root: string, stack: seq<string>, finished: seq<string>, flag: bool, id: string)
    requires Consistent(ts, root, stack, finished, flag) && Callable(ts, root, stack, id)
    ensures IsPath(ts, stack + [id]) && (stack + [id])[0] == root
    ensures id in Universe(ts, root) && Reaches(ts, root, id)
    ensures Elements(stack + [id]) == Elements(stack) + {id}
    ensures id !in finished ==> Consistent(ts, root, stack + [id], finished, flag)
  {
    ElementsPushed(stack, id);
    if stack == [] {
      assert IsPath(ts, [id]);
    } else {
      ExtendPath(ts, stack, id);
      EdgeStaysInside(ts, root, stack[|stack| - 1], id);
    }
    assert PathFromTo(ts, stack + [id], root, id);
  }

  /** Meeting a node of the current chain again closes a cycle. */
  lemma {:induction false} RevisitIsCycle(
    ts: seq<Transition>, root: string, stack: seq<string>, finished: seq<string>, flag: bool, id: string)
    requires Consistent(ts, root, stack, finished, flag) && Callable(ts, root, stack, id) && id in stack
    ensures CycleReachable(ts, root)
    ensures Consistent(ts, root, stack, finished, true)
  {
    var k :| 0 <= k < |stack| && stack[k] == id;
    ChainExtends(ts, root, stack, finished, flag, id);
    SubPath(ts, stack + [id], k, |stack|);
    assert OnCycle(ts, id);
  }

  /** A node may move from `visiting` to `visited` once all its targets are settled. */
  lemma {:induction false} FinishNode(
    ts: seq<Transition>, root: string, stack: seq<string>, finished: seq<string>, flag: bool, id: string)
    requires Consistent(ts, root, stack + [id], finished, flag) && id !in stack
    requires forall t :: Edge(ts, id, t) ==>
               t in Elements(finished) || (t in Elements(stack + [id]) && flag)
    ensures Consistent(ts, root, stack, finished + [id], flag)
    ensures Elements(finished + [id]) == Elements(finished) + {id}
  {
    var chain, f := stack + [id], finished + [id];
    ElementsPushed(stack, id);
    ElementsPushed(finished, id);
    if stack != [] {
      SubPath(ts, chain, 0, |stack| - 1);
      assert chain[0..|stack|] == stack;
    }
    SubPath(ts, chain, 0, |stack|);
    assert Reaches(ts, root, id);
    if !flag {
      forall i, t | 0 <= i < |f| && Edge(ts, f[i], t) ensures t in f[..i] {
        assert f[..i] == finished[..i];
        if i == |finished| {
          assert finished[..i] == finished;
        }
      }
    }
  }

  /** The first position of `v` in the finishing order. */
  function FinishIndex(finished: seq<string>, v: string): (k: nat)
    requires v in finished
    ensures k < |finished| && finished[k] == v && v !in finished[..k]
  {
    if finished[0] == v then 0 else 1 + FinishIndex(finished[1..], v)
  }

  lemma {:induction false} FirstIndexInPrefix(finished: seq<string>, n: nat, v: string)
    requires n <= |finished| && v in finished[..n]
    ensures FinishIndex(finished, v) < n
  {
    var k := FinishIndex(finished, v);
    assert forall j :: 0 <= j < k ==> finished[..k][j] == finished[j];
  }

  /** Ranks from the finishing order refute every cycle among the visited nodes. */
  lemma {:induction false} NoFlagNoCycle(ts: seq<Transition>, root: string, finished: seq<string>)
    requires Consistent(ts, root, [], finished, false) && root in finished
    ensures !CycleReachable(ts, root)
  {
    var rank: map<string, nat> := map v | v in Elements(finished) :: FinishIndex(finished, v);
    forall a, b | a in rank && Edge(ts, a, b)
      ensures b in rank && rank[b] < rank[a]
    {
      var early := finished[..rank[a]];
      assert b in early;
      FirstIndexInPrefix(finished, rank[a], b);
    }
    if CycleReachable(ts, root) {
      var v :| Reaches(ts, root, v) && OnCycle(ts, v);
      var q :| PathFromTo(ts, q, root, v);
      ClosedContainsReachable(ts, Elements(finished), q);
      var p :| PathFromTo(ts, p, v, v) && |p| >= 2;
      RanksFall(ts, rank, p);
      assert false;
    }
  }

  /** A set closed under transitions that holds only reachable nodes is the reachable set. */
  lemma {:induction false} VisitedIsReachable(ts: seq<Transition>, root: string, finished: seq<string>, flag: bool)
    requires Consistent(ts, root, [], finished, flag) && root in finished
    ensures forall x :: x in finished <==> Reaches(ts, root, x)
  {
    forall x | Reaches(ts, root, x) ensures x in finished {
      var p :| PathFromTo(ts, p, root, x);
      ClosedContainsReachable(ts, Elements(finished), p);
    }
    assert forall x :: x in finished ==> x in Elements(finished);
  }

  /** `targets` groups the transition targets by source. */
  ghost predicate Indexes(targets: map<string, seq<string>>, ts: seq<Transition>) {
    forall s :: Targets(ts, s) == if s in targets then targets[s] else []
  }

  /** The two mutable sets and the flag that `visit` works on. */
  class CycleSearch {
    const transitions: seq<Transition>
    const root: string
    const targetsBySource: map<string, seq<string>>
    var visiting: set<string>
    var visited: set<string>
    var cycleFound: bool
    ghost var finished: seq<string>

    ghost predicate Valid(stack: seq<string>)
      reads this
    {
      && Indexes(targetsBySource, transitions)
      && visiting == Elements(stack)
      && visited == Elements(finished)
      && Consistent(transitions, root, stack, finished, cycleFound)
    }

    constructor (ts: seq<Transition>, start: string, targets: map<string, seq<string>>)
      requires Indexes(targets, ts)
      ensures transitions == ts && root == start && targetsBySource == targets
      ensures visited == {} && !cycleFound
      ensures Valid([])
    {
      transitions, root, targetsBySource := ts, start, targets;
      visiting, visited, cycleFound := {}, {}, false;
      finished := [];
    }

    /** Nodes that need no further visit: visited, or on the chain with the flag up. */
    ghost function Settled(): set<string>
      reads this
    {
      visited + if cycleFound then visiting else {}
    }

    method Visit(id: string, ghost stack: seq<string>)
      requires Valid(stack) && Callable(transitions, root, stack, id)
      modifies this
      ensures Valid(stack) && id in Settled()
      ensures visiting == old(visiting) && old(visited) <= visited
      ensures old(cycleFound) ==> cycleFound
      decreases Universe(transitions, root) - visiting - visited, 0
    {
      ChainExtends(transitions, root, stack, finished, cycleFound, id);
      if id in visiting {
        RevisitIsCycle(transitions, root, stack, finished, cycleFound, id);
        cycleFound := true;
        return;
      }
      if id in visited {
        return;
      }
      assert id in Universe(transitions, root) - visiting - visited;
      visiting := visiting + {id};
      var targets := if id in targetsBySource then targetsBySource[id] else [];
      forall t | t in targets ensures Edge(transitions, id, t) {
        TargetsAreEdges(transitions, id, t);
      }
      VisitEach(targets, stack, id);
      forall t | Edge(transitions, id, t) ensures t in Settled() {
        TargetsAreEdges(transitions, id, t);
      }
      FinishNode(transitions, root, stack, finished, cycleFound, id);
      visiting := visiting - {id};
      visited := visited + {id};
      finished := finished + [id];
    }

    /** The loop over the targets of `id`, which stands on top of `stack`. */
    method VisitEach(targets: seq<string>, ghost stack: seq<string>, ghost id: string)
      requires Valid(stack + [id])
      requires forall t :: t in targets ==> Edge(transitions, id, t)
      modifies this
      ensures Valid(stack + [id])
      ensures visiting == old(visiting) && old(visited) <= visited
      ensures old(cycleFound) ==> cycleFound
      ensures Elements(targets) <= Settled()
      decreases Universe(transitions, root) - visiting - visited, 1
    {
      hide Consistent, Universe, Edge;
      var i := 0;
      ghost var before := Universe(transitions, root) - visiting - visited;
      while i < |targets|
        invariant i <= |targets|
        invariant Valid(stack + [id])
        invariant visiting == old(visiting) && old(visited) <= visited
        invariant old(cycleFound) ==> cycleFound
        invariant Elements(targets[..i]) <= Settled()
      {
        ghost var ahead := Universe(transitions, root) - visiting - visited;
        assert ahead == before || ahead < before;
        Visit(targets[i], stack + [id]);
        assert Elements(targets[..i + 1]) == Elements(targets[..i]) + {targets[i]};
        i := i + 1;
      }
      assert targets[..i] == targets;
    }

    /** The whole search: `visited` is exactly what the root reaches, and the flag is
        raised exactly when some reachable node lies on a cycle. */
    method Run()
      requires Valid([]) && visited == {} && !cycleFound
      modifies this
      ensures forall x :: x in visited <==> Reaches(transitions, root, x)
      ensures cycleFound <==> CycleReachable(transitions, root)
    {
      Visit(root, []);
      VisitedIsReachable(transitions, root, finished, cycleFound);
      if !cycleFound {
        NoFlagNoCycle(transitions, root, finished);
      }
    }
  }

  lemma {:induction false} NextTransition(ts: seq<Transition>, i: nat)
    requires i < |ts|
    ensures forall s :: Targets(ts[..i + 1], s) == Targets(ts[..i], s) + (if ts[i].from == s then [ts[i].to] else [])
  {
    forall s ensures Targets(ts[..i + 1], s) == Targets(ts[..i], s) + (if ts[i].from == s then [ts[i].to] else []) {
      assert ts[..i + 1] == ts[..i] + [ts[i]];
      assert [ts[i]][1..] == [];
      TargetsConcat(ts[..i], [ts[i]], s);
    }
  }

  method TargetsBySource(ts: seq<Transition>) returns (targets: map<string, seq<string>>)
    ensures Indexes(targets, ts)
  {
    targets := map[];
    var i := 0;
    while i < |ts|
      invariant i <= |ts|
      invariant Indexes(targets, ts[..i])
    {
      NextTransition(ts, i);
      hide Targets;
      var known := if ts[i].from in targets then targets[ts[i].from] else [];
      targets := targets[ts[i].from := known + [ts[i].to]];
      i := i + 1;
    }
    assert ts[..|ts|] == ts;
  }

  /** Joining with a NUL cannot merge two keys, since identifiers contain none. */
  lemma {:induction false} KeysIdentifyTransitions(a: Transition, b: Transition)
    requires Identifier(a.from) && Identifier(b.from)
    ensures TransitionKey(a) == TransitionKey(b) <==> a.from == b.from && a.outcome == b.outcome
  {
    var x, y := TransitionKey(a), TransitionKey(b);
    assert x[|a.from|] == '\0' && y[|b.from|] == '\0';
    assert forall i :: 0 <= i < |a.from| ==> x[i] == a.from[i] && KebabChar(x[i]);
    assert forall i :: 0 <= i < |b.from| ==> y[i] == b.from[i] && KebabChar(y[i]);
    if x == y {
      assert |a.from| == |b.from|;
      assert a.from == x[..|a.from|] == b.from;
      assert a.outcome == x[|a.from| + 1..] == b.outcome;
    }
  }

  lemma {:induction false} DistinctKeysAreDeterministic(w: Playbook)
    requires WellShaped(w)
    ensures Distinct(TransitionKeys(w)) <==> Deterministic(w.transitions)
  {
    var ks := TransitionKeys(w);
    forall i, j | 0 <= i < j < |ks|
      ensures ks[i] != ks[j] <==>
              w.transitions[i].from != w.transitions[j].from || w.transitions[i].outcome != w.transitions[j].outcome
    {
      KeysIdentifyTransitions(w.transitions[i], w.transitions[j]);
    }
  }

  /** The checks made before the search. */
  method CheckDeclarations(w: Playbook) returns (issues: seq<Issue>)
    requires WellShaped(w)
    ensures issues == DeclarationIssues(w)
  {
    issues := CheckNodes(w);
    issues := CheckReferences(w, issues);
    issues := CheckKeys(w, issues);
    issues := CheckEdges(w, issues);
  }

  /** Unique identifiers, a known entrypoint and an END node. */
  method CheckNodes(w: Playbook) returns (issues: seq<Issue>)
    ensures issues == NodeIssues(w)
  {
    issues := [];
    var nodeIds := NodeIds(w);
    var known := Elements(nodeIds);
    DistinctBySize(nodeIds);
    if |known| != |nodeIds| {
      issues := issues + [DuplicateNodeIds];
    }
    if w.entrypoint !in known {
      issues := issues + [UnknownEntrypoint];
    }
    if !(exists n :: n in w.nodes && n.kind == END) {
      issues := issues + [NoEndNode];
    }
  }

  /** Uniqueness of (source, outcome), by the size of a set of keys. */
  method CheckKeys(w: Playbook, found: seq<Issue>) returns (issues: seq<Issue>)
    requires WellShaped(w)
    ensures issues == found + KeyIssues(w)
  {
    var keys := TransitionKeys(w);
    DistinctBySize(keys);
    DistinctKeysAreDeterministic(w);
    issues := found;
    if |Elements(keys)| != |keys| {
      issues := issues + [DuplicateTransitionKeys];
    }
  }

  /** Sources and targets of transitions. */
  method CheckReferences(w: Playbook, found: seq<Issue>) returns (issues: seq<Issue>)
    ensures issues == found + SourceAndTargetIssues(w, |w.transitions|)
  {
    issues := found;
    var known := Elements(NodeIds(w));
    var i := 0;
    while i < |w.transitions|
      invariant i <= |w.transitions|
      invariant issues == found + SourceAndTargetIssues(w, i)
    {
      if w.transitions[i].from !in known {
        issues := issues + [UnknownSource(i)];
      }
      if w.transitions[i].to !in known {
        issues := issues + [UnknownTarget(i)];
      }
      i := i + 1;
    }
  }

  /** Failure edges and the transitions of END nodes. */
  method CheckEdges(w: Playbook, found: seq<Issue>) returns (issues: seq<Issue>)
    ensures issues == found + FailureEdgeIssues(w, |w.nodes|) + EndTransitionIssues(w, |w.transitions|)
  {
    issues := found;
    var i := 0;
    while i < |w.nodes|
      invariant i <= |w.nodes|
      invariant issues == found + FailureEdgeIssues(w, i)
    {
      if w.nodes[i].failurePolicy == Some(FOLLOW_FAILURE_EDGE) && !HasFailureEdge(w, w.nodes[i].id) {
        issues := issues + [MissingFailureEdge(i)];
      }
      i := i + 1;
    }
    var endNodeIds := Elements(EndIds(w));
    ghost var before := issues;
    i := 0;
    while i < |w.transitions|
      invariant i <= |w.transitions|
      invariant issues == before + EndTransitionIssues(w, i)
    {
      if w.transitions[i].from in endNodeIds {
        issues := issues + [EndHasTransition(i)];
      }
      i := i + 1;
    }
  }

  /** The search and the three checks that read its result. */
  method CheckReachability(w: Playbook) returns (issues: seq<Issue>)
    ensures issues == SearchIssues(w)
  {
    issues := [];
    var targets := TargetsBySource(w.transitions);
    var search := new CycleSearch(w.transitions, w.entrypoint, targets);
    search.Run();
    if search.cycleFound {
      issues := issues + [CycleFound];
    }
    var visited := search.visited;
    if !(exists id :: id in EndIds(w) && id in visited) {
      issues := issues + [EndOutOfReach];
    }
    var unreachable := Filter(id => id !in visited, NodeIds(w));
    FilterAgrees(id => id !in visited, id => !Reaches(w.transitions, w.entrypoint, id), NodeIds(w));
    if |unreachable| > 0 {
      issues := issues + [UnreachableNodes(unreachable)];
    }
  }

  /** The refinement itself, check by check. */
  method Validate(w: Playbook) returns (issues: seq<Issue>)
    requires WellShaped(w)
    ensures issues == ExpectedIssues(w)
  {
    var declared := CheckDeclarations(w);
    var searched := CheckReachability(w);
    issues := declared + searched;
  }

  // -------------------------------------------------- acceptance is well-formedness

  lemma {:induction false} NoSourceIssues(w: Playbook, k: nat)
    requires k <= |w.transitions|
    ensures SourceAndTargetIssues(w, k) == [] <==>
            forall i :: 0 <= i < k ==> w.transitions[i].from in NodeIds(w) && w.transitions[i].to in NodeIds(w)
  {
    if k > 0 {
      NoSourceIssues(w, k - 1);
    }
  }

  lemma {:induction false} NoFailureEdgeIssues(w: Playbook, k: nat)
    requires k <= |w.nodes|
    ensures FailureEdgeIssues(w, k) == [] <==>
            forall i :: 0 <= i < k && w.nodes[i].failurePolicy == Some(FOLLOW_FAILURE_EDGE)
                        ==> HasFailureEdge(w, w.nodes[i].id)
  {
    if k > 0 {
      NoFailureEdgeIssues(w, k - 1);
    }
  }

  lemma {:induction false} NoEndTransitionIssues(w: Playbook, k: nat)
    requires k <= |w.transitions|
    ensures EndTransitionIssues(w, k) == [] <==>
            forall i :: 0 <= i < k ==> w.transitions[i].from !in EndIds(w)
  {
    if k > 0 {
      NoEndTransitionIssues(w, k - 1);
    }
  }

  lemma {:induction false} EndIdsAreEnds(w: Playbook, id: string)
    ensures id in EndIds(w) <==> exists n :: n in w.nodes && n.kind == END && n.id == id
  {
    var ends := Filter((n: Node) => n.kind == END, w.nodes);
    forall n ensures n in ends <==> n in w.nodes && n.kind == END {
      FilterMember((m: Node) => m.kind == END, w.nodes, n);
    }
    if id in EndIds(w) {
      var k :| 0 <= k < |ends| && EndIds(w)[k] == id;
      assert ends[k] in ends;
    }
    if n :| n in w.nodes && n.kind == END && n.id == id {
      var k :| 0 <= k < |ends| && ends[k] == n;
      assert EndIds(w)[k] == id;
    }
  }

  lemma {:induction false} NodeIdsAreIds(w: Playbook, id: string)
    ensures id in NodeIds(w) <==> exists n :: n in w.nodes && n.id == id
  {
    if id in NodeIds(w) {
      var k :| 0 <= k < |w.nodes| && NodeIds(w)[k] == id;
      assert w.nodes[k] in w.nodes;
    }
    if n :| n in w.nodes && n.id == id {
      var k :| 0 <= k < |w.nodes| && w.nodes[k] == n;
      assert NodeIds(w)[k] == id;
    }
  }

  lemma {:induction false} NothingUnreachable(w: Playbook)
    ensures UnreachableIds(w) == [] <==>
            forall n :: n in w.nodes ==> Reaches(w.transitions, w.entrypoint, n.id)
  {
    var lost := (id: string) => !Reaches(w.transitions, w.entrypoint, id);
    forall id ensures id in UnreachableIds(w) <==> id in NodeIds(w) && lost(id) {
      FilterMember(lost, NodeIds(w), id);
      NodeIdsAreIds(w, id);
    }
    if UnreachableIds(w) != [] {
      var id := UnreachableIds(w)[0];
      NodeIdsAreIds(w, id);
    } else {
      forall n | n in w.nodes ensures Reaches(w.transitions, w.entrypoint, n.id) {
        NodeIdsAreIds(w, n.id);
        assert n.id !in UnreachableIds(w);
      }
    }
  }

  lemma {:induction false} DeclarationsAccepted(w: Playbook)
    ensures DeclarationIssues(w) == [] <==> WellDeclared(w)
  {
    NoSourceIssues(w, |w.transitions|);
    NoFailureEdgeIssues(w, |w.nodes|);
    NoEndTransitionIssues(w, |w.transitions|);
    forall t | t in w.transitions
      ensures t.from !in EndIds(w) <==> forall n :: n in w.nodes && n.kind == END ==> t.from != n.id
    {
      EndIdsAreEnds(w, t.from);
    }
  }

  lemma {:induction false} SearchAccepted(w: Playbook)
    ensures SearchIssues(w) == [] <==> WellConnected(w)
  {
    NothingUnreachable(w);
    if n :| n in w.nodes && n.kind == END && Reaches(w.transitions, w.entrypoint, n.id) {
      EndIdsAreEnds(w, n.id);
    }
    if id :| id in EndIds(w) && Reaches(w.transitions, w.entrypoint, id) {
      EndIdsAreEnds(w, id);
    }
  }

  /** A Playbook is accepted exactly when it is well formed. */
  lemma {:induction false} AcceptedIffWellFormed(w: Playbook)
    ensures ExpectedIssues(w) == [] <==> WellFormed(w)
  {
    DeclarationsAccepted(w);
    SearchAccepted(w);
  }
}
