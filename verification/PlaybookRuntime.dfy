/** The interpreter of accepted Playbooks. Everything the outside world decides
    (operator results, schema verdicts, abort signals) is an oracle indexed by the
    iteration and the attempt at which it is consulted. */
module PlaybookRuntime {
  import opened Sequences
  import opened PlaybookGraph
  import opened PlaybookSchema
  import opened WhiteSpace

  datatype Snapshot<+S> = Snapshot(outcome: string, state: S, attributes: map<string, string>)

  /** What one operator call comes back with; an abort or a timeout counts as a rejection. */
  datatype Reply<+S> = Resolved(snapshot: Snapshot<S>) | Rejected(message: string)

  datatype AttemptError =
    | InputSchema(nodeId: string)
    | OperatorError(message: string)
    | BlankOutcome
    | OutputSchema(nodeId: string)

  datatype World<!S> = World(
    registered: NodeType -> bool,
    runAborted: nat -> bool,
    waitAborted: (nat, nat) -> bool,
    inputAccepted: (Node, S) -> bool,
    outputAccepted: (Node, S) -> bool,
    operate: (nat, nat, Node, S) -> Reply<S>
  )

  datatype Event =
    | Started(nodeId: string, kind: NodeType, attempt: nat, timeoutMs: nat)
    | Completed(nodeId: string, kind: NodeType, attempt: nat, outcome: string, attributes: map<string, string>)
    | Failed(nodeId: string, kind: NodeType, attempt: nat, error: AttemptError)
    | ReachedEnd(nodeId: string)

  datatype RunError =
    | MalformedPlaybook
    | InvalidPlaybook(issues: seq<Issue>)
    | RunAborted
    | NodeNotFound(nodeId: string)
    | NoOperator(kind: NodeType)
    | WaitAborted
    | NodeFailed(nodeId: string, attempts: nat, trace: seq<Event>, cause: Option<AttemptError>)
    | TransitionCount(nodeId: string, outcome: string, found: nat)
    | BoundExceeded

  datatype RunResult<+S> =
    | Finished(state: S, terminalNodeId: string, trace: seq<Event>)
    | Thrown(error: RunError)

  // ------------------------------------------------------------- one attempt

  datatype AttemptResult<+S> = Success(snapshot: Snapshot<S>) | Failure(error: AttemptError)

  function Attempt<S>(world: World<S>, node: Node, state: S, step: nat, attempt: nat): AttemptResult<S> {
    if !world.inputAccepted(node, state) then Failure(InputSchema(node.id))
    else
      match world.operate(step, attempt, node, state)
      case Rejected(message) => Failure(OperatorError(message))
      case Resolved(snapshot) =>
        if Blank(snapshot.outcome) then Failure(BlankOutcome)
        else if !world.outputAccepted(node, snapshot.state) then Failure(OutputSchema(node.id))
        else Success(snapshot)
  }

  function MaxAttempts(node: Node): nat {
    if node.retry.Some? then node.retry.value.maxAttempts else 1
  }

  function BackoffMs(node: Node): nat {
    if node.retry.Some? then node.retry.value.backoffMs else 0
  }

  function NodeTimeout(w: Playbook, node: Node): nat {
    if node.timeoutMs.Some? then node.timeoutMs.value else w.timeoutMs
  }

  /** Waiting between attempts rejects only for a positive delay. */
  predicate WaitRejects<S>(world: World<S>, node: Node, step: nat, attempt: nat) {
    attempt < MaxAttempts(node) && BackoffMs(node) > 0 && world.waitAborted(step, attempt)
  }

  function StartEvent(w: Playbook, node: Node, attempt: nat): Event {
    Started(node.id, node.kind, attempt, NodeTimeout(w, node))
  }

  function SuccessEvent<S>(node: Node, attempt: nat, snapshot: Snapshot<S>): Event {
    Completed(node.id, node.kind, attempt, snapshot.outcome, snapshot.attributes)
  }

  // ---------------------------------------------------- what a run is, as a relation

  /** Attempts `1..k` of `node` all fail on the same state and none of the waits is cut short. */
  ghost predicate AllFail<S>(world: World<S>, node: Node, state: S, step: nat, k: nat) {
    && (forall a :: 1 <= a <= k ==> Attempt(world, node, state, step, a).Failure?)
    && (forall a :: 1 <= a <= k ==> !WaitRejects(world, node, step, a))
  }

  /** The events of `k` failed attempts. */
  function FailureEvents<S>(w: Playbook, world: World<S>, node: Node, state: S, step: nat, k: nat): seq<Event> {
    if k == 0 then []
    else
      FailureEvents(w, world, node, state, step, k - 1)
      + [StartEvent(w, node, k)]
      + match Attempt(world, node, state, step, k)
        case Failure(error) => [Failed(node.id, node.kind, k, error)]
        case Success(_) => []
  }

  /** One visit to a node: either attempt `attempts` is the first to succeed and supplies
      the outcome and the state, or every attempt fails and the failure edge is taken
      with the state untouched. */
  datatype Visit<S> = Visit(
    node: Node, before: S, attempts: nat, succeeded: bool, outcome: string, after: S, events: seq<Event>)

  ghost predicate ValidVisit<S>(w: Playbook, world: World<S>, v: Visit<S>, step: nat) {
    && !world.runAborted(step)
    && v.node in w.nodes && v.node.kind != END && world.registered(v.node.kind)
    && if v.succeeded then
         && 1 <= v.attempts <= MaxAttempts(v.node)
         && AllFail(world, v.node, v.before, step, v.attempts - 1)
         && (match Attempt(world, v.node, v.before, step, v.attempts)
             case Failure(_) => false
             case Success(snapshot) =>
               && v.outcome == snapshot.outcome
               && v.after == snapshot.state
               && v.events == FailureEvents(w, world, v.node, v.before, step, v.attempts - 1)
                              + [StartEvent(w, v.node, v.attempts), SuccessEvent(v.node, v.attempts, snapshot)])
       else
         && v.attempts == MaxAttempts(v.node)
         && AllFail(world, v.node, v.before, step, v.attempts)
         && v.node.failurePolicy == Some(FOLLOW_FAILURE_EDGE)
         && v.outcome == "FAILURE"
         && v.after == v.before
         && v.events == FailureEvents(w, world, v.node, v.before, step, v.attempts)
  }

  /** A transition of the Playbook leads from `v` to `id`. */
  ghost predicate LeadsTo<S>(w: Playbook, v: Visit<S>, id: string) {
    Transition(v.node.id, v.outcome, id) in w.transitions
  }

  /** The visits chain from node `id` in `state` at iteration `step` to an END node. */
  ghost predicate ValidRun<S>(
    w: Playbook, world: World<S>, id: string, state: S, step: nat, visits: seq<Visit<S>>, terminal: Node, final: S)
    decreases |visits|
  {
    if visits == [] then
      !world.runAborted(step) && terminal in w.nodes && terminal.id == id && terminal.kind == END && final == state
    else
      && ValidVisit(w, world, visits[0], step)
      && visits[0].node.id == id && visits[0].before == state
      && exists next :: LeadsTo(w, visits[0], next)
                        && ValidRun(w, world, next, visits[0].after, step + 1, visits[1..], terminal, final)
  }

  function VisitEvents<S>(visits: seq<Visit<S>>): seq<Event> {
    if visits == [] then [] else visits[0].events + VisitEvents(visits[1..])
  }

  // ------------------------------------------------ the recursive, bound-free run

  datatype NodeRun<+S> =
    | Produced(snapshot: Snapshot<S>, events: seq<Event>)
    | Exhausted(cause: Option<AttemptError>, events: seq<Event>)
    | Cancelled

  /** Attempts from number `k` on, after `events` and with `last` the latest error. */
  function RunNode<S>(
    w: Playbook, world: World<S>, node: Node, state: S, step: nat, k: nat, last: Option<AttemptError>,
    events: seq<Event>)
    : NodeRun<S>
    decreases MaxAttempts(node) + 1 - k
  {
    if k > MaxAttempts(node) then Exhausted(last, events)
    else
      var started := events + [StartEvent(w, node, k)];
      match Attempt(world, node, state, step, k)
      case Success(snapshot) => Produced(snapshot, started + [SuccessEvent(node, k, snapshot)])
      case Failure(error) =>
        var failed := started + [Failed(node.id, node.kind, k, error)];
        if WaitRejects(world, node, step, k) then Cancelled
        else RunNode(w, world, node, state, step, k + 1, Some(error), failed)
  }

  function FindNode(nodes: seq<Node>, id: string): (r: Option<Node>)
    ensures r.Some? ==> r.value in nodes && r.value.id == id
    ensures r.None? ==> forall n :: n in nodes ==> n.id != id
  {
    if nodes == [] then None
    else
      var later := FindNode(nodes[1..], id);
      if later.Some? then later
      else if nodes[0].id == id then Some(nodes[0])
      else None
  }

  /** The targets that the transition filter leaves over. */
  function Matches(ts: seq<Transition>, source: string, outcome: string): seq<string> {
    if ts == [] then []
    else
      (if ts[0].from == source && ts[0].outcome == outcome then [ts[0].to] else [])
      + Matches(ts[1..], source, outcome)
  }

  /** What happens after the attempts: a state to continue with and the outcome, or a throw. */
  datatype Routing<+S> = Continue(next: string, state: S, events: seq<Event>) | Stop(error: RunError)

  function Route<S>(w: Playbook, node: Node, state: S, outcome: string, events: seq<Event>): Routing<S> {
    var matches := Matches(w.transitions, node.id, outcome);
    if |matches| != 1 then Stop(TransitionCount(node.id, outcome, |matches|))
    else Continue(matches[0], state, events)
  }

  function VisitNode<S>(w: Playbook, world: World<S>, node: Node, state: S, step: nat, events: seq<Event>): Routing<S> {
    match RunNode(w, world, node, state, step, 1, None, events)
    case Cancelled => Stop(WaitAborted)
    case Produced(snapshot, after) => Route(w, node, snapshot.state, snapshot.outcome, after)
    case Exhausted(cause, after) =>
      if node.failurePolicy == Some(FOLLOW_FAILURE_EDGE) then Route(w, node, state, "FAILURE", after)
      else Stop(NodeFailed(node.id, MaxAttempts(node), after, cause))
  }

  /** One iteration: a result, or the node, state and trace to go on with. */
  datatype Progress<+S> = Halt(result: RunResult<S>) | Move(next: string, state: S, events: seq<Event>)

  function Iteration<S>(
    w: Playbook, world: World<S>, id: string, state: S, step: nat, events: seq<Event>): Progress<S> {
    if world.runAborted(step) then Halt(Thrown(RunAborted))
    else
      match FindNode(w.nodes, id)
      case None => Halt(Thrown(NodeNotFound(id)))
      case Some(node) =>
        if node.kind == END then Halt(Finished(state, node.id, events + [ReachedEnd(node.id)]))
        else if !world.registered(node.kind) then Halt(Thrown(NoOperator(node.kind)))
        else
          match VisitNode(w, world, node, state, step, events)
          case Stop(error) => Halt(Thrown(error))
          case Continue(next, after, trace) => Move(next, after, trace)
  }

  /** Runs from node `id` with no step bound: every transition leaves fewer nodes reachable. */
  ghost function Semantics<S>(
    w: Playbook, world: World<S>, id: string, state: S, step: nat, events: seq<Event>): RunResult<S>
    requires !CycleReachable(w.transitions, id)
    decreases |ReachableSet(w.transitions, id)|
  {
    match Iteration(w, world, id, state, step, events)
    case Halt(result) => result
    case Move(next, after, trace) =>
      MoveTakesEdge(w, world, id, state, step, events);
      StepShrinksReachable(w.transitions, id, next);
      Semantics(w, world, next, after, step + 1, trace)
  }

  lemma {:induction false} MatchesAreTransitions(ts: seq<Transition>, source: string, outcome: string, id: string)
    ensures id in Matches(ts, source, outcome) <==> Transition(source, outcome, id) in ts
  {
    if ts != [] {
      MatchesAreTransitions(ts[1..], source, outcome, id);
    }
  }

  lemma {:induction false} RoutedAlongEdge<S>(
    w: Playbook, world: World<S>, node: Node, state: S, step: nat, events: seq<Event>)
    ensures var r := VisitNode(w, world, node, state, step, events);
            r.Continue? ==> Edge(w.transitions, node.id, r.next)
  {
    var r := VisitNode(w, world, node, state, step, events);
    if r.Continue? {
      var outcome := match RunNode(w, world, node, state, step, 1, None, events)
        case Produced(snapshot, _) => snapshot.outcome
        case _ => "FAILURE";
      MatchesAreTransitions(w.transitions, node.id, outcome, r.next);
      var i :| 0 <= i < |w.transitions| && w.transitions[i] == Transition(node.id, outcome, r.next);
    }
  }

  lemma {:induction false} MoveTakesEdge<S>(
    w: Playbook, world: World<S>, id: string, state: S, step: nat, events: seq<Event>)
    ensures var p := Iteration(w, world, id, state, step, events);
            p.Move? ==> Edge(w.transitions, id, p.next)
  {
    if Iteration(w, world, id, state, step, events).Move? {
      RoutedAlongEdge(w, world, FindNode(w.nodes, id).value, state, step, events);
    }
  }

  // --------------------------------------------------------------- the loop

  /** The inner retry loop. */
  method RunAttempts<S>(w: Playbook, world: World<S>, node: Node, state: S, step: nat, events: seq<Event>)
    returns (r: NodeRun<S>)
    ensures r == RunNode(w, world, node, state, step, 1, None, events)
  {
    var trace := events;
    var lastError: Option<AttemptError> := None;
    var attempt := 1;
    while attempt <= MaxAttempts(node)
      invariant 1 <= attempt <= MaxAttempts(node) + 1
      invariant RunNode(w, world, node, state, step, 1, None, events)
             == RunNode(w, world, node, state, step, attempt, lastError, trace)
    {
      trace := trace + [StartEvent(w, node, attempt)];
      match Attempt(world, node, state, step, attempt) {
        case Success(snapshot) =>
          trace := trace + [SuccessEvent(node, attempt, snapshot)];
          return Produced(snapshot, trace);
        case Failure(error) =>
          lastError := Some(error);
          trace := trace + [Failed(node.id, node.kind, attempt, error)];
          if WaitRejects(world, node, step, attempt) {
            return Cancelled;
          }
      }
      attempt := attempt + 1;
    }
    r := Exhausted(lastError, trace);
  }

  /** `walk` is a path of known nodes out of the entrypoint, one node an iteration. */
  ghost predicate Walked(w: Playbook, walk: seq<string>, current: string, step: nat) {
    && |walk| == step + 1
    && IsPath(w.transitions, walk)
    && walk[0] == w.entrypoint && walk[step] == current
    && (forall i :: 0 <= i <= step ==> walk[i] in NodeIds(w))
  }

  /** The counting argument: a walk in an accepted Playbook is shorter than its node list. */
  lemma {:induction false} WalkFitsBound(w: Playbook, walk: seq<string>, current: string, step: nat)
    requires WellFormed(w) && Walked(w, walk, current, step)
    ensures Distinct(walk) && step < |w.nodes|
  {
    PathIsSimpleOrCyclic(w.transitions, walk);
    DistinctBySize(walk);
    SubsetSize(Elements(walk), Elements(NodeIds(w)));
    ElementsSize(NodeIds(w));
  }

  lemma {:induction false} EntryIsWalked(w: Playbook)
    requires WellFormed(w)
    ensures Walked(w, [w.entrypoint], w.entrypoint, 0)
    ensures !CycleReachable(w.transitions, w.entrypoint)
  {
  }

  lemma {:induction false} WalkExtends(w: Playbook, walk: seq<string>, current: string, step: nat, next: string)
    requires WellFormed(w) && Walked(w, walk, current, step) && Edge(w.transitions, current, next)
    ensures Walked(w, walk + [next], next, step + 1)
  {
    ExtendPath(w.transitions, walk, next);
    var i :| 0 <= i < |w.transitions| && w.transitions[i].from == current && w.transitions[i].to == next;
    assert w.transitions[i] in w.transitions;
  }

  /** The bounded interpreter. It parses the Playbook first; on every accepted one and in every world it
      computes the bound-free run, and on every other one it reports the issues found. */
  method Execute<S>(w: Playbook, world: World<S>, initial: S) returns (r: RunResult<S>)
    ensures !WellShaped(Parsed(w)) ==> r == Thrown(MalformedPlaybook)
    ensures WellShaped(Parsed(w)) && !WellFormed(Parsed(w)) ==> r == Thrown(InvalidPlaybook(ExpectedIssues(Parsed(w))))
    ensures WellShaped(Parsed(w)) && WellFormed(Parsed(w)) ==>
              r == Semantics(Parsed(w), world, Parsed(w).entrypoint, initial, 0, [])
  {
    hide WellFormed;
    var execution := Parsed(w);
    if !WellShaped(execution) {
      return Thrown(MalformedPlaybook);
    }
    var issues := Validate(execution);
    AcceptedIffWellFormed(execution);
    if |issues| > 0 {
      return Thrown(InvalidPlaybook(issues));
    }
    r := Interpret(execution, world, initial);
  }

  method Interpret<S>(w: Playbook, world: World<S>, initial: S) returns (r: RunResult<S>)
    requires WellFormed(w)
    ensures r == Semantics(w, world, w.entrypoint, initial, 0, [])
  {
    hide WellFormed, CycleReachable, Walked, Edge, Iteration;
    var trace: seq<Event> := [];
    var state := initial;
    var current := w.entrypoint;
    ghost var walk := [current];
    EntryIsWalked(w);
    var step := 0;
    while step < |w.nodes|
      invariant step <= |w.nodes|
      invariant Walked(w, walk, current, step)
      invariant !CycleReachable(w.transitions, current)
      invariant Semantics(w, world, w.entrypoint, initial, 0, [])
             == Semantics(w, world, current, state, step, trace)
    {
      var progress := Iterate(w, world, current, state, step, trace);
      if progress.Halt? {
        return progress.result;
      }
      MoveTakesEdge(w, world, current, state, step, trace);
      WalkExtends(w, walk, current, step, progress.next);
      StepShrinksReachable(w.transitions, current, progress.next);
      current, state, trace := progress.next, progress.state, progress.events;
      walk := walk + [current];
      step := step + 1;
    }
    WalkFitsBound(w, walk, current, step);
    assert false;
    r := Thrown(BoundExceeded);
  }

  /** The body of the loop over nodes. */
  method Iterate<S>(w: Playbook, world: World<S>, current: string, state: S, step: nat, events: seq<Event>)
    returns (p: Progress<S>)
    ensures p == Iteration(w, world, current, state, step, events)
  {
    if world.runAborted(step) {
      return Halt(Thrown(RunAborted));
    }
    var found := FindNode(w.nodes, current);
    if found.None? {
      return Halt(Thrown(NodeNotFound(current)));
    }
    var node := found.value;
    if node.kind == END {
      return Halt(Finished(state, node.id, events + [ReachedEnd(node.id)]));
    }
    if !world.registered(node.kind) {
      return Halt(Thrown(NoOperator(node.kind)));
    }
    var after, trace, outcome := state, events, "FAILURE";
    var attempts := RunAttempts(w, world, node, state, step, events);
    match attempts {
      case Cancelled =>
        return Halt(Thrown(WaitAborted));
      case Produced(snapshot, produced) =>
        outcome, after, trace := snapshot.outcome, snapshot.state, produced;
      case Exhausted(cause, exhausted) =>
        trace := exhausted;
        if node.failurePolicy != Some(FOLLOW_FAILURE_EDGE) {
          return Halt(Thrown(NodeFailed(node.id, MaxAttempts(node), trace, cause)));
        }
    }
    var matches := Matches(w.transitions, node.id, outcome);
    if |matches| != 1 {
      return Halt(Thrown(TransitionCount(node.id, outcome, |matches|)));
    }
    p := Move(matches[0], after, trace);
  }
}
