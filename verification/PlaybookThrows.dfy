/** Why a run of an accepted Playbook throws: for every throw, a chain of valid visits and a cause at
    the node where it ends. */
module PlaybookThrows {
  import opened Sequences
  import opened PlaybookGraph
  import opened PlaybookSchema
  import opened PlaybookRuntime
  import opened PlaybookSafety
  import opened WhiteSpace

  // ----------------------------------------------------------------- the causes

  /** The attempts before `a` fail and none of the waits behind them is aborted. */
  ghost predicate GetsTo<S>(world: World<S>, n: Node, state: S, step: nat, a: nat) {
    1 <= a <= MaxAttempts(n) && AllFail(world, n, state, step, a - 1)
  }

  /** The error of the last attempt, if there was one. */
  function LastError<S>(world: World<S>, n: Node, state: S, step: nat): Option<AttemptError> {
    if MaxAttempts(n) == 0 then None
    else
      match Attempt(world, n, state, step, MaxAttempts(n))
      case Failure(error) => Some(error)
      case Success(_) => None
  }

  /** Why visiting `n` throws `e`, with `before` on the trace so far. */
  ghost predicate VisitCause<S>(
    w: Playbook, world: World<S>, n: Node, state: S, step: nat, before: seq<Event>, e: RunError)
  {
    match e
    case WaitAborted =>
      exists a :: GetsTo(world, n, state, step, a)
                  && Attempt(world, n, state, step, a).Failure? && WaitRejects(world, n, step, a)
    case NodeFailed(nodeId, attempts, trace, cause) =>
      && nodeId == n.id && attempts == MaxAttempts(n) && n.failurePolicy != Some(FOLLOW_FAILURE_EDGE)
      && AllFail(world, n, state, step, attempts)
      && trace == before + FailureEvents(w, world, n, state, step, attempts)
      && cause == LastError(world, n, state, step)
    case TransitionCount(nodeId, outcome, found) =>
      && nodeId == n.id && found == 0
      && (forall t :: t in w.transitions ==> t.from != nodeId || t.outcome != outcome)
      && exists a :: GetsTo(world, n, state, step, a) && SucceedsWith(world, n, state, step, a, outcome)
    case _ => false
  }

  ghost predicate SucceedsWith<S>(world: World<S>, n: Node, state: S, step: nat, a: nat, outcome: string) {
    match Attempt(world, n, state, step, a)
    case Success(snapshot) => snapshot.outcome == outcome
    case Failure(_) => false
  }

  /** Why iteration `step`, at node `id`, throws `e`. */
  ghost predicate Cause<S>(
    w: Playbook, world: World<S>, id: string, state: S, step: nat, before: seq<Event>, e: RunError)
  {
    if world.runAborted(step) then e == RunAborted
    else
      exists n :: n in w.nodes && n.id == id && n.kind != END
                  && if world.registered(n.kind) then VisitCause(w, world, n, state, step, before, e)
                     else e == NoOperator(n.kind)
  }

  // ------------------------------------------------------------------ one visit

  lemma {:induction false} ExhaustedError<S>(
    w: Playbook, world: World<S>, n: Node, state: S, step: nat, k: nat, last: Option<AttemptError>, events: seq<Event>)
    requires 1 <= k <= MaxAttempts(n) + 1
    ensures match RunNode(w, world, n, state, step, k, last, events)
      case Exhausted(cause, _) =>
        cause == if k == MaxAttempts(n) + 1 then last else LastError(world, n, state, step)
      case _ => true
    decreases MaxAttempts(n) + 1 - k
  {
    hide WaitRejects;
    if k <= MaxAttempts(n) && !WaitRejects(world, n, step, k) {
      match Attempt(world, n, state, step, k)
      case Success(_) =>
      case Failure(error) =>
        var failed := events + [StartEvent(w, n, k)] + [Failed(n.id, n.kind, k, error)];
        ExhaustedError(w, world, n, state, step, k + 1, Some(error), failed);
    }
  }

  /** The attempts have one end: two descriptions of it agree. */
  lemma {:induction false} OneEnd<S>(world: World<S>, n: Node, state: S, step: nat, a: nat, b: nat)
    requires GetsTo(world, n, state, step, a) && GetsTo(world, n, state, step, b)
    requires Attempt(world, n, state, step, a).Success? || WaitRejects(world, n, step, a)
    requires Attempt(world, n, state, step, b).Success? || WaitRejects(world, n, step, b)
    ensures a == b
  {
    hide Attempt, WaitRejects;
  }

  lemma {:induction false} AllFailHasNoEnd<S>(world: World<S>, n: Node, state: S, step: nat, a: nat)
    requires AllFail(world, n, state, step, MaxAttempts(n)) && 1 <= a <= MaxAttempts(n)
    ensures Attempt(world, n, state, step, a).Failure? && !WaitRejects(world, n, step, a)
  {
    hide Attempt, WaitRejects;
  }

  lemma {:induction false} MissingMatch(ts: seq<Transition>, source: string, outcome: string)
    requires Deterministic(ts)
    ensures |Matches(ts, source, outcome)| <= 1
    ensures Matches(ts, source, outcome) == [] <==> forall t :: t in ts ==> t.from != source || t.outcome != outcome
  {
    AtMostOneMatch(ts, source, outcome);
    forall t | t in ts && t.from == source && t.outcome == outcome ensures Matches(ts, source, outcome) != [] {
      MatchesAreTransitions(ts, source, outcome, t.to);
      assert t == Transition(source, outcome, t.to);
    }
    if Matches(ts, source, outcome) != [] {
      MatchesAreTransitions(ts, source, outcome, Matches(ts, source, outcome)[0]);
    }
  }

  /** The failure edge that a node declares to follow is there and is unique. */
  lemma {:induction false} FailureEdgeRoutes<S>(w: Playbook, node: Node, state: S, events: seq<Event>)
    requires WellDeclared(w) && node in w.nodes && node.failurePolicy == Some(FOLLOW_FAILURE_EDGE)
    ensures Route(w, node, state, "FAILURE", events).Continue?
  {
    assert HasFailureEdge(w, node.id);
    var i :| 0 <= i < |w.transitions| && w.transitions[i].from == node.id && w.transitions[i].outcome == "FAILURE";
    assert w.transitions[i] == Transition(node.id, "FAILURE", w.transitions[i].to);
    assert w.transitions[i] in w.transitions;
    TheMatch(w.transitions, node.id, "FAILURE", w.transitions[i].to);
  }

  /** If attempt `a` succeeds, the visit throws exactly when its outcome leads nowhere. */
  lemma {:induction false} ProducedIff<S>(
    w: Playbook, world: World<S>, n: Node, state: S, step: nat, before: seq<Event>, e: RunError,
    a: nat, snapshot: Snapshot<S>, trace: seq<Event>)
    requires Deterministic(w.transitions) && GetsTo(world, n, state, step, a)
    requires Attempt(world, n, state, step, a) == Success(snapshot)
    ensures Route(w, n, snapshot.state, snapshot.outcome, trace) == Stop(e)
            <==> VisitCause(w, world, n, state, step, before, e)
  {
    MissingMatch(w.transitions, n.id, snapshot.outcome);
    if VisitCause(w, world, n, state, step, before, e) {
      match e
      case WaitAborted =>
        var b :| GetsTo(world, n, state, step, b)
                 && Attempt(world, n, state, step, b).Failure? && WaitRejects(world, n, step, b);
        OneEnd(world, n, state, step, a, b);
        assert false;
      case NodeFailed(_, _, _, _) =>
        AllFailHasNoEnd(world, n, state, step, a);
        assert false;
      case TransitionCount(_, outcome, _) =>
        var b :| GetsTo(world, n, state, step, b) && SucceedsWith(world, n, state, step, b, outcome);
        OneEnd(world, n, state, step, a, b);
    } else if Matches(w.transitions, n.id, snapshot.outcome) == [] {
      assert SucceedsWith(world, n, state, step, a, snapshot.outcome);
    }
  }

  /** If the wait behind attempt `a` is aborted, that is the only cause. */
  lemma {:induction false} CancelledIff<S>(
    w: Playbook, world: World<S>, n: Node, state: S, step: nat, before: seq<Event>, e: RunError, a: nat)
    requires GetsTo(world, n, state, step, a)
    requires Attempt(world, n, state, step, a).Failure? && WaitRejects(world, n, step, a)
    ensures e == WaitAborted <==> VisitCause(w, world, n, state, step, before, e)
  {
    if VisitCause(w, world, n, state, step, before, e) && e != WaitAborted {
      if e.NodeFailed? {
        AllFailHasNoEnd(world, n, state, step, a);
        assert false;
      } else {
        var b :| GetsTo(world, n, state, step, b) && SucceedsWith(world, n, state, step, b, e.outcome);
        OneEnd(world, n, state, step, a, b);
        assert false;
      }
    }
  }

  /** If every attempt fails, the visit throws exactly when the node follows no failure edge. */
  lemma {:induction false} ExhaustedIff<S>(
    w: Playbook, world: World<S>, n: Node, state: S, step: nat, before: seq<Event>, e: RunError)
    requires AllFail(world, n, state, step, MaxAttempts(n))
    ensures VisitCause(w, world, n, state, step, before, e)
            <==> && n.failurePolicy != Some(FOLLOW_FAILURE_EDGE)
                 && e == NodeFailed(n.id, MaxAttempts(n),
                                    before + FailureEvents(w, world, n, state, step, MaxAttempts(n)),
                                    LastError(world, n, state, step))
  {
    forall b | GetsTo(world, n, state, step, b)
      ensures Attempt(world, n, state, step, b).Failure? && !WaitRejects(world, n, step, b)
    {
      AllFailHasNoEnd(world, n, state, step, b);
    }
    hide AllFail, Attempt, WaitRejects, FailureEvents, LastError;
  }

  /** A visit throws exactly for its causes. */
  lemma {:induction false} VisitThrowsIff<S>(
    w: Playbook, world: World<S>, n: Node, state: S, step: nat, events: seq<Event>, e: RunError)
    requires WellDeclared(w) && n in w.nodes
    ensures VisitNode(w, world, n, state, step, events) == Stop(e)
            <==> VisitCause(w, world, n, state, step, events, e)
  {
    var a := RunNodeFrom(w, world, n, state, step, 1, None, events);
    ExhaustedError(w, world, n, state, step, 1, None, events);
    assert events + FailureEvents(w, world, n, state, step, 0) == events;
    hide AllFail, Attempt, WaitRejects, FailureEvents, RunNode, VisitCause, LastError, Route;
    match RunNode(w, world, n, state, step, 1, None, events)
    case Cancelled =>
      CancelledIff(w, world, n, state, step, events, e, a);
    case Produced(snapshot, trace) =>
      ProducedIff(w, world, n, state, step, events, e, a, snapshot, trace);
    case Exhausted(cause, trace) =>
      ExhaustedIff(w, world, n, state, step, events, e);
      if n.failurePolicy == Some(FOLLOW_FAILURE_EDGE) {
        FailureEdgeRoutes(w, n, state, trace);
      }
  }

  /** Parsing trims the outcomes of transitions, but nothing trims the outcome that an operator returns:
      one with space around it passes the test for blanks and then leads nowhere. */
  lemma {:induction false} UntrimmedOutcomeStops<S>(
    w: Playbook, world: World<S>, n: Node, state: S, step: nat, events: seq<Event>, a: nat, snapshot: Snapshot<S>)
    requires WellDeclared(Parsed(w)) && n in Parsed(w).nodes
    requires GetsTo(world, n, state, step, a) && Attempt(world, n, state, step, a) == Success(snapshot)
    requires !Tight(snapshot.outcome)
    ensures VisitNode(Parsed(w), world, n, state, step, events)
         == Stop(TransitionCount(n.id, snapshot.outcome, 0))
  {
    hide WellDeclared, VisitNode, GetsTo, Attempt;
    forall t | t in Parsed(w).transitions ensures t.from != n.id || t.outcome != snapshot.outcome {
      var i :| 0 <= i < |w.transitions| && Parsed(w).transitions[i] == t;
      TrimIsTight(w.transitions[i].outcome);
    }
    assert SucceedsWith(world, n, state, step, a, snapshot.outcome);
    VisitThrowsIff(Parsed(w), world, n, state, step, events, TransitionCount(n.id, snapshot.outcome, 0));
  }

  /** An iteration throws exactly for its causes. */
  lemma {:induction false} IterationThrowsIff<S>(
    w: Playbook, world: World<S>, id: string, state: S, step: nat, events: seq<Event>, e: RunError)
    requires WellDeclared(w) && id in NodeIds(w)
    ensures Iteration(w, world, id, state, step, events) == Halt(Thrown(e))
            <==> Cause(w, world, id, state, step, events, e)
  {
    hide WellDeclared, VisitNode, VisitCause;
    NodeIdsAreIds(w, id);
    var n :| n in w.nodes && n.id == id;
    OnlyNode(w, n);
    VisitThrowsIff(w, world, n, state, step, events, e);
  }

  lemma {:induction false} OnlyNode(w: Playbook, n: Node)
    requires WellDeclared(w) && n in w.nodes
    ensures FindNode(w.nodes, n.id) == Some(n)
    ensures forall m :: m in w.nodes && m.id == n.id ==> m == n
  {
    forall m | m in w.nodes && m.id == n.id ensures m == n {
      FoundNodeIsTheNode(w, m);
      FoundNodeIsTheNode(w, n);
    }
    FoundNodeIsTheNode(w, n);
  }

  // ------------------------------------------------------------------ whole runs

  /** The visits lead from node `id` in `state` at iteration `step` to node `last` in state `reached`. */
  ghost predicate Leads<S>(
    w: Playbook, world: World<S>, id: string, state: S, step: nat, visits: seq<Visit<S>>, last: string, reached: S)
    decreases |visits|
  {
    if visits == [] then last == id && reached == state
    else
      && ValidVisit(w, world, visits[0], step)
      && visits[0].node.id == id && visits[0].before == state
      && exists next :: LeadsTo(w, visits[0], next)
                        && Leads(w, world, next, visits[0].after, step + 1, visits[1..], last, reached)
  }

  /** The visits lead to an iteration with a cause for `e`. */
  ghost predicate ThrowsAfter<S>(
    w: Playbook, world: World<S>, id: string, state: S, step: nat, events: seq<Event>, e: RunError,
    visits: seq<Visit<S>>, last: string, reached: S)
  {
    && Leads(w, world, id, state, step, visits, last, reached)
    && last in NodeIds(w)
    && Cause(w, world, last, reached, step + |visits|, events + VisitEvents(visits), e)
  }

  lemma {:induction false} ThrowsAfterCons<S>(
    w: Playbook, world: World<S>, v: Visit<S>, next: string, step: nat, events: seq<Event>, e: RunError,
    rest: seq<Visit<S>>, last: string, reached: S)
    requires ValidVisit(w, world, v, step) && LeadsTo(w, v, next)
    requires ThrowsAfter(w, world, next, v.after, step + 1, events + v.events, e, rest, last, reached)
    ensures ThrowsAfter(w, world, v.node.id, v.before, step, events, e, [v] + rest, last, reached)
  {
    hide ValidVisit, LeadsTo, Cause;
    assert ([v] + rest)[1..] == rest;
    assert events + v.events + VisitEvents(rest) == events + VisitEvents([v] + rest);
  }

  lemma {:induction false} ThrowHasVisits<S>(
    w: Playbook, world: World<S>, id: string, state: S, step: nat, events: seq<Event>, e: RunError)
    returns (visits: seq<Visit<S>>, last: string, reached: S)
    requires WellDeclared(w) && id in NodeIds(w) && !CycleReachable(w.transitions, id)
    requires Semantics(w, world, id, state, step, events) == Thrown(e)
    ensures ThrowsAfter(w, world, id, state, step, events, e, visits, last, reached)
    decreases |ReachableSet(w.transitions, id)|
  {
    hide WellDeclared, ValidVisit, LeadsTo, CycleReachable, Edge, Iteration, Cause;
    match Iteration(w, world, id, state, step, events)
    case Halt(_) =>
      IterationThrowsIff(w, world, id, state, step, events, e);
      visits, last, reached := [], id, state;
      assert events + VisitEvents(visits) == events;
    case Move(next, after, trace) =>
      var v := MoveHasVisit(w, world, id, state, step, events);
      MoveContinues(w, world, id, state, step, events);
      MoveTakesEdge(w, world, id, state, step, events);
      EdgeIsKnown(w, id, next);
      hide Semantics, ThrowsAfter;
      var rest;
      rest, last, reached := ThrowHasVisits(w, world, next, after, step + 1, trace, e);
      visits := [v] + rest;
      ThrowsAfterCons(w, world, v, next, step, events, e, rest, last, reached);
  }

  lemma {:induction false} EdgeIsKnown(w: Playbook, a: string, b: string)
    requires WellDeclared(w) && Edge(w.transitions, a, b)
    ensures b in NodeIds(w)
  {
    var i :| 0 <= i < |w.transitions| && w.transitions[i].from == a && w.transitions[i].to == b;
    assert w.transitions[i] in w.transitions;
  }

  lemma {:induction false} VisitsFixThrow<S>(
    w: Playbook, world: World<S>, id: string, state: S, step: nat, events: seq<Event>, e: RunError,
    visits: seq<Visit<S>>, last: string, reached: S)
    requires WellDeclared(w) && !CycleReachable(w.transitions, id)
    requires ThrowsAfter(w, world, id, state, step, events, e, visits, last, reached)
    ensures Semantics(w, world, id, state, step, events) == Thrown(e)
    decreases |visits|
  {
    hide ValidVisit, LeadsTo, Iteration, CycleReachable, Edge, WellDeclared, ReachableSet, Cause;
    if visits == [] {
      assert events + VisitEvents(visits) == events;
      IterationThrowsIff(w, world, id, state, step, events, e);
    } else {
      var v := visits[0];
      var next :| LeadsTo(w, v, next) && Leads(w, world, next, v.after, step + 1, visits[1..], last, reached);
      VisitFixesIteration(w, world, v, step, events, next);
      VisitTakesEdge(w, world, v, step, next);
      StepShrinksReachable(w.transitions, id, next);
      assert events + v.events + VisitEvents(visits[1..]) == events + VisitEvents(visits);
      VisitsFixThrow(w, world, next, v.after, step + 1, events + v.events, e, visits[1..], last, reached);
    }
  }

  /** The interpreter throws `e` exactly when a chain of valid visits leads from the entrypoint to an
      iteration with a cause for it. */
  lemma {:induction false} ThrownIff<S(!new)>(w: Playbook, world: World<S>, initial: S, e: RunError)
    requires WellFormed(w)
    ensures Semantics(w, world, w.entrypoint, initial, 0, []) == Thrown(e)
            <==> exists visits, last, reached ::
                   ThrowsAfter(w, world, w.entrypoint, initial, 0, [], e, visits, last, reached)
  {
    hide ThrowsAfter, Semantics, CycleReachable;
    if Semantics(w, world, w.entrypoint, initial, 0, []) == Thrown(e) {
      var visits, last, reached := ThrowHasVisits(w, world, w.entrypoint, initial, 0, [], e);
    }
    if visits, last, reached :| ThrowsAfter(w, world, w.entrypoint, initial, 0, [], e, visits, last, reached) {
      VisitsFixThrow(w, world, w.entrypoint, initial, 0, [], e, visits, last, reached);
    }
  }

  /** In every world, an accepted Playbook never loses its node, never exceeds the bound and never
      meets an ambiguous transition. It finishes at an END node, or the world has cut it short, lacks
      an operator, failed every attempt of a node that must succeed, or returned an outcome for which
      the Playbook has no transition. */
  lemma {:induction false} OnlyTheWorldStopsARun<S(!new)>(w: Playbook, world: World<S>, initial: S)
    requires WellFormed(w)
    ensures match Semantics(w, world, w.entrypoint, initial, 0, [])
      case Finished(_, terminalId, _) => exists n :: n in w.nodes && n.id == terminalId && n.kind == END
      case Thrown(RunAborted) => exists k :: world.runAborted(k)
      case Thrown(WaitAborted) => exists n, k, a :: n in w.nodes && WaitRejects(world, n, k, a)
      case Thrown(NoOperator(kind)) => !world.registered(kind) && exists n :: n in w.nodes && n.kind == kind != END
      case Thrown(NodeFailed(id, attempts, _, _)) =>
        exists n, reached, k :: n in w.nodes && n.id == id && n.failurePolicy != Some(FOLLOW_FAILURE_EDGE)
                                && attempts == MaxAttempts(n) && AllFail(world, n, reached, k, attempts)
      case Thrown(TransitionCount(id, outcome, found)) =>
        && found == 0
        && (forall t :: t in w.transitions ==> t.from != id || t.outcome != outcome)
        && exists n, reached, k, a :: n in w.nodes && n.id == id && SucceedsWith(world, n, reached, k, a, outcome)
      case Thrown(_) => false
  {
    hide Semantics, CycleReachable, AllFail, SucceedsWith, WaitRejects;
    match Semantics(w, world, w.entrypoint, initial, 0, [])
    case Finished(final, terminalId, trace) =>
      FinishedIffValidRun(w, world, initial, final, terminalId, trace);
      var visits, terminal :|
        && ValidRun(w, world, w.entrypoint, initial, 0, visits, terminal, final)
        && terminal.id == terminalId
        && trace == VisitEvents(visits) + [ReachedEnd(terminalId)];
      TerminalIsEnd(w, world, w.entrypoint, initial, 0, visits, terminal, final);
    case Thrown(e) =>
      ThrownIff(w, world, initial, e);
      var visits, last, reached :| ThrowsAfter(w, world, w.entrypoint, initial, 0, [], e, visits, last, reached);
      assert Cause(w, world, last, reached, |visits|, [] + VisitEvents(visits), e);
  }
}
