/** What a finished run of an accepted Playbook looks like. */
module PlaybookSafety {
  import opened Sequences
  import opened PlaybookGraph
  import opened PlaybookSchema
  import opened PlaybookRuntime

  // ------------------------------------------------------------ transitions

  lemma {:induction false} AtMostOneMatch(ts: seq<Transition>, source: string, outcome: string)
    requires Deterministic(ts)
    ensures |Matches(ts, source, outcome)| <= 1
  {
    if ts != [] {
      AtMostOneMatch(ts[1..], source, outcome);
      var later := Matches(ts[1..], source, outcome);
      if later != [] {
        MatchesAreTransitions(ts[1..], source, outcome, later[0]);
        var j :| 0 <= j < |ts[1..]| && ts[1..][j] == Transition(source, outcome, later[0]);
        assert ts[j + 1] == ts[1..][j];
      }
    }
  }

  lemma {:induction false} TheMatch(ts: seq<Transition>, source: string, outcome: string, id: string)
    requires Deterministic(ts) && Transition(source, outcome, id) in ts
    ensures Matches(ts, source, outcome) == [id]
  {
    AtMostOneMatch(ts, source, outcome);
    MatchesAreTransitions(ts, source, outcome, id);
  }

  // ------------------------------------------------------------- one visit

  /** The attempts from `k` on, given that the first `k - 1` failed. `a` is the attempt
      at which the loop leaves. */
  lemma {:induction false} RunNodeFrom<S>(
    w: Playbook, world: World<S>, node: Node, state: S, step: nat, k: nat, last: Option<AttemptError>,
    events: seq<Event>)
    returns (a: nat)
    requires 1 <= k <= MaxAttempts(node) + 1
    requires AllFail(world, node, state, step, k - 1)
    ensures a <= MaxAttempts(node)
    ensures var before := events + FailureEvents(w, world, node, state, step, k - 1);
          match RunNode(w, world, node, state, step, k, last, before)
      case Produced(snapshot, trace) =>
        && 1 <= a && AllFail(world, node, state, step, a - 1)
        && Attempt(world, node, state, step, a) == Success(snapshot)
        && trace == events + FailureEvents(w, world, node, state, step, a - 1)
                    + [StartEvent(w, node, a), SuccessEvent(node, a, snapshot)]
      case Exhausted(_, trace) =>
        && a == MaxAttempts(node) && AllFail(world, node, state, step, a)
        && trace == events + FailureEvents(w, world, node, state, step, a)
      case Cancelled =>
        && 1 <= a && AllFail(world, node, state, step, a - 1)
        && Attempt(world, node, state, step, a).Failure? && WaitRejects(world, node, step, a)
    decreases MaxAttempts(node) + 1 - k
  {
    hide WaitRejects, Attempt;
    a := k;
    var before := FailureEvents(w, world, node, state, step, k - 1);
    if k > MaxAttempts(node) {
      a := MaxAttempts(node);
    } else {
      match Attempt(world, node, state, step, k)
      case Success(snapshot) =>
        assert events + before + [StartEvent(w, node, k)] + [SuccessEvent(node, k, snapshot)]
            == events + before + [StartEvent(w, node, k), SuccessEvent(node, k, snapshot)];
      case Failure(error) =>
        if !WaitRejects(world, node, step, k) {
          assert events + before + [StartEvent(w, node, k)] + [Failed(node.id, node.kind, k, error)]
              == events + FailureEvents(w, world, node, state, step, k);
          a := RunNodeFrom(w, world, node, state, step, k + 1, Some(error), events);
        }
    }
  }

  /** A visit and what the attempt loop returns determine each other. */
  lemma {:induction false} VisitFixesRunNode<S>(
    w: Playbook, world: World<S>, v: Visit<S>, step: nat, events: seq<Event>)
    requires ValidVisit(w, world, v, step)
    ensures var r := RunNode(w, world, v.node, v.before, step, 1, None, events);
            if v.succeeded then
              && r.Produced? && r.snapshot.outcome == v.outcome && r.snapshot.state == v.after
              && r.events == events + v.events
            else
              r.Exhausted? && r.events == events + v.events
  {
    var a := RunNodeFrom(w, world, v.node, v.before, step, 1, None, events);
    assert events + FailureEvents(w, world, v.node, v.before, step, 0) == events;
  }

  /** Every continuing node comes from a valid visit. */
  lemma {:induction false} RoutingHasVisit<S>(
    w: Playbook, world: World<S>, node: Node, state: S, step: nat, events: seq<Event>)
    returns (v: Visit<S>)
    requires !world.runAborted(step) && node in w.nodes && node.kind != END && world.registered(node.kind)
    requires VisitNode(w, world, node, state, step, events).Continue?
    ensures ValidVisit(w, world, v, step) && v.node == node && v.before == state
    ensures var r := VisitNode(w, world, node, state, step, events);
            LeadsTo(w, v, r.next) && r.state == v.after && r.events == events + v.events
  {
    var a := RunNodeFrom(w, world, node, state, step, 1, None, events);
    assert events + FailureEvents(w, world, node, state, step, 0) == events;
    var failures := FailureEvents(w, world, node, state, step, if a == 0 then 0 else a - 1);
    var r := VisitNode(w, world, node, state, step, events);
    match RunNode(w, world, node, state, step, 1, None, events)
    case Produced(snapshot, trace) =>
      v := Visit(node, state, a, true, snapshot.outcome, snapshot.state,
                 failures + [StartEvent(w, node, a), SuccessEvent(node, a, snapshot)]);
      MatchesAreTransitions(w.transitions, node.id, snapshot.outcome, r.next);
    case Exhausted(cause, trace) =>
      v := Visit(node, state, a, false, "FAILURE", state, FailureEvents(w, world, node, state, step, a));
      MatchesAreTransitions(w.transitions, node.id, "FAILURE", r.next);
  }

  /** Every valid visit with a transition out of it makes the node continue accordingly. */
  lemma {:induction false} VisitFixesRouting<S>(
    w: Playbook, world: World<S>, v: Visit<S>, step: nat, events: seq<Event>, next: string)
    requires Deterministic(w.transitions)
    requires ValidVisit(w, world, v, step) && LeadsTo(w, v, next)
    ensures VisitNode(w, world, v.node, v.before, step, events) == Continue(next, v.after, events + v.events)
  {
    hide ValidVisit;
    VisitFixesRunNode(w, world, v, step, events);
    TheMatch(w.transitions, v.node.id, v.outcome, next);
    if !v.succeeded {
      FailedVisits(w, world, v, step);
    }
  }

  lemma {:induction false} FailedVisits<S>(w: Playbook, world: World<S>, v: Visit<S>, step: nat)
    requires ValidVisit(w, world, v, step) && !v.succeeded
    ensures v.outcome == "FAILURE" && v.after == v.before
    ensures v.node.failurePolicy == Some(FOLLOW_FAILURE_EDGE)
  {
  }

  // --------------------------------------------------------------- whole runs

  lemma {:induction false} FoundNodeIsTheNode(w: Playbook, n: Node)
    requires Distinct(NodeIds(w)) && n in w.nodes
    ensures FindNode(w.nodes, n.id) == Some(n)
  {
    var found := FindNode(w.nodes, n.id);
    var i :| 0 <= i < |w.nodes| && w.nodes[i] == n;
    var j :| 0 <= j < |w.nodes| && w.nodes[j] == found.value;
    assert NodeIds(w)[i] == n.id == NodeIds(w)[j];
  }

  /** Every move comes from a valid visit. */
  lemma {:induction false} MoveHasVisit<S>(
    w: Playbook, world: World<S>, id: string, state: S, step: nat, events: seq<Event>)
    returns (v: Visit<S>)
    requires Iteration(w, world, id, state, step, events).Move?
    ensures ValidVisit(w, world, v, step) && v.node.id == id && v.before == state
    ensures var p := Iteration(w, world, id, state, step, events);
            LeadsTo(w, v, p.next) && p.state == v.after && p.events == events + v.events
  {
    hide ValidVisit, LeadsTo, VisitNode;
    v := RoutingHasVisit(w, world, FindNode(w.nodes, id).value, state, step, events);
  }

  lemma {:induction false} ConsRun<S>(
    w: Playbook, world: World<S>, v: Visit<S>, next: string, step: nat, rest: seq<Visit<S>>, terminal: Node, final: S)
    requires ValidVisit(w, world, v, step) && LeadsTo(w, v, next)
    requires ValidRun(w, world, next, v.after, step + 1, rest, terminal, final)
    ensures ValidRun(w, world, v.node.id, v.before, step, [v] + rest, terminal, final)
    ensures VisitEvents([v] + rest) == v.events + VisitEvents(rest)
  {
    hide ValidVisit, LeadsTo;
    assert ([v] + rest)[1..] == rest;
  }

  /** A move leaves fewer nodes within reach and the rest of the run to the next node. */
  lemma {:induction false} MoveContinues<S>(
    w: Playbook, world: World<S>, id: string, state: S, step: nat, events: seq<Event>)
    requires !CycleReachable(w.transitions, id)
    requires Iteration(w, world, id, state, step, events).Move?
    ensures var p := Iteration(w, world, id, state, step, events);
            && !CycleReachable(w.transitions, p.next)
            && |ReachableSet(w.transitions, p.next)| < |ReachableSet(w.transitions, id)|
            && Semantics(w, world, id, state, step, events) == Semantics(w, world, p.next, p.state, step + 1, p.events)
  {
    hide Iteration, CycleReachable, Edge;
    MoveTakesEdge(w, world, id, state, step, events);
    StepShrinksReachable(w.transitions, id, Iteration(w, world, id, state, step, events).next);
  }

  lemma {:induction false} HaltHasNoVisits<S>(
    w: Playbook, world: World<S>, id: string, state: S, step: nat, events: seq<Event>) returns (terminal: Node)
    requires !CycleReachable(w.transitions, id)
    requires Iteration(w, world, id, state, step, events).Halt?
    requires Semantics(w, world, id, state, step, events).Finished?
    ensures var r := Semantics(w, world, id, state, step, events);
            && ValidRun(w, world, id, state, step, [], terminal, r.state)
            && terminal.id == r.terminalNodeId
            && r.trace == events + [ReachedEnd(terminal.id)]
  {
    hide VisitNode, CycleReachable, ValidVisit;
    terminal := FindNode(w.nodes, id).value;
  }

  /** A finished run has a chain of valid visits behind it. */
  lemma {:induction false} FinishedHasVisits<S>(
    w: Playbook, world: World<S>, id: string, state: S, step: nat, events: seq<Event>)
    returns (visits: seq<Visit<S>>, terminal: Node)
    requires !CycleReachable(w.transitions, id)
    requires Semantics(w, world, id, state, step, events).Finished?
    ensures var r := Semantics(w, world, id, state, step, events);
            && ValidRun(w, world, id, state, step, visits, terminal, r.state)
            && terminal.id == r.terminalNodeId
            && r.trace == events + VisitEvents(visits) + [ReachedEnd(terminal.id)]
    decreases |ReachableSet(w.transitions, id)|
  {
    hide ValidVisit, LeadsTo, VisitNode, CycleReachable, Edge, Iteration, ValidRun, Semantics;
    match Iteration(w, world, id, state, step, events)
    case Halt(_) =>
      terminal := HaltHasNoVisits(w, world, id, state, step, events);
      visits := [];
      assert events + VisitEvents<S>([]) == events;
    case Move(next, after, trace) =>
      var v := MoveHasVisit(w, world, id, state, step, events);
      MoveContinues(w, world, id, state, step, events);
      var rest;
      rest, terminal := FinishedHasVisits(w, world, next, after, step + 1, trace);
      visits := [v] + rest;
      ConsRun(w, world, v, next, step, rest, terminal, Semantics(w, world, id, state, step, events).state);
      assert events + v.events + VisitEvents(rest) == events + VisitEvents(visits);
  }

  lemma {:induction false} VisitTakesEdge<S>(w: Playbook, world: World<S>, v: Visit<S>, step: nat, next: string)
    requires LeadsTo(w, v, next)
    ensures Edge(w.transitions, v.node.id, next)
  {
    var i :| 0 <= i < |w.transitions| && w.transitions[i] == Transition(v.node.id, v.outcome, next);
  }

  /** A valid visit with a transition out of it is the iteration. */
  lemma {:induction false} VisitFixesIteration<S>(
    w: Playbook, world: World<S>, v: Visit<S>, step: nat, events: seq<Event>, next: string)
    requires WellDeclared(w)
    requires ValidVisit(w, world, v, step) && LeadsTo(w, v, next)
    ensures Iteration(w, world, v.node.id, v.before, step, events) == Move(next, v.after, events + v.events)
  {
    hide AllFail, LeadsTo, VisitNode, FailureEvents, Attempt;
    FoundNodeIsTheNode(w, v.node);
    VisitFixesRouting(w, world, v, step, events, next);
  }

  /** A chain of valid visits is the run. */
  lemma {:induction false} VisitsFixSemantics<S>(
    w: Playbook, world: World<S>, id: string, state: S, step: nat, events: seq<Event>,
    visits: seq<Visit<S>>, terminal: Node, final: S)
    requires WellDeclared(w) && !CycleReachable(w.transitions, id)
    requires ValidRun(w, world, id, state, step, visits, terminal, final)
    ensures Semantics(w, world, id, state, step, events)
         == Finished(final, terminal.id, events + VisitEvents(visits) + [ReachedEnd(terminal.id)])
    decreases |visits|
  {
    hide ValidVisit, LeadsTo, Iteration, CycleReachable, Edge, WellDeclared, ReachableSet;
    if visits == [] {
      EndIteration(w, world, terminal, state, step, events);
      assert events + VisitEvents(visits) == events;
    } else {
      var v := visits[0];
      var next :| LeadsTo(w, v, next) && ValidRun(w, world, next, v.after, step + 1, visits[1..], terminal, final);
      VisitFixesIteration(w, world, v, step, events, next);
      VisitTakesEdge(w, world, v, step, next);
      StepShrinksReachable(w.transitions, id, next);
      VisitsFixSemantics(w, world, next, v.after, step + 1, events + v.events, visits[1..], terminal, final);
      assert events + v.events + VisitEvents(visits[1..]) == events + VisitEvents(visits);
    }
  }

  lemma {:induction false} EndIteration<S>(
    w: Playbook, world: World<S>, terminal: Node, state: S, step: nat, events: seq<Event>)
    requires WellDeclared(w) && terminal in w.nodes && terminal.kind == END && !world.runAborted(step)
    ensures Iteration(w, world, terminal.id, state, step, events)
         == Halt(Finished(state, terminal.id, events + [ReachedEnd(terminal.id)]))
  {
    FoundNodeIsTheNode(w, terminal);
  }

  /** The interpreter finishes with a state, an END node and a trace exactly when a chain of
      valid visits leads there. */
  lemma {:induction false} FinishedIffValidRun<S(!new)>(
    w: Playbook, world: World<S>, initial: S, final: S, terminalId: string, trace: seq<Event>)
    requires WellFormed(w)
    ensures Semantics(w, world, w.entrypoint, initial, 0, []) == Finished(final, terminalId, trace)
            <==> exists visits, terminal ::
                   && ValidRun(w, world, w.entrypoint, initial, 0, visits, terminal, final)
                   && terminal.id == terminalId
                   && trace == VisitEvents(visits) + [ReachedEnd(terminalId)]
  {
    hide ValidRun, Semantics, WellDeclared, CycleReachable;
    if Semantics(w, world, w.entrypoint, initial, 0, []) == Finished(final, terminalId, trace) {
      var visits, terminal := FinishedHasVisits(w, world, w.entrypoint, initial, 0, []);
      assert [] + VisitEvents(visits) == VisitEvents(visits);
    }
    if visits, terminal :|
      && ValidRun(w, world, w.entrypoint, initial, 0, visits, terminal, final)
      && terminal.id == terminalId
      && trace == VisitEvents(visits) + [ReachedEnd(terminalId)]
    {
      VisitsFixSemantics(w, world, w.entrypoint, initial, 0, [], visits, terminal, final);
      assert [] + VisitEvents(visits) == VisitEvents(visits);
    }
  }

  function VisitedIds<S>(visits: seq<Visit<S>>): seq<string> {
    if visits == [] then [] else [visits[0].node.id] + VisitedIds(visits[1..])
  }

  lemma {:induction false} RunIsPath<S>(
    w: Playbook, world: World<S>, id: string, state: S, step: nat, visits: seq<Visit<S>>, terminal: Node, final: S)
    requires ValidRun(w, world, id, state, step, visits, terminal, final)
    ensures |VisitedIds(visits)| == |visits|
    ensures PathFromTo(w.transitions, VisitedIds(visits) + [terminal.id], id, terminal.id)
    ensures forall x :: x in VisitedIds(visits) ==> x in NodeIds(w)
    decreases |visits|
  {
    if visits != [] {
      var v := visits[0];
      var next :| LeadsTo(w, v, next) && ValidRun(w, world, next, v.after, step + 1, visits[1..], terminal, final);
      RunIsPath(w, world, next, v.after, step + 1, visits[1..], terminal, final);
      VisitTakesEdge(w, world, v, step, next);
      var tail := VisitedIds(visits[1..]) + [terminal.id];
      assert IsPath(w.transitions, [id, next]);
      JoinPaths(w.transitions, [id, next], tail);
      assert [id, next] + tail[1..] == VisitedIds(visits) + [terminal.id];
      NodeIdsAreIds(w, id);
    }
  }

  /** A finished run follows a simple path of transitions from the entrypoint to its END
      node, and reaches it by iteration `|nodes| - 1`. */
  lemma {:induction false} FinishedRunsAreSimplePaths<S>(
    w: Playbook, world: World<S>, initial: S, visits: seq<Visit<S>>, terminal: Node, final: S)
    requires WellFormed(w)
    requires ValidRun(w, world, w.entrypoint, initial, 0, visits, terminal, final)
    ensures terminal.kind == END
    ensures PathFromTo(w.transitions, VisitedIds(visits) + [terminal.id], w.entrypoint, terminal.id)
    ensures Distinct(VisitedIds(visits) + [terminal.id])
    ensures |visits| <= |w.nodes| - 1
  {
    hide ValidRun, WellFormed, CycleReachable, Edge;
    RunIsPath(w, world, w.entrypoint, initial, 0, visits, terminal, final);
    var walk := VisitedIds(visits) + [terminal.id];
    TerminalIsEnd(w, world, w.entrypoint, initial, 0, visits, terminal, final);
    NodeIdsAreIds(w, terminal.id);
    WalkFitsBound(w, walk, terminal.id, |visits|);
  }

  lemma {:induction false} TerminalIsEnd<S>(
    w: Playbook, world: World<S>, id: string, state: S, step: nat, visits: seq<Visit<S>>, terminal: Node, final: S)
    requires ValidRun(w, world, id, state, step, visits, terminal, final)
    ensures terminal in w.nodes && terminal.kind == END
    decreases |visits|
  {
    if visits != [] {
      var next :| LeadsTo(w, visits[0], next)
                  && ValidRun(w, world, next, visits[0].after, step + 1, visits[1..], terminal, final);
      TerminalIsEnd(w, world, next, visits[0].after, step + 1, visits[1..], terminal, final);
    }
  }

  /** The state left by the last successful visit; failed visits contribute nothing. */
  function LastSnapshot<S>(visits: seq<Visit<S>>, initial: S): S {
    if visits == [] then initial
    else if visits[|visits| - 1].succeeded then visits[|visits| - 1].after
    else LastSnapshot(visits[..|visits| - 1], initial)
  }

  lemma {:induction false} LastSnapshotCons<S>(v: Visit<S>, rest: seq<Visit<S>>, initial: S)
    ensures LastSnapshot([v] + rest, initial) == LastSnapshot(rest, if v.succeeded then v.after else initial)
    decreases |rest|
  {
    var all := [v] + rest;
    if rest == [] {
      assert all[..|all| - 1] == [];
      assert all[|all| - 1] == v;
    } else if !rest[|rest| - 1].succeeded {
      assert all[..|all| - 1] == [v] + rest[..|rest| - 1];
      LastSnapshotCons(v, rest[..|rest| - 1], initial);
    }
  }

  /** The final state is fixed by the successful snapshots alone. */
  lemma {:induction false} FinalStateIsLastSnapshot<S>(
    w: Playbook, world: World<S>, id: string, state: S, step: nat, visits: seq<Visit<S>>, terminal: Node, final: S)
    requires ValidRun(w, world, id, state, step, visits, terminal, final)
    ensures final == LastSnapshot(visits, state)
    decreases |visits|
  {
    if visits != [] {
      var v := visits[0];
      var next :| LeadsTo(w, v, next) && ValidRun(w, world, next, v.after, step + 1, visits[1..], terminal, final);
      FinalStateIsLastSnapshot(w, world, next, v.after, step + 1, visits[1..], terminal, final);
      assert visits == [v] + visits[1..];
      LastSnapshotCons(v, visits[1..], state);
      if !v.succeeded {
        FailedVisits(w, world, v, step);
      }
    }
  }
}
