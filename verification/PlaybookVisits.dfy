/** What an attempt, a visit and a run do, in terms of what the world and the Playbook say. */
module PlaybookVisits {
  import opened Sequences
  import opened PlaybookSchema
  import opened PlaybookRuntime
  import opened PlaybookSafety
  import opened WhiteSpace

  // ----------------------------------------------------------------- one attempt

  /** An attempt succeeds with a snapshot if and only if the input schema accepts the state, the operator
      resolved with that snapshot, its outcome is more than white space, and the output schema accepts
      the state of the snapshot. */
  lemma {:induction false} AttemptSucceedsIff<S>(
    world: World<S>, n: Node, state: S, step: nat, attempt: nat, snapshot: Snapshot<S>)
    ensures Attempt(world, n, state, step, attempt) == Success(snapshot)
            <==> && world.inputAccepted(n, state)
                 && world.operate(step, attempt, n, state) == Resolved(snapshot)
                 && (exists i :: 0 <= i < |snapshot.outcome| && !IsSpace(snapshot.outcome[i]))
                 && world.outputAccepted(n, snapshot.state)
  {
  }

  /** The reason of a failed attempt: the first of the four conditions that does not hold. */
  lemma {:induction false} AttemptFailsIff<S>(
    world: World<S>, n: Node, state: S, step: nat, attempt: nat, e: AttemptError)
    ensures Attempt(world, n, state, step, attempt) == Failure(e)
            <==> if !world.inputAccepted(n, state) then e == InputSchema(n.id)
                 else match world.operate(step, attempt, n, state)
                      case Rejected(message) => e == OperatorError(message)
                      case Resolved(snapshot) =>
                        if forall i :: 0 <= i < |snapshot.outcome| ==> IsSpace(snapshot.outcome[i])
                        then e == BlankOutcome
                        else !world.outputAccepted(n, snapshot.state) && e == OutputSchema(n.id)
  {
  }

  // ------------------------------------------------------------------- one visit

  /** A wait behind an attempt rejects exactly when there is another attempt to wait for, the node asks for a
      delay, and the run is aborted meanwhile. */
  lemma {:induction false} WaitRejectsIff<S>(world: World<S>, n: Node, step: nat, attempt: nat)
    requires attempt >= 1
    ensures WaitRejects(world, n, step, attempt)
            <==> && n.retry.Some? && attempt < n.retry.value.maxAttempts && n.retry.value.backoffMs > 0
                 && world.waitAborted(step, attempt)
  {
  }

  /** How often a node may be attempted. */
  lemma {:induction false} VisitAttempts<S>(w: Playbook, world: World<S>, v: Visit<S>, step: nat)
    requires ValidVisit(w, world, v, step)
    ensures v.attempts <= if v.node.retry.Some? then v.node.retry.value.maxAttempts else 1
    ensures !v.succeeded ==> v.attempts == if v.node.retry.Some? then v.node.retry.value.maxAttempts else 1
    ensures forall a :: 1 <= a < v.attempts && v.node.retry.Some? && v.node.retry.value.backoffMs > 0
              ==> !world.waitAborted(step, a)
  {
    if v.node.retry.Some? && v.node.retry.value.backoffMs > 0 {
      forall a | 1 <= a < v.attempts ensures !world.waitAborted(step, a) {
        assert !WaitRejects(world, v.node, step, a);
      }
    }
  }

  lemma {:induction false} FailureTrace<S>(w: Playbook, world: World<S>, n: Node, state: S, step: nat, k: nat)
    requires AllFail(world, n, state, step, k)
    ensures var events := FailureEvents(w, world, n, state, step, k);
            && |events| == 2 * k
            && forall i :: 0 <= i < k ==>
                 && events[2 * i]
                    == Started(n.id, n.kind, i + 1, if n.timeoutMs.Some? then n.timeoutMs.value else w.timeoutMs)
                 && events[2 * i + 1].Failed? && events[2 * i + 1].nodeId == n.id && events[2 * i + 1].kind == n.kind
                 && events[2 * i + 1].attempt == i + 1
                 && Attempt(world, n, state, step, i + 1) == Failure(events[2 * i + 1].error)
  {
    hide Attempt, WaitRejects;
    if k > 0 {
      FailureTrace(w, world, n, state, step, k - 1);
      assert Attempt(world, n, state, step, k).Failure?;
    }
  }

  /** The trace of a visit: each attempt is announced with its number and its time limit and is followed by
      its failure, or by the outcome of the attempt that succeeded. */
  lemma {:induction false} VisitTrace<S>(w: Playbook, world: World<S>, v: Visit<S>, step: nat, i: nat)
    requires ValidVisit(w, world, v, step) && i < v.attempts
    ensures |v.events| == 2 * v.attempts
    ensures var timeout := match v.node.timeoutMs { case Some(t) => t case None => w.timeoutMs };
            v.events[2 * i] == Started(v.node.id, v.node.kind, i + 1, timeout)
    ensures match Attempt(world, v.node, v.before, step, i + 1)
      case Failure(error) => v.events[2 * i + 1] == Failed(v.node.id, v.node.kind, i + 1, error)
      case Success(snapshot) =>
        && v.succeeded && i + 1 == v.attempts && v.after == snapshot.state && v.outcome == snapshot.outcome
        && v.events[2 * i + 1] == Completed(v.node.id, v.node.kind, i + 1, snapshot.outcome, snapshot.attributes)
  {
    var k := if v.succeeded then v.attempts - 1 else v.attempts;
    FailureTrace(w, world, v.node, v.before, step, k);
    hide Attempt, WaitRejects, FailureEvents;
  }

  // --------------------------------------------------------------------- whole runs

  /** The visits of a run hand the state on, the first one taking the initial and the last one leaving the
      final state. */
  lemma {:induction false} StatesChain<S>(
    w: Playbook, world: World<S>, id: string, state: S, step: nat, visits: seq<Visit<S>>, terminal: Node, final: S)
    requires ValidRun(w, world, id, state, step, visits, terminal, final)
    ensures visits == [] ==> final == state
    ensures visits != [] ==> visits[0].before == state && visits[|visits| - 1].after == final
    ensures forall i :: 0 <= i < |visits| - 1 ==> visits[i + 1].before == visits[i].after
    ensures forall i :: 0 <= i < |visits| ==> ValidVisit(w, world, visits[i], step + i)
    decreases |visits|
  {
    hide ValidVisit, LeadsTo;
    if visits != [] {
      var rest := visits[1..];
      var next :| LeadsTo(w, visits[0], next)
                  && ValidRun(w, world, next, visits[0].after, step + 1, rest, terminal, final);
      StatesChain(w, world, next, visits[0].after, step + 1, rest, terminal, final);
      assert forall i :: 0 < i < |visits| ==> visits[i] == rest[i - 1];
      forall i | 0 <= i < |visits| ensures ValidVisit(w, world, visits[i], step + i) {
        if i > 0 {
          assert ValidVisit(w, world, rest[i - 1], step + 1 + (i - 1));
        }
      }
    }
  }

  /** Visit `i` is the last one of the run that succeeded. */
  ghost predicate LastSuccess<S>(visits: seq<Visit<S>>, i: int) {
    0 <= i < |visits| && visits[i].succeeded && forall j :: i < j < |visits| ==> !visits[j].succeeded
  }

  /** The final state of a run is the initial one, if no node succeeded, or the state of the last node that
      did; its input schema accepted the state it took and its output schema the one it left. */
  lemma {:induction false} FinalStateIsAccepted<S(!new)>(
    w: Playbook, world: World<S>, initial: S, visits: seq<Visit<S>>, terminal: Node, final: S)
    requires ValidRun(w, world, w.entrypoint, initial, 0, visits, terminal, final)
    ensures (final == initial && forall i :: 0 <= i < |visits| ==> !visits[i].succeeded)
            || exists i :: && LastSuccess(visits, i) && final == visits[i].after
                           && world.inputAccepted(visits[i].node, visits[i].before)
                           && world.outputAccepted(visits[i].node, final)
  {
    StatesChain(w, world, w.entrypoint, initial, 0, visits, terminal, final);
    if i :| 0 <= i < |visits| && visits[i].succeeded {
      var k := LastOf(visits, i);
      StateStays(w, world, visits, k, |visits| - 1);
      var v := visits[k];
      assert ValidVisit(w, world, v, 0 + k);
      AttemptSucceedsIff(world, v.node, v.before, k, v.attempts, SnapshotOf(world, v, k));
    } else if visits != [] {
      StateStays(w, world, visits, 0, |visits| - 1);
      assert ValidVisit(w, world, visits[0], 0);
    }
  }

  function SnapshotOf<S>(world: World<S>, v: Visit<S>, step: nat): Snapshot<S>
    requires Attempt(world, v.node, v.before, step, v.attempts).Success?
  {
    Attempt(world, v.node, v.before, step, v.attempts).snapshot
  }

  lemma {:induction false} LastOf<S>(visits: seq<Visit<S>>, i: nat) returns (k: nat)
    requires i < |visits| && visits[i].succeeded
    ensures LastSuccess(visits, k)
    decreases |visits| - i
  {
    if j :| i < j < |visits| && visits[j].succeeded {
      k := LastOf(visits, j);
    } else {
      k := i;
    }
  }

  /** Failed visits pass the state on. */
  lemma {:induction false} StateStays<S>(w: Playbook, world: World<S>, visits: seq<Visit<S>>, i: nat, j: nat)
    requires i <= j < |visits|
    requires forall k :: 0 <= k < |visits| - 1 ==> visits[k + 1].before == visits[k].after
    requires forall k :: 0 <= k < |visits| ==> ValidVisit(w, world, visits[k], k)
    requires forall k :: i < k <= j ==> !visits[k].succeeded
    ensures visits[j].after == visits[i].after
    decreases j
  {
    if i < j {
      StateStays(w, world, visits, i, j - 1);
      assert ValidVisit(w, world, visits[j], j) && visits[j - 1 + 1].before == visits[j - 1].after;
    }
  }

  /** Hence a run that finishes ends in its initial state or in one that the output schema of one of its
      nodes has accepted. */
  lemma {:induction false} FinishedStateIsAccepted<S(!new)>(w: Playbook, world: World<S>, initial: S)
    requires WellFormed(w)
    ensures match Semantics(w, world, w.entrypoint, initial, 0, [])
      case Finished(final, _, _) => final == initial || exists n :: n in w.nodes && world.outputAccepted(n, final)
      case Thrown(_) => true
  {
    hide Semantics, ValidRun, WellDeclared;
    match Semantics(w, world, w.entrypoint, initial, 0, [])
    case Finished(final, terminalId, trace) =>
      FinishedIffValidRun(w, world, initial, final, terminalId, trace);
      var visits: seq<Visit<S>>, terminal: Node :|
        && ValidRun(w, world, w.entrypoint, initial, 0, visits, terminal, final)
        && terminal.id == terminalId
        && trace == VisitEvents(visits) + [ReachedEnd(terminalId)];
      FinalStateIsAccepted(w, world, initial, visits, terminal, final);
      StatesChain(w, world, w.entrypoint, initial, 0, visits, terminal, final);
      if i :| LastSuccess(visits, i) && final == visits[i].after && world.outputAccepted(visits[i].node, final) {
        assert ValidVisit(w, world, visits[i], 0 + i);
      }
    case Thrown(_) =>
  }

  // -------------------------------------------------------------------------- effort

  /** A Playbook has the object shape if and only if its identifiers follow the pattern and its counts, limits
      and outcome lengths lie in these ranges. */
  lemma {:induction false} ShapeIff(w: Playbook)
    ensures WellShaped(w) <==>
            && Identifier(w.entrypoint) && 1_000 <= w.timeoutMs <= 900_000
            && 2 <= |w.nodes| <= 200 && 1 <= |w.transitions| <= 1_000
            && (forall n :: n in w.nodes ==>
                  && Identifier(n.id)
                  && (n.timeoutMs.Some? ==> 100 <= n.timeoutMs.value <= 900_000)
                  && (n.retry.Some? ==> 1 <= n.retry.value.maxAttempts <= 10 && n.retry.value.backoffMs <= 60_000))
            && (forall t :: t in w.transitions ==>
                  Identifier(t.from) && Identifier(t.to) && 1 <= |t.outcome| <= 120)
  {
    hide Identifier;
    forall i | 0 <= i < |w.nodes| ensures w.nodes[i] in w.nodes {
    }
    forall i | 0 <= i < |w.transitions| ensures w.transitions[i] in w.transitions {
    }
  }

  /** What the object shape leaves room for: two hundred nodes, ten attempts at each, a minute between two
      attempts and fifteen minutes for one. */
  lemma {:induction false} ShapeLimits(w: Playbook, n: Node)
    requires WellShaped(w) && n in w.nodes
    ensures 2 <= |w.nodes| <= 200 && 1 <= |w.transitions| <= 1_000
    ensures n.retry.Some? ==> 1 <= n.retry.value.maxAttempts <= 10 && n.retry.value.backoffMs <= 60_000
    ensures 100 <= (match n.timeoutMs { case Some(t) => t case None => w.timeoutMs }) <= 900_000
  {
    var i :| 0 <= i < |w.nodes| && w.nodes[i] == n;
    assert NodeShape(w.nodes[i]);
  }

  lemma {:induction false} EventsAreFew<S>(visits: seq<Visit<S>>, limit: nat)
    requires forall i :: 0 <= i < |visits| ==> |visits[i].events| <= limit
    ensures |VisitEvents(visits)| <= limit * |visits|
  {
    if visits != [] {
      var rest := visits[1..];
      assert forall i :: 0 <= i < |rest| ==> rest[i] == visits[i + 1];
      EventsAreFew(rest, limit);
    }
  }

  lemma {:induction false} VisitEffort<S>(w: Playbook, world: World<S>, v: Visit<S>, step: nat)
    requires WellShaped(w) && ValidVisit(w, world, v, step)
    ensures 1 <= v.attempts <= 10 && |v.events| <= 20
  {
    VisitAttempts(w, world, v, step);
    VisitTrace(w, world, v, step, 0);
    assert v.node in w.nodes;
    ShapeLimits(w, v.node);
    hide WellShaped, StartEvent, Attempt, FailureEvents;
  }

  /** A run of a Playbook that the schema accepts ends after at most 199 visits, at most ten attempts each,
      and leaves at most 3,981 events. */
  lemma {:induction false} EffortIsBounded<S(!new)>(
    w: Playbook, world: World<S>, initial: S, visits: seq<Visit<S>>, terminal: Node, final: S)
    requires WellShaped(w) && WellFormed(w)
    requires ValidRun(w, world, w.entrypoint, initial, 0, visits, terminal, final)
    ensures |visits| <= 199 && forall i :: 0 <= i < |visits| ==> 1 <= visits[i].attempts <= 10
    ensures |VisitEvents(visits) + [ReachedEnd(terminal.id)]| <= 3_981
  {
    FinishedRunsAreSimplePaths(w, world, initial, visits, terminal, final);
    assert |w.nodes| <= 200;
    hide WellShaped, WellFormed, ValidVisit, ValidRun;
    StatesChain(w, world, w.entrypoint, initial, 0, visits, terminal, final);
    forall i | 0 <= i < |visits| ensures 1 <= visits[i].attempts <= 10 && |visits[i].events| <= 20 {
      VisitEffort(w, world, visits[i], 0 + i);
    }
    EventsAreFew(visits, 20);
  }
}
