/** Saves that outlive their operation: when several workers of one operation can let a save
    take effect after the operation has ended. */
module AgentGardenRaces {
  import opened Sequences
  import opened AgentGarden

  /** After `run`, the action `a` saves for an operation whose status is `end`. */
  ghost predicate SavesAt(s: State, run: seq<Action>, a: Action, end: OperationStatus) {
    && Runnable(s, run) && Enabled(After(s, run), a) && TakesEffect(After(s, run), a)
    && Operation(After(s, run), a.pid).Some?
    && var t := After(s, run);
       Operation(t, a.pid).value in t.operations && t.operations[Operation(t, a.pid).value] == end
  }

  // ------------------------------------------------- no contention, no late save

  lemma {:induction false} RunsKeepChecksActive(s: State, run: seq<Action>)
    requires Inv(s) && !Contended(s) && ChecksStayActive(s) && Runnable(s, run)
    ensures Inv(After(s, run)) && ChecksStayActive(After(s, run))
    decreases |run|
  {
    hide Inv, Enabled, Do, Contended, ChecksStayActive;
    if run != [] {
      StepKeepsInv(s, run[0]);
      StepKeepsChecksActive(s, run[0]);
      StepKeepsUncontended(s, run[0]);
      RunsKeepChecksActive(Do(s, run[0]), run[1..]);
    }
  }

  /** Unless some usable operation has two workers, a save takes effect only while its operation
      is pending, running or waiting for a retry. */
  lemma {:induction false} SavesAreForActiveOperations(s: State, run: seq<Action>, a: Action)
    requires Quiet(s) && !Contended(s) && Runnable(s, run)
    requires Enabled(After(s, run), a) && TakesEffect(After(s, run), a) && Operation(After(s, run), a.pid).Some?
    ensures var t := After(s, run);
            Operation(t, a.pid).value in t.operations && Active(t.operations[Operation(t, a.pid).value])
  {
    hide Inv, Contended, Quiet, Runnable;
    QuietStart(s);
    RunsKeepChecksActive(s, run);
    assert PastOperationCheck(After(s, run).processes[a.pid]);
  }

  // ------------------------------------------------------- contention, a late save

  /** `s` with operation `o` in `status` and its worker `p` in `phase`. */
  function Stage(s: State, o: string, p: nat, phase: WorkerPhase, status: OperationStatus): State {
    s.(operations := s.operations[o := status],
       lock := if phase.Idle? then None else Some(p),
       processes := s.processes[p := Worker(Some(o), phase)])
  }

  lemma {:induction false} StageAdvances(
    s: State, o: string, p: nat, save: SaveRequest, from: WorkerPhase, a: Action, next: WorkerPhase)
    requires save.id !in s.records && save.owner.Some?
    requires (from, a, next) == (Idle, BeginSave(p, save), Locked(save))
          || (from, a, next) == (Locked(save), CheckOperation(p), OperationChecked(save))
          || (from, a, next) == (OperationChecked(save), CheckRecord(p), Persisting(save))
          || (from, a, next) == (Persisting(save), ReadExisting(p), ExistingRead(save))
    ensures Enabled(Stage(s, o, p, from, Running), a)
    ensures Do(Stage(s, o, p, from, Running), a) == Stage(s, o, p, next, Running)
  {
    assert Do(Stage(s, o, p, from, Running), a).processes == Stage(s, o, p, next, Running).processes;
  }

  /** The other worker ends the operation in the middle of the save. */
  lemma {:induction false} StageFinishes(s: State, o: string, p: nat, q: nat, save: SaveRequest, end: OperationStatus)
    requires p != q && q in s.processes && s.processes[q] == Worker(Some(o), Idle)
    requires end == Completed || end == Withdrawn || end == Failed
    ensures var t := Stage(s, o, p, ExistingRead(save), Running);
            && Enabled(t, Finish(q, end))
            && Do(t, Finish(q, end)) == Stage(s, o, p, ExistingRead(save), end)
  {
    var t := Stage(s, o, p, ExistingRead(save), Running);
    assert Do(t, Finish(q, end)).operations == Stage(s, o, p, ExistingRead(save), end).operations;
  }

  lemma {:induction false} StageWrites(s: State, o: string, p: nat, save: SaveRequest, end: OperationStatus)
    requires save.id !in s.records && save.owner.Some?
    ensures var t := Stage(s, o, p, ExistingRead(save), end);
            && Enabled(t, WriteSave(p)) && TakesEffect(t, WriteSave(p)) && Operation(t, p) == Some(o)
            && o in t.operations && t.operations[o] == end
  {
  }

  /** Worker `p` starts to save, worker `q` ends the operation. */
  function Overtaken(p: nat, q: nat, save: SaveRequest, end: OperationStatus): seq<Action> {
    [BeginSave(p, save)] + ([CheckOperation(p)] + ([CheckRecord(p)] + ([ReadExisting(p)] + [Finish(q, end)])))
  }

  lemma {:induction false} OvertakenRuns(s: State, o: string, p: nat, q: nat, save: SaveRequest, end: OperationStatus)
    requires end == Completed || end == Withdrawn || end == Failed
    requires p != q && q in s.processes && s.processes[q] == Worker(Some(o), Idle)
    requires save.id !in s.records && save.owner.Some?
    ensures var t := Stage(s, o, p, Idle, Running);
            && Runnable(t, Overtaken(p, q, save, end))
            && After(t, Overtaken(p, q, save, end)) == Stage(s, o, p, ExistingRead(save), end)
  {
    hide Do, Enabled, Stage;
    var r4 := [Finish(q, end)];
    var r3 := [ReadExisting(p)] + r4;
    var r2 := [CheckRecord(p)] + r3;
    StageFinishes(s, o, p, q, save, end);
    RunCons(Stage(s, o, p, ExistingRead(save), Running), Finish(q, end), []);
    assert r4 + [] == r4;
    StageAdvances(s, o, p, save, Persisting(save), ReadExisting(p), ExistingRead(save));
    RunCons(Stage(s, o, p, Persisting(save), Running), ReadExisting(p), r4);
    StageAdvances(s, o, p, save, OperationChecked(save), CheckRecord(p), Persisting(save));
    RunCons(Stage(s, o, p, OperationChecked(save), Running), CheckRecord(p), r3);
    StageAdvances(s, o, p, save, Locked(save), CheckOperation(p), OperationChecked(save));
    RunCons(Stage(s, o, p, Locked(save), Running), CheckOperation(p), r2);
    StageAdvances(s, o, p, save, Idle, BeginSave(p, save), Locked(save));
    RunCons(Stage(s, o, p, Idle, Running), BeginSave(p, save), [CheckOperation(p)] + r2);
  }

  /** A usable operation can be claimed, after it has been enqueued if need be. */
  lemma {:induction false} ClaimRuns(s: State, o: string, p: nat, rest: seq<Action>) returns (run: seq<Action>)
    requires s.lock.None? && Usable(s, o) && p in s.processes && s.processes[p] == Worker(Some(o), Idle)
    requires Runnable(Stage(s, o, p, Idle, Running), rest)
    ensures Runnable(s, run) && After(s, run) == After(Stage(s, o, p, Idle, Running), rest)
  {
    assert s.processes[p := Worker(Some(o), Idle)] == s.processes;
    run := [Claim(o)] + rest;
    if o in s.operations {
      RunCons(s, Claim(o), rest);
    } else {
      var t := Do(s, Enqueue(o));
      assert Do(t, Claim(o)) == Stage(s, o, p, Idle, Running);
      RunCons(t, Claim(o), rest);
      RunCons(s, Enqueue(o), run);
      run := [Enqueue(o)] + run;
    }
  }

  lemma {:induction false} LongerThanAll(ids: set<string>) returns (n: nat)
    ensures forall id :: id in ids ==> |id| <= n
    decreases ids
  {
    n := 0;
    if ids != {} {
      var id :| id in ids;
      n := LongerThanAll(ids - {id});
      n := if |id| > n then |id| else n;
      forall other | other in ids ensures |other| <= n {
        assert other == id || other in ids - {id};
      }
    }
  }

  lemma {:induction false} UnusedId(records: map<string, Record>) returns (id: string)
    ensures id !in records
  {
    var n := LongerThanAll(records.Keys);
    id := seq(n + 1, _ => 'a');
  }

  lemma {:induction false} ContentionAllowsLateSave(s: State, p: nat, q: nat, o: string, end: OperationStatus)
    returns (run: seq<Action>)
    requires Quiet(s) && p != q && Operation(s, p) == Operation(s, q) == Some(o) && Usable(s, o)
    requires end == Completed || end == Withdrawn || end == Failed
    ensures SavesAt(s, run, WriteSave(p), end)
  {
    var id := UnusedId(s.records);
    var save := SaveRequest(id, "agent", Payload(READY, None, ""), Some("owner"));
    OvertakenRuns(s, o, p, q, save, end);
    run := ClaimRuns(s, o, p, Overtaken(p, q, save, end));
    StageWrites(s, o, p, save, end);
  }

  /** From a quiet start a save can take effect after its operation has ended in a given way if and
      only if some usable operation has two workers and the end is not a cancellation under the lock. */
  lemma {:induction false} LateSaveIff(s: State, end: OperationStatus)
    requires Quiet(s) && !Active(end)
    ensures (exists run, a :: SavesAt(s, run, a, end)) <==> Contended(s) && end != Cancelled
  {
    hide Quiet, Usable;
    if Contended(s) && end != Cancelled {
      var p, q :| p != q && Operation(s, p).Some? && Operation(s, p) == Operation(s, q)
                  && Usable(s, Operation(s, p).value);
      var run := ContentionAllowsLateSave(s, p, q, Operation(s, p).value, end);
    } else if run, a :| SavesAt(s, run, a, end) {
      if Contended(s) {
        NoSaveAfterCancellation(s, run, a);
      } else {
        SavesAreForActiveOperations(s, run, a);
      }
    }
  }

  /** Two handlers of a running operation, with nothing stored. */
  function TwoHandlers(): State {
    State(map[], map["o" := Running], None, map[1 := Worker(Some("o"), Idle), 2 := Worker(Some("o"), Idle)], 0)
  }

  /** The shortest such run: one handler saves after the other has ended the operation. */
  lemma {:induction false} TwoHandlersSaveLate(end: OperationStatus)
    requires end == Completed || end == Withdrawn || end == Failed
    ensures Quiet(TwoHandlers())
    ensures var save := SaveRequest("i", "a", Payload(READY, None, ""), Some("u"));
            SavesAt(TwoHandlers(), Overtaken(1, 2, save, end), WriteSave(1), end)
  {
    var s, save := TwoHandlers(), SaveRequest("i", "a", Payload(READY, None, ""), Some("u"));
    OvertakenRuns(s, "o", 1, 2, save, end);
    assert Stage(s, "o", 1, Idle, Running).processes == s.processes;
    assert Stage(s, "o", 1, Idle, Running).operations == s.operations;
    StageWrites(s, "o", 1, save, end);
  }
}
