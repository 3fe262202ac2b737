/** What each statement of the deletion protocol achieves. */
module AgentGardenEffects {
  import opened Sequences
  import opened AgentGarden

  // ------------------------------------------------------------ deletion requests

  /** A deletion request reads the live A2A rows among those it was asked for, with their payloads. */
  lemma {:induction false} RequestSelects(s: State, pid: nat, ids: set<string>)
    requires Enabled(s, SelectRows(pid, ids))
    ensures var t := Do(s, SelectRows(pid, ids));
            && t.records == s.records && t.operations == s.operations && t.lock == s.lock
            && RequesterAt(t, pid) && t.processes[pid].request.Selected?
            && forall id :: id in t.processes[pid].request.rows
                 <==> id in ids && id in s.records && s.records[id].kind == A2A && s.records[id].deletedAt.None?
    ensures var t := Do(s, SelectRows(pid, ids));
            forall id :: id in t.processes[pid].request.rows ==>
              t.processes[pid].request.rows[id] == s.records[id].payload
  {
  }

  /** A committed request tombstones every row it has selected at the time of the commit, shows it as being
      destroyed and keeps the rest of what it selected; it leaves every other row alone. */
  lemma {:induction false} RequestTombstones(s: State, pid: nat, cancelled: set<string>, id: string)
    requires Inv(s) && Enabled(s, CommitRequest(pid, cancelled)) && id in s.records
    ensures var t, rows := Do(s, CommitRequest(pid, cancelled)), s.processes[pid].request.rows;
            && id in t.records && t.records[id].kind == s.records[id].kind
            && t.records[id].catalogAgentId == s.records[id].catalogAgentId
            && (id in rows ==>
                  && t.records[id].deletedAt == Some(s.clock)
                  && t.records[id].payload.status == DESTROYING
                  && t.records[id].payload.details == rows[id].details
                  && t.records[id].payload.deletionCompletedAt == rows[id].deletionCompletedAt)
            && (id !in rows ==> t.records[id] == s.records[id])
  {
  }

  /** It cancels exactly the operations it names that are still pending, running or in retry, and gives the
      lock back. */
  lemma {:induction false} RequestCancels(s: State, pid: nat, cancelled: set<string>, o: string)
    requires Enabled(s, CommitRequest(pid, cancelled))
    ensures var t := Do(s, CommitRequest(pid, cancelled));
            && t.lock == None
            && (o in t.operations <==> o in s.operations)
            && (o in s.operations ==>
                  t.operations[o] == if && o in cancelled
                                        && (s.operations[o] == Pending || s.operations[o] == Running
                                            || s.operations[o] == Retry)
                                     then Cancelled else s.operations[o])
  {
  }

  // ------------------------------------------------------------------- completions

  /** A completion keeps the tombstone that is there, or sets one now, and stamps the payload that the
      deletion job had read as destroyed and complete. Nothing else changes. */
  lemma {:induction false} CompletionStamps(s: State, pid: nat, id: string)
    requires Enabled(s, CommitCompletion(pid)) && id in s.records
    ensures var t, job := Do(s, CommitCompletion(pid)), s.processes[pid];
            && t.operations == s.operations && t.lock == None
            && id in t.records && t.records[id].kind == s.records[id].kind
            && t.records[id].catalogAgentId == s.records[id].catalogAgentId
            && (id == job.id && s.records[id].kind == A2A ==>
                  && t.records[id].deletedAt.Some?
                  && t.records[id].deletedAt == (if s.records[id].deletedAt.Some? then s.records[id].deletedAt
                                                 else Some(s.clock))
                  && t.records[id].payload.status == DESTROYING
                  && t.records[id].payload.deletionCompletedAt == Some(s.clock)
                  && t.records[id].payload.details == job.removal.snapshot.details)
            && (id != job.id || s.records[id].kind != A2A ==> t.records[id] == s.records[id])
  {
  }

  /** A deletion job stops at once if its instance is gone, is none, or has been completed before. */
  lemma {:induction false} JobStarts(s: State, pid: nat)
    requires Enabled(s, ReadInstance(pid))
    ensures var t, id := Do(s, ReadInstance(pid)), s.processes[pid].id;
            && t.records == s.records && t.operations == s.operations
            && t.processes[pid]
               == if id in s.records && s.records[id].kind == A2A && s.records[id].payload.deletionCompletedAt.None?
                  then Deleter(id, Removing(s.records[id].payload)) else Deleter(id, Done)
  {
  }

  // ------------------------------------------------------------------------- saves

  /** Whether a save takes effect: with an owner, on an instance that is new or alive; without one, on a
      live A2A instance only. */
  lemma {:induction false} SaveTakesEffectIff(s: State, pid: nat)
    requires Enabled(s, WriteSave(pid))
    ensures var save := WorkerAt(s, pid).value.save;
            TakesEffect(s, WriteSave(pid))
            <==> if save.owner.Some? then save.id in s.records ==> s.records[save.id].deletedAt.None?
                 else save.id in s.records && s.records[save.id].deletedAt.None? && s.records[save.id].kind == A2A
  {
  }

  /** A save that takes effect stores its payload under its identifier, as an A2A instance without a
      tombstone; one that does not changes no row. No other row is touched, and the lock is given back. */
  lemma {:induction false} SaveStores(s: State, pid: nat, id: string)
    requires Enabled(s, WriteSave(pid))
    ensures var t, save := Do(s, WriteSave(pid)), WorkerAt(s, pid).value.save;
            && t.operations == s.operations
            && (Operation(s, pid).Some? ==> t.lock == None) && WorkerAt(t, pid) == Some(Idle)
            && (id != save.id || !TakesEffect(s, WriteSave(pid)) ==>
                  (id in t.records <==> id in s.records) && (id in s.records ==> t.records[id] == s.records[id]))
            && (id == save.id && TakesEffect(s, WriteSave(pid)) ==>
                  && id in t.records && t.records[id].payload == save.payload
                  && t.records[id].kind == A2A && t.records[id].deletedAt == None
                  && t.records[id].catalogAgentId == if save.owner.Some? then save.catalogAgentId
                                                     else s.records[id].catalogAgentId)
  {
  }

  /** A worker gets past its operation check exactly when its operation is pending, running or in retry;
      otherwise its transaction ends. */
  lemma {:induction false} OperationCheckPasses(s: State, pid: nat)
    requires Enabled(s, CheckOperation(pid))
    ensures var t, save, o := Do(s, CheckOperation(pid)), WorkerAt(s, pid).value.save, Operation(s, pid);
            && t.records == s.records && t.operations == s.operations
            && WorkerAt(t, pid)
               == Some(if && o.Some? && o.value in s.operations
                          && (s.operations[o.value] == Pending || s.operations[o.value] == Running
                              || s.operations[o.value] == Retry)
                       then OperationChecked(save) else Idle)
            && (WorkerAt(t, pid) == Some(Idle) && o.Some? ==> t.lock == None)
  {
  }

  /** It gets past its record check exactly when the record carries no tombstone. */
  lemma {:induction false} RecordCheckPasses(s: State, pid: nat)
    requires Enabled(s, CheckRecord(pid))
    ensures var t, save := Do(s, CheckRecord(pid)), WorkerAt(s, pid).value.save;
            && t.records == s.records && t.operations == s.operations
            && WorkerAt(t, pid)
               == Some(if save.id in s.records && s.records[save.id].deletedAt.Some? then Idle else Persisting(save))
            && (WorkerAt(t, pid) == Some(Idle) && Operation(s, pid).Some? ==> t.lock == None)
  {
  }

  /** It gets past reading the existing row exactly when there is none, or a live A2A instance. */
  lemma {:induction false} ExistingRowPasses(s: State, pid: nat)
    requires Enabled(s, ReadExisting(pid))
    ensures var t, save := Do(s, ReadExisting(pid)), WorkerAt(s, pid).value.save;
            && t.records == s.records && t.operations == s.operations
            && WorkerAt(t, pid)
               == Some(if save.id !in s.records
                          || (s.records[save.id].deletedAt.None? && s.records[save.id].kind == A2A)
                       then ExistingRead(save) else Idle)
            && (WorkerAt(t, pid) == Some(Idle) && Operation(s, pid).Some? ==> t.lock == None)
  {
  }

  // -------------------------------------------------------------------- operations

  /** How a step changes the status of an operation, if it does. */
  lemma {:induction false} StatusSteps(s: State, a: Action, o: string)
    requires Enabled(s, a)
    ensures var t := Do(s, a);
            && (o in s.operations ==> o in t.operations)
            && (o !in s.operations && o in t.operations ==> a == Enqueue(o) && t.operations[o] == Pending)
            && (o in s.operations && t.operations[o] != s.operations[o] ==>
                  match t.operations[o]
                  case Running => a == Claim(o)
                  case Cancelled => a == CancelClaim(o) || (a.CommitRequest? && o in a.cancelled)
                  case Completed => a.Finish? && Operation(s, a.pid) == Some(o) && s.operations[o] == Running
                  case Withdrawn => a.Finish? && Operation(s, a.pid) == Some(o) && s.operations[o] == Running
                  case Failed => (a.Finish? || a.RefuseClaim?) && Operation(s, a.pid) == Some(o)
                  case Retry => (a.Finish? || a.RefuseClaim?) && Operation(s, a.pid) == Some(o)
                  case Pending => false)
  {
  }

  predicate StatusMayBecome(status: OperationStatus, end: OperationStatus) {
    match end
    case Pending => false
    case Running => status == Pending || status == Retry
    case Retry => status == Pending || status == Running
    case Completed => status == Running
    case Withdrawn => status == Running
    case Failed => status == Pending || status == Running || status == Retry
    case Cancelled => status == Pending || status == Running || status == Retry
  }

  /** With the lock free and a worker idle, one statement can change the status of the worker's operation to
      another if and only if the first is no end and the second may follow it. */
  lemma {:induction false} StatusStepIff(s: State, pid: nat, o: string, end: OperationStatus)
    requires s.lock.None? && pid in s.processes && s.processes[pid] == Worker(Some(o), Idle)
    requires o in s.operations && s.operations[o] != end
    ensures (exists a :: Enabled(s, a) && o in Do(s, a).operations && Do(s, a).operations[o] == end)
            <==> StatusMayBecome(s.operations[o], end)
  {
    var status := s.operations[o];
    if StatusMayBecome(status, end) {
      var a := match end
        case Running => Claim(o)
        case Cancelled => CancelClaim(o)
        case _ => if status == Running then Finish(pid, end) else RefuseClaim(pid, end);
      assert Enabled(s, a) && o in Do(s, a).operations && Do(s, a).operations[o] == end;
    }
    if a :| Enabled(s, a) && o in Do(s, a).operations && Do(s, a).operations[o] == end {
      StatusSteps(s, a, o);
      StatusFrom(s, a, o);
    }
  }

  lemma {:induction false} StatusFrom(s: State, a: Action, o: string)
    requires Enabled(s, a) && o in s.operations && o in Do(s, a).operations
    ensures Do(s, a).operations[o] == s.operations[o] || StatusMayBecome(s.operations[o], Do(s, a).operations[o])
  {
  }

  /** What claims and handlers write is written. */
  lemma {:induction false} StatusWrites(s: State, a: Action)
    requires Enabled(s, a)
    ensures var t := Do(s, a);
            match a
            case Enqueue(o) => o in t.operations && t.operations[o] == Pending && o !in s.operations
            case Claim(o) => o in t.operations && t.operations[o] == Running
            case CancelClaim(o) => o in t.operations && t.operations[o] == Cancelled
            case RefuseClaim(pid, status) => t.operations[Operation(s, pid).value] == status
            case Finish(pid, status) => t.operations[Operation(s, pid).value] == status
            case _ => true
  {
  }

  // ------------------------------------------------------- transactions and frames

  /** Transactions begin with the lock in hand; a save without an operation needs none. */
  lemma {:induction false} TransactionsBegin(s: State, a: Action)
    requires Enabled(s, a)
    ensures var t := Do(s, a);
            match a
            case BeginSave(pid, save) =>
              && t.processes[pid] == (if Operation(s, pid).Some? then Worker(Operation(s, pid), Locked(save))
                                      else Worker(None, Persisting(save)))
              && t.lock == (if Operation(s, pid).Some? then Some(pid) else s.lock)
            case BeginCompletion(pid) =>
              && t.processes[pid] == Deleter(s.processes[pid].id, Completing(s.processes[pid].removal.snapshot))
              && t.lock == Some(pid) && s.lock == None
            case BeginRequest(pid) =>
              t.processes[pid] == Requester(Selecting) && t.lock == Some(pid) && s.lock == None
            case Rollback(pid) =>
              && t.lock == None
              && t.processes[pid] == (match s.processes[pid]
                                      case Worker(operation, _) => Worker(operation, Idle)
                                      case Deleter(id, removal) => Deleter(id, Removing(removal.snapshot))
                                      case Requester(_) => Requester(Waiting))
            case _ => true
  {
  }

  /** Rows change through saves, completions and committed requests alone, and time through its own steps. */
  lemma {:induction false} RowsFrame(s: State, a: Action)
    requires Enabled(s, a)
    ensures Do(s, a).records != s.records ==> a.WriteSave? || a.CommitCompletion? || a.CommitRequest?
    ensures Do(s, a).clock == if a.Tick? then s.clock + 1 else s.clock
  {
  }

  // -------------------------------------------------------------------- whole runs

  /** A request that selected a row tombstones it when it commits, and nothing that follows undoes it. */
  lemma {:induction false} SelectedStaysDeleted(
    s: State, pid: nat, cancelled: set<string>, id: string, run: seq<Action>)
    requires Inv(s) && Enabled(s, CommitRequest(pid, cancelled)) && id in s.processes[pid].request.rows
    requires Runnable(Do(s, CommitRequest(pid, cancelled)), run)
    ensures var t := After(Do(s, CommitRequest(pid, cancelled)), run);
            && Tombstoned(t, id) && t.records[id].deletedAt == Some(s.clock)
            && t.records[id].payload.status == DESTROYING
  {
    SelectedAreLive(s, pid, id);
    RequestTombstones(s, pid, cancelled, id);
    StepKeepsInv(s, CommitRequest(pid, cancelled));
    hide *;
    DeletionWins(Do(s, CommitRequest(pid, cancelled)), run, id);
  }

  /** Process `pid` takes no step in the run. */
  ghost predicate Sleeps(run: seq<Action>, pid: nat) {
    forall i :: 0 <= i < |run| ==> match run[i]
      case Rollback(p) => p != pid
      case CommitRequest(p, _) => p != pid
      case BeginRequest(p) => p != pid
      case SelectRows(p, _) => p != pid
      case _ => true
  }

  lemma {:induction false} SelectionWaitsOne(s: State, a: Action, pid: nat)
    requires Enabled(s, a) && Sleeps([a], pid)
    requires RequesterAt(s, pid) && s.processes[pid].request.Selected?
    ensures pid in Do(s, a).processes && Do(s, a).processes[pid] == s.processes[pid]
  {
    assert [a][0] == a;
  }

  lemma {:induction false} SelectionWaits(s: State, run: seq<Action>, pid: nat)
    requires Runnable(s, run) && Sleeps(run, pid)
    requires RequesterAt(s, pid) && s.processes[pid].request.Selected?
    ensures pid in After(s, run).processes && After(s, run).processes[pid] == s.processes[pid]
    decreases |run|
  {
    hide Enabled, Do;
    if run != [] {
      assert [run[0]][0] == run[0];
      assert forall i :: 0 <= i < |run[1..]| ==> run[1..][i] == run[i + 1];
      SelectionWaitsOne(s, run[0], pid);
      SelectionWaits(Do(s, run[0]), run[1..], pid);
    }
  }

  /** A deletion deletes: an A2A instance that is alive when a request for it selects is tombstoned and being
      destroyed from the commit of that request on, whatever happens before and after. */
  lemma {:induction false} DeletionDeletes(
    s: State, pid: nat, ids: set<string>, id: string, before: seq<Action>, cancelled: set<string>, after: seq<Action>)
    requires Inv(s) && Enabled(s, SelectRows(pid, ids))
    requires id in ids && id in s.records && s.records[id].kind == A2A && s.records[id].deletedAt.None?
    requires Runnable(Do(s, SelectRows(pid, ids)), before) && Sleeps(before, pid)
    requires var t := After(Do(s, SelectRows(pid, ids)), before);
             Enabled(t, CommitRequest(pid, cancelled)) && Runnable(Do(t, CommitRequest(pid, cancelled)), after)
    ensures var t := After(Do(s, SelectRows(pid, ids)), before);
            var r := After(Do(t, CommitRequest(pid, cancelled)), after);
            Tombstoned(r, id) && r.records[id].deletedAt == Some(t.clock) && r.records[id].payload.status == DESTROYING
  {
    RequestSelects(s, pid, ids);
    StepKeepsInv(s, SelectRows(pid, ids));
    var u := Do(s, SelectRows(pid, ids));
    hide Inv, Enabled, Do, Runnable, After;
    SelectionWaits(u, before, pid);
    RunsKeepInv(u, before);
    SelectedStaysDeleted(After(u, before), pid, cancelled, id, after);
  }

  // --------------------------------------------------------------------- possible runs

  /** While nobody holds the lock, a waiting request can delete any live A2A instance. */
  lemma {:induction false} DeletionIsPossible(s: State, pid: nat, id: string, cancelled: set<string>)
    requires s.lock.None? && pid in s.processes && s.processes[pid] == Requester(Waiting)
    requires id in s.records && s.records[id].kind == A2A && s.records[id].deletedAt.None?
    ensures var run := [BeginRequest(pid)] + ([SelectRows(pid, {id})] + [CommitRequest(pid, cancelled)]);
            && Runnable(s, run) && After(s, run).lock.None?
            && Tombstoned(After(s, run), id) && After(s, run).records[id].deletedAt == Some(s.clock)
  {
    var s1 := Do(s, BeginRequest(pid));
    var s2 := Do(s1, SelectRows(pid, {id}));
    var s3 := Do(s2, CommitRequest(pid, cancelled));
    assert s3.lock.None? && Tombstoned(s3, id) && s3.records[id].deletedAt == Some(s.clock);
    var last := [CommitRequest(pid, cancelled)];
    assert last + [] == last && Runnable(s3, []);
    assert Enabled(s, BeginRequest(pid)) && Enabled(s1, SelectRows(pid, {id})) && Enabled(s2, last[0]);
    hide Do, Enabled;
    RunCons(s2, CommitRequest(pid, cancelled), []);
    RunCons(s1, SelectRows(pid, {id}), last);
    RunCons(s, BeginRequest(pid), [SelectRows(pid, {id})] + last);
  }

  /** While nobody holds the lock, a deletion job that has not started can complete the deletion of any A2A
      instance whose deletion is not complete. */
  lemma {:induction false} CompletionIsPossible(s: State, pid: nat, id: string)
    requires s.lock.None? && pid in s.processes && s.processes[pid] == Deleter(id, Unread)
    requires id in s.records && s.records[id].kind == A2A && s.records[id].payload.deletionCompletedAt.None?
    ensures var run := [ReadInstance(pid)] + ([BeginCompletion(pid)] + [CommitCompletion(pid)]);
            && Runnable(s, run) && After(s, run).lock.None? && Tombstoned(After(s, run), id)
            && After(s, run).records[id].payload.deletionCompletedAt == Some(s.clock)
  {
    var s1 := Do(s, ReadInstance(pid));
    var s2 := Do(s1, BeginCompletion(pid));
    var s3 := Do(s2, CommitCompletion(pid));
    assert s3.lock.None? && Tombstoned(s3, id);
    assert s3.records[id].payload.deletionCompletedAt == Some(s.clock);
    var last := [CommitCompletion(pid)];
    assert last + [] == last && Runnable(s3, []);
    assert Enabled(s, ReadInstance(pid)) && Enabled(s1, BeginCompletion(pid)) && Enabled(s2, last[0]);
    hide Do, Enabled;
    RunCons(s2, CommitCompletion(pid), []);
    RunCons(s1, BeginCompletion(pid), last);
    RunCons(s, ReadInstance(pid), [BeginCompletion(pid)] + last);
  }

  ghost predicate CanUpdate(s: State, o: string, save: SaveRequest) {
    && o in s.operations
    && (s.operations[o] == Pending || s.operations[o] == Running || s.operations[o] == Retry)
    && save.owner.None? && save.id in s.records
    && s.records[save.id].kind == A2A && s.records[save.id].deletedAt.None?
  }

  lemma {:induction false} SaveIsReached(s: State, pid: nat, o: string, save: SaveRequest)
    requires s.lock.None? && pid in s.processes && s.processes[pid] == Worker(Some(o), Idle) && CanUpdate(s, o, save)
    ensures var run := [BeginSave(pid, save)] + ([CheckOperation(pid)] + [CheckRecord(pid)]);
            && Runnable(s, run) && CanUpdate(After(s, run), o, save)
            && pid in After(s, run).processes && After(s, run).processes[pid] == Worker(Some(o), Persisting(save))
  {
    var s1 := Do(s, BeginSave(pid, save));
    var s2 := Do(s1, CheckOperation(pid));
    var s3 := Do(s2, CheckRecord(pid));
    var last := [CheckRecord(pid)];
    assert last + [] == last && Runnable(s3, []);
    assert Enabled(s, BeginSave(pid, save)) && Enabled(s1, CheckOperation(pid)) && Enabled(s2, last[0]);
    assert CanUpdate(s3, o, save) && s3.processes[pid] == Worker(Some(o), Persisting(save));
    hide Do, Enabled, CanUpdate;
    RunCons(s2, CheckRecord(pid), []);
    RunCons(s1, CheckOperation(pid), last);
    RunCons(s, BeginSave(pid, save), [CheckOperation(pid)] + last);
  }

  /** While nobody holds the lock, an idle worker of an active operation can get as far as updating any live
      A2A instance, and the update then takes effect and frees the lock. */
  lemma {:induction false} SaveIsPossible(s: State, pid: nat, o: string, save: SaveRequest)
    requires s.lock.None? && pid in s.processes && s.processes[pid] == Worker(Some(o), Idle) && CanUpdate(s, o, save)
    ensures var run := [BeginSave(pid, save)] + ([CheckOperation(pid)] + [CheckRecord(pid)]);
            && Runnable(s, run) && Enabled(After(s, run), WriteSave(pid))
            && var t := Do(After(s, run), WriteSave(pid));
               t.lock.None? && save.id in t.records && t.records[save.id].payload == save.payload
  {
    SaveIsReached(s, pid, o, save);
    var run := [BeginSave(pid, save)] + ([CheckOperation(pid)] + [CheckRecord(pid)]);
    hide Runnable, After;
    SaveStores(After(s, run), pid, save.id);
    SaveTakesEffectIff(After(s, run), pid);
  }
}
