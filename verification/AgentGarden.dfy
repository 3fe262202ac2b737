/** Managed A2A instances in the store: creation workers, deletion requests and deletion jobs
    interleave statement by statement. A transaction that locks the project row reads in separate
    steps and writes when it commits; it may be rolled back at any point before. */
module AgentGarden {
  import opened Sequences

  /** `Cancelled` is written under the project lock, by a deletion request or instead of a claim;
      `Withdrawn` is the same status written without the lock, by a handler that finds its project
      deleted when it is done. */
  datatype OperationStatus = Pending | Running | Retry | Completed | Failed | Cancelled | Withdrawn

  predicate Active(status: OperationStatus) {
    status.Pending? || status.Running? || status.Retry?
  }

  datatype InstanceStatus = PROVISIONING | READY | FAILED | DESTROYING

  datatype Payload = Payload(status: InstanceStatus, deletionCompletedAt: Option<nat>, details: string)

  datatype Kind = A2A | PROJECT_AGENT

  datatype Record = Record(kind: Kind, deletedAt: Option<nat>, catalogAgentId: string, payload: Payload)

  /** A save that a worker wants: `owner` is given when the instance may have to be created. */
  datatype SaveRequest = SaveRequest(id: string, catalogAgentId: string, payload: Payload, owner: Option<string>)

  /** How far a worker is with a save. */
  datatype WorkerPhase =
    | Idle
    | Locked(save: SaveRequest)
    | OperationChecked(save: SaveRequest)
    | Persisting(save: SaveRequest)
    | ExistingRead(save: SaveRequest)

  /** How far a deletion job is. */
  datatype DeleterPhase = Unread | Removing(snapshot: Payload) | Completing(snapshot: Payload) | Done

  /** How far a deletion request is. */
  datatype RequestPhase = Waiting | Selecting | Selected(rows: map<string, Payload>) | Served

  datatype Process =
    | Worker(operation: Option<string>, work: WorkerPhase)
    | Deleter(id: string, removal: DeleterPhase)
    | Requester(request: RequestPhase)

  datatype State = State(
    records: map<string, Record>,
    operations: map<string, OperationStatus>,
    lock: Option<nat>,
    processes: map<nat, Process>,
    clock: nat)

  datatype Action =
    | Tick
    | Enqueue(operation: string)
    | Claim(operation: string)
    | CancelClaim(operation: string)
    | RefuseClaim(pid: nat, status: OperationStatus)
    | Finish(pid: nat, status: OperationStatus)
    | BeginSave(pid: nat, save: SaveRequest)
    | CheckOperation(pid: nat)
    | CheckRecord(pid: nat)
    | ReadExisting(pid: nat)
    | WriteSave(pid: nat)
    | ReadInstance(pid: nat)
    | BeginCompletion(pid: nat)
    | CommitCompletion(pid: nat)
    | BeginRequest(pid: nat)
    | SelectRows(pid: nat, ids: set<string>)
    | CommitRequest(pid: nat, cancelled: set<string>)
    | Rollback(pid: nat)

  predicate Live(s: State, id: string) {
    id in s.records && s.records[id].deletedAt.None?
  }

  predicate Tombstoned(s: State, id: string) {
    id in s.records && s.records[id].deletedAt.Some?
  }

  /** The process is inside a transaction that has locked the project row. */
  predicate InTransaction(p: Process) {
    match p
    case Worker(operation, work) => operation.Some? && !work.Idle?
    case Deleter(_, removal) => removal.Completing?
    case Requester(request) => request.Selecting? || request.Selected?
  }

  /** The process as it is after its transaction ends. */
  function Left(p: Process): Process {
    match p
    case Worker(operation, _) => Worker(operation, Idle)
    case Deleter(id, Completing(snapshot)) => Deleter(id, Removing(snapshot))
    case Deleter(id, removal) => p
    case Requester(_) => Requester(Waiting)
  }

  function WorkerAt(s: State, pid: nat): Option<WorkerPhase> {
    if pid in s.processes && s.processes[pid].Worker? then Some(s.processes[pid].work) else None
  }

  function Operation(s: State, pid: nat): Option<string> {
    if pid in s.processes && s.processes[pid].Worker? then s.processes[pid].operation else None
  }

  predicate DeleterAt(s: State, pid: nat) {
    pid in s.processes && s.processes[pid].Deleter?
  }

  predicate RequesterAt(s: State, pid: nat) {
    pid in s.processes && s.processes[pid].Requester?
  }

  predicate Enabled(s: State, a: Action) {
    match a
    case Tick => true
    case Enqueue(operation) => s.lock.None? && operation !in s.operations
    case Claim(operation) => s.lock.None? && operation in s.operations && Active(s.operations[operation])
    case CancelClaim(operation) => s.lock.None? && operation in s.operations && Active(s.operations[operation])
    case RefuseClaim(pid, status) =>
      && WorkerAt(s, pid) == Some(Idle) && Operation(s, pid).Some? && Operation(s, pid).value in s.operations
      && var current := s.operations[Operation(s, pid).value];
         (current.Pending? || current.Retry?) && (status == Failed || status == Retry)
    case Finish(pid, status) =>
      && WorkerAt(s, pid) == Some(Idle) && Operation(s, pid).Some?
      && Operation(s, pid).value in s.operations && s.operations[Operation(s, pid).value] == Running
      && (status == Completed || status == Withdrawn || status == Failed || status == Retry)
    case BeginSave(pid, _) => WorkerAt(s, pid) == Some(Idle) && (Operation(s, pid).Some? ==> s.lock.None?)
    case CheckOperation(pid) => WorkerAt(s, pid).Some? && WorkerAt(s, pid).value.Locked?
    case CheckRecord(pid) => WorkerAt(s, pid).Some? && WorkerAt(s, pid).value.OperationChecked?
    case ReadExisting(pid) =>
      WorkerAt(s, pid).Some? && WorkerAt(s, pid).value.Persisting? && WorkerAt(s, pid).value.save.owner.Some?
    case WriteSave(pid) =>
      && WorkerAt(s, pid).Some?
      && var work := WorkerAt(s, pid).value;
         (work.Persisting? && work.save.owner.None?) || work.ExistingRead?
    case ReadInstance(pid) => DeleterAt(s, pid) && s.processes[pid].removal.Unread?
    case BeginCompletion(pid) => DeleterAt(s, pid) && s.processes[pid].removal.Removing? && s.lock.None?
    case CommitCompletion(pid) => DeleterAt(s, pid) && s.processes[pid].removal.Completing?
    case BeginRequest(pid) => RequesterAt(s, pid) && s.processes[pid].request.Waiting? && s.lock.None?
    case SelectRows(pid, _) => RequesterAt(s, pid) && s.processes[pid].request.Selecting?
    case CommitRequest(pid, _) => RequesterAt(s, pid) && s.processes[pid].request.Selected?
    case Rollback(pid) => pid in s.processes && InTransaction(s.processes[pid])
  }

  function Move(s: State, pid: nat, p: Process): State {
    s.(processes := s.processes[pid := p])
  }

  /** The worker's transaction ends; outside one there is no lock to give back. */
  function Release(s: State, pid: nat): State
    requires pid in s.processes
  {
    Move(s, pid, Left(s.processes[pid])).(lock := if InTransaction(s.processes[pid]) then None else s.lock)
  }

  /** The row after a save, or none when the statement throws. */
  function SavedRecord(s: State, save: SaveRequest): Option<Record> {
    if save.owner.None? then
      if Live(s, save.id) && s.records[save.id].kind == A2A
      then Some(s.records[save.id].(payload := save.payload)) else None
    else if save.id !in s.records then Some(Record(A2A, None, save.catalogAgentId, save.payload))
    else if Live(s, save.id) then
      Some(s.records[save.id].(kind := A2A, catalogAgentId := save.catalogAgentId, payload := save.payload))
    else None
  }

  function CompletedRecord(s: State, r: Record, snapshot: Payload): Record {
    r.(deletedAt := if r.deletedAt.None? then Some(s.clock) else r.deletedAt,
       payload := snapshot.(status := DESTROYING, deletionCompletedAt := Some(s.clock)))
  }

  function TombstonedRecord(s: State, r: Record, snapshot: Payload): Record {
    r.(deletedAt := Some(s.clock), payload := snapshot.(status := DESTROYING))
  }

  /** The transitions, one statement or one committing write at a time. */
  function Do(s: State, a: Action): State
    requires Enabled(s, a)
  {
    match a
    case Tick => s.(clock := s.clock + 1)
    case Enqueue(operation) => s.(operations := s.operations[operation := Pending])
    case Claim(operation) => s.(operations := s.operations[operation := Running])
    case CancelClaim(operation) => s.(operations := s.operations[operation := Cancelled])
    case RefuseClaim(pid, status) => s.(operations := s.operations[Operation(s, pid).value := status])
    case Finish(pid, status) => s.(operations := s.operations[Operation(s, pid).value := status])
    case BeginSave(pid, save) =>
      if Operation(s, pid).Some? then Move(s, pid, Worker(Operation(s, pid), Locked(save))).(lock := Some(pid))
      else Move(s, pid, Worker(None, Persisting(save)))
    case CheckOperation(pid) =>
      var operation := Operation(s, pid);
      if operation.Some? && operation.value in s.operations && Active(s.operations[operation.value])
      then Move(s, pid, Worker(operation, OperationChecked(WorkerAt(s, pid).value.save)))
      else Release(s, pid)
    case CheckRecord(pid) =>
      var save := WorkerAt(s, pid).value.save;
      if Tombstoned(s, save.id) then Release(s, pid)
      else Move(s, pid, Worker(Operation(s, pid), Persisting(save)))
    case ReadExisting(pid) =>
      var save := WorkerAt(s, pid).value.save;
      if save.id in s.records && (Tombstoned(s, save.id) || s.records[save.id].kind != A2A) then Release(s, pid)
      else Move(s, pid, Worker(Operation(s, pid), ExistingRead(save)))
    case WriteSave(pid) =>
      var save := WorkerAt(s, pid).value.save;
      var saved := SavedRecord(s, save);
      if saved.None? then Release(s, pid)
      else Release(s, pid).(records := s.records[save.id := saved.value])
    case ReadInstance(pid) =>
      var id := s.processes[pid].id;
      if id !in s.records || s.records[id].kind != A2A || s.records[id].payload.deletionCompletedAt.Some?
      then Move(s, pid, Deleter(id, Done))
      else Move(s, pid, Deleter(id, Removing(s.records[id].payload)))
    case BeginCompletion(pid) =>
      Move(s, pid, Deleter(s.processes[pid].id, Completing(s.processes[pid].removal.snapshot))).(lock := Some(pid))
    case CommitCompletion(pid) =>
      var id := s.processes[pid].id;
      var after := Move(s, pid, Deleter(id, Done)).(lock := None);
      if id in s.records && s.records[id].kind == A2A
      then after.(records := s.records[id := CompletedRecord(s, s.records[id], s.processes[pid].removal.snapshot)])
      else after
    case BeginRequest(pid) => Move(s, pid, Requester(Selecting)).(lock := Some(pid))
    case SelectRows(pid, ids) =>
      var rows := map id | id in ids && Live(s, id) && s.records[id].kind == A2A :: s.records[id].payload;
      Move(s, pid, Requester(Selected(rows)))
    case CommitRequest(pid, cancelled) =>
      var rows := s.processes[pid].request.rows;
      Move(s, pid, Requester(Served)).(
        lock := None,
        records := map id | id in s.records ::
          if id in rows then TombstonedRecord(s, s.records[id], rows[id]) else s.records[id],
        operations := map o | o in s.operations ::
          if o in cancelled && Active(s.operations[o]) then Cancelled else s.operations[o])
    case Rollback(pid) => Release(s, pid)
  }

  // ----------------------------------------------------------------- invariant

  /** Whoever is inside a locking transaction owns the lock. */
  ghost predicate Exclusive(s: State) {
    forall pid :: pid in s.processes && InTransaction(s.processes[pid]) ==> s.lock == Some(pid)
  }

  /** A deletion request only holds rows that are still live. */
  ghost predicate SelectionsAreLive(s: State) {
    forall pid, id ::
      (pid in s.processes && s.processes[pid].Requester? && s.processes[pid].request.Selected?
       && id in s.processes[pid].request.rows) ==> Live(s, id)
  }

  predicate PastOperationCheck(p: Process) {
    p.Worker? && p.operation.Some? && (p.work.OperationChecked? || p.work.Persisting? || p.work.ExistingRead?)
  }

  /** Past its operation check, a worker's operation has not been cancelled. */
  ghost predicate ChecksHold(s: State) {
    forall pid :: pid in s.processes && PastOperationCheck(s.processes[pid]) ==>
      s.processes[pid].operation.value in s.operations
      && s.operations[s.processes[pid].operation.value] != Cancelled
  }

  ghost predicate Inv(s: State) {
    Exclusive(s) && SelectionsAreLive(s) && ChecksHold(s)
  }

  /** A tombstoned instance shows that it is being destroyed. */
  ghost predicate TombstonesShow(s: State) {
    forall id :: Tombstoned(s, id) ==> s.records[id].payload.status == DESTROYING
  }

  /** Some operation that is still to come or active has two workers. */
  ghost predicate Contended(s: State) {
    exists p, q :: p != q && Operation(s, p).Some? && Operation(s, p) == Operation(s, q)
                   && Usable(s, Operation(s, p).value)
  }

  ghost predicate Usable(s: State, operation: string) {
    operation in s.operations ==> Active(s.operations[operation])
  }

  ghost predicate ChecksStayActive(s: State) {
    forall pid :: pid in s.processes && PastOperationCheck(s.processes[pid]) ==>
      s.processes[pid].operation.value in s.operations
      && Active(s.operations[s.processes[pid].operation.value])
  }

  // ------------------------------------------------------------ one step at a time

  /** A process that owns the lock keeps everybody else out of locking transactions. */
  lemma {:induction false} OthersOutside(s: State, pid: nat, other: nat)
    requires Exclusive(s) && pid in s.processes && InTransaction(s.processes[pid])
    requires other != pid && other in s.processes
    ensures !InTransaction(s.processes[other])
  {
  }

  lemma {:induction false} StepKeepsExclusive(s: State, a: Action)
    requires Exclusive(s) && Enabled(s, a)
    ensures Exclusive(Do(s, a))
  {
    hide SavedRecord, CompletedRecord, TombstonedRecord, Active, Live, Tombstoned;
  }

  /** The tombstone of a record, its kind and its catalogue agent never change once it is set. */
  lemma {:induction false} TombstoneIsFinal(s: State, a: Action, id: string)
    requires Inv(s) && Enabled(s, a) && Tombstoned(s, id)
    ensures Tombstoned(Do(s, a), id)
    ensures Do(s, a).records[id].deletedAt == s.records[id].deletedAt
    ensures Do(s, a).records[id].kind == s.records[id].kind
    ensures Do(s, a).records[id].catalogAgentId == s.records[id].catalogAgentId
  {
    hide Active, Exclusive, ChecksHold, InTransaction;
    if a.CommitRequest? {
      SelectedAreLive(s, a.pid, id);
    }
  }

  lemma {:induction false} SelectedAreLive(s: State, pid: nat, id: string)
    requires SelectionsAreLive(s) && RequesterAt(s, pid) && s.processes[pid].request.Selected?
    ensures id in s.processes[pid].request.rows ==> Live(s, id)
  {
  }

  /** The payload of a tombstoned record changes through the completion of its deletion only,
      and then shows that the deletion is complete. */
  lemma {:induction false} TombstonedPayload(s: State, a: Action, id: string)
    requires Inv(s) && Enabled(s, a) && Tombstoned(s, id)
    ensures Do(s, a).records[id].payload == s.records[id].payload
            || (&& a.CommitCompletion? && s.processes[a.pid].id == id
                && Do(s, a).records[id].payload.status == DESTROYING
                && Do(s, a).records[id].payload.deletionCompletedAt.Some?)
  {
    hide Active, Exclusive, ChecksHold, InTransaction;
    if a.CommitRequest? {
      SelectedAreLive(s, a.pid, id);
    }
  }

  /** Only a committing request or completion ends the life of a record. */
  lemma {:induction false} LifeEnds(s: State, a: Action, id: string)
    requires Enabled(s, a) && Live(s, id)
    requires !a.CommitRequest? && !a.CommitCompletion?
    ensures Live(Do(s, a), id)
  {
    hide Active, InTransaction;
  }

  lemma {:induction false} StepKeepsSelections(s: State, a: Action)
    requires Exclusive(s) && SelectionsAreLive(s) && Enabled(s, a)
    ensures SelectionsAreLive(Do(s, a))
  {
    var t := Do(s, a);
    if a.CommitRequest? || a.CommitCompletion? {
      forall pid | pid != a.pid && pid in s.processes ensures !InTransaction(s.processes[pid]) {
        OthersOutside(s, a.pid, pid);
      }
    } else {
      forall pid, id | pid in t.processes && t.processes[pid].Requester? && t.processes[pid].request.Selected?
                       && id in t.processes[pid].request.rows
        ensures Live(t, id)
      {
        LifeEnds(s, a, id);
      }
    }
  }

  lemma {:induction false} RequestKeepsChecks(s: State, requester: nat, cancelled: set<string>)
    requires Exclusive(s) && ChecksHold(s) && Enabled(s, CommitRequest(requester, cancelled))
    ensures ChecksHold(Do(s, CommitRequest(requester, cancelled)))
  {
    hide Active, TombstonedRecord;
    forall pid | pid in s.processes && pid != requester ensures !InTransaction(s.processes[pid]) {
      OthersOutside(s, requester, pid);
    }
  }

  lemma {:induction false} StepKeepsChecks(s: State, a: Action)
    requires Exclusive(s) && ChecksHold(s) && Enabled(s, a)
    ensures ChecksHold(Do(s, a))
  {
    hide Live, Tombstoned, SavedRecord, CompletedRecord, TombstonedRecord;
    if a.CommitRequest? {
      RequestKeepsChecks(s, a.pid, a.cancelled);
    }
  }

  lemma {:induction false} StepKeepsInv(s: State, a: Action)
    requires Inv(s) && Enabled(s, a)
    ensures Inv(Do(s, a))
  {
    hide Exclusive, SelectionsAreLive, ChecksHold;
    StepKeepsExclusive(s, a);
    StepKeepsSelections(s, a);
    StepKeepsChecks(s, a);
  }

  lemma {:induction false} StepKeepsTombstonesShowing(s: State, a: Action)
    requires Inv(s) && TombstonesShow(s) && Enabled(s, a)
    ensures TombstonesShow(Do(s, a))
  {
    hide Exclusive, ChecksHold, Active, InTransaction;
  }

  // -------------------------------------------------------------------- saves

  /** A save takes effect when it changes the stored row. */
  predicate TakesEffect(s: State, a: Action)
    requires Enabled(s, a)
  {
    a.WriteSave? && SavedRecord(s, WorkerAt(s, a.pid).value.save).Some?
  }

  /** A save that takes effect is not for a cancelled operation. */
  lemma {:induction false} SaveIsNotCancelled(s: State, a: Action)
    requires Inv(s) && Enabled(s, a) && TakesEffect(s, a) && Operation(s, a.pid).Some?
    ensures Operation(s, a.pid).value in s.operations
    ensures s.operations[Operation(s, a.pid).value] != Cancelled
  {
    hide Exclusive, SelectionsAreLive;
    assert PastOperationCheck(s.processes[a.pid]);
  }

  lemma {:induction false} StepKeepsHandlers(s: State, a: Action)
    requires Enabled(s, a)
    ensures forall pid :: Operation(Do(s, a), pid) == Operation(s, pid)
  {
    hide Active, Live, Tombstoned, InTransaction, SavedRecord;
  }

  /** An operation that has ended, or is not there, gains no new life with several workers. */
  lemma {:induction false} StepKeepsUncontended(s: State, a: Action)
    requires !Contended(s) && Enabled(s, a)
    ensures !Contended(Do(s, a))
  {
    StepKeepsHandlers(s, a);
    var t := Do(s, a);
    forall p, q | p != q && Operation(t, p).Some? && Operation(t, p) == Operation(t, q)
      ensures !Usable(t, Operation(t, p).value)
    {
      assert Operation(s, p) == Operation(t, p) && Operation(s, q) == Operation(t, q);
      if Usable(t, Operation(t, p).value) {
        UsableBefore(s, a, Operation(t, p).value);
      }
    }
  }

  lemma {:induction false} UsableBefore(s: State, a: Action, operation: string)
    requires Enabled(s, a) && Usable(Do(s, a), operation)
    ensures Usable(s, operation)
  {
    hide Live, Tombstoned, InTransaction, SavedRecord;
  }

  /** Without contention, a check that passed stays true until the save is written. */
  lemma {:induction false} StepKeepsChecksActive(s: State, a: Action)
    requires Inv(s) && !Contended(s) && ChecksStayActive(s) && Enabled(s, a)
    ensures ChecksStayActive(Do(s, a))
  {
    StepKeepsHandlers(s, a);
    var t := Do(s, a);
    forall pid | pid in t.processes && PastOperationCheck(t.processes[pid])
      ensures t.processes[pid].operation.value in t.operations && Active(t.operations[t.processes[pid].operation.value])
    {
      assert Operation(t, pid) == Operation(s, pid);
      match a
      case CommitRequest(requester, _) =>
        if pid != requester {
          OthersOutside(s, requester, pid);
        }
      case Finish(finisher, _) =>
        assert Operation(s, finisher) == Operation(s, pid) ==> Usable(s, Operation(s, finisher).value);
      case RefuseClaim(refused, _) =>
        assert Operation(s, refused) == Operation(s, pid) ==> Usable(s, Operation(s, refused).value);
      case _ =>
    }
  }

  // -------------------------------------------------------------------- runs

  ghost predicate Runnable(s: State, run: seq<Action>)
    decreases |run|
  {
    run != [] ==> Enabled(s, run[0]) && Runnable(Do(s, run[0]), run[1..])
  }

  function After(s: State, run: seq<Action>): State
    requires Runnable(s, run)
    decreases |run|
  {
    if run == [] then s else After(Do(s, run[0]), run[1..])
  }

  lemma {:induction false} RunCons(s: State, a: Action, rest: seq<Action>)
    requires Enabled(s, a) && Runnable(Do(s, a), rest)
    ensures Runnable(s, [a] + rest) && After(s, [a] + rest) == After(Do(s, a), rest)
  {
    assert ([a] + rest)[1..] == rest;
  }

  /** Before anything is in progress the invariants hold. */
  ghost predicate Quiet(s: State) {
    && s.lock.None?
    && (forall pid :: pid in s.processes ==>
          match s.processes[pid]
          case Worker(_, work) => work.Idle?
          case Deleter(_, removal) => removal.Unread?
          case Requester(request) => request.Waiting?)
  }

  lemma {:induction false} QuietStart(s: State)
    requires Quiet(s)
    ensures Inv(s) && ChecksStayActive(s)
  {
  }

  lemma {:induction false} RunsKeepInv(s: State, run: seq<Action>)
    requires Inv(s) && Runnable(s, run)
    ensures Inv(After(s, run))
    decreases |run|
  {
    hide Inv, Enabled, Do;
    if run != [] {
      StepKeepsInv(s, run[0]);
      RunsKeepInv(Do(s, run[0]), run[1..]);
    }
  }

  /** Deletion wins: from any state on, in every interleaving, a tombstone is kept as it is; the
      payload beside it is the one it had, or that of a completed deletion. */
  lemma {:induction false} DeletionWins(s: State, run: seq<Action>, id: string)
    requires Inv(s) && Runnable(s, run) && Tombstoned(s, id)
    ensures Tombstoned(After(s, run), id)
    ensures After(s, run).records[id].deletedAt == s.records[id].deletedAt
    ensures After(s, run).records[id].payload == s.records[id].payload
            || (After(s, run).records[id].payload.status == DESTROYING
                && After(s, run).records[id].payload.deletionCompletedAt.Some?)
    decreases |run|
  {
    hide Inv, Enabled, Do;
    if run != [] {
      TombstoneIsFinal(s, run[0], id);
      TombstonedPayload(s, run[0], id);
      StepKeepsInv(s, run[0]);
      DeletionWins(Do(s, run[0]), run[1..], id);
    }
  }

  /** Tombstones show as being destroyed throughout, if they do at the start. */
  lemma {:induction false} TombstonesAlwaysShow(s: State, run: seq<Action>)
    requires Inv(s) && TombstonesShow(s) && Runnable(s, run)
    ensures TombstonesShow(After(s, run))
    decreases |run|
  {
    hide Inv, Enabled, Do, TombstonesShow;
    if run != [] {
      StepKeepsInv(s, run[0]);
      StepKeepsTombstonesShowing(s, run[0]);
      TombstonesAlwaysShow(Do(s, run[0]), run[1..]);
    }
  }

  /** In every run from a quiet start, no save takes effect for an operation that a deletion request has
      cancelled, or that was cancelled instead of being claimed. */
  lemma {:induction false} NoSaveAfterCancellation(s: State, run: seq<Action>, a: Action)
    requires Quiet(s) && Runnable(s, run)
    requires Enabled(After(s, run), a) && TakesEffect(After(s, run), a) && Operation(After(s, run), a.pid).Some?
    ensures var t := After(s, run);
            && Operation(t, a.pid).value in t.operations
            && t.operations[Operation(t, a.pid).value] != Cancelled
  {
    hide Inv, Quiet, Enabled, TakesEffect;
    QuietStart(s);
    RunsKeepInv(s, run);
    SaveIsNotCancelled(After(s, run), a);
  }

  /** An operation that has ended keeps its status. */
  lemma {:induction false} EndIsFinal(s: State, run: seq<Action>, operation: string)
    requires Runnable(s, run) && operation in s.operations && !Active(s.operations[operation])
    ensures operation in After(s, run).operations && After(s, run).operations[operation] == s.operations[operation]
    decreases |run|
  {
    if run != [] {
      EndedStep(s, run[0], operation);
      EndIsFinal(Do(s, run[0]), run[1..], operation);
    }
  }

  lemma {:induction false} EndedStep(s: State, a: Action, operation: string)
    requires Enabled(s, a) && operation in s.operations && !Active(s.operations[operation])
    ensures operation in Do(s, a).operations && Do(s, a).operations[operation] == s.operations[operation]
  {
    hide Live, Tombstoned, InTransaction, SavedRecord;
  }
}
