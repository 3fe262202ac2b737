/** Which error a patch is refused with: the operation that is reported and the reason, judged against the
    document as it was. */
module AnswerRefusals {
  import opened Sequences
  import opened CanonicalJson
  import opened AnswerDocument
  import opened AnswerReordering
  import opened AnswerLaws
  import opened AnswerAcceptance
  import opened AnswerConditions

  // ------------------------------------------------------------ the first refusal

  /** The error of the `k`-th operation, judged against the working copy before any of them. */
  ghost function Refusal(h: Hashing, scope: Scope, w: Work, ops: seq<Operation>, k: nat): Option<PatchError>
    requires k < |ops|
  {
    if !TargetOk(h, scope, w, ops[k]) then Check(h, scope, w, ops[k])
    else if !AnchorOk(w.order, ops, k) then Some(BadAnchor(ops[k].afterBlockId.value))
    else None
  }

  ghost predicate FirstRefused(h: Hashing, scope: Scope, w: Work, ops: seq<Operation>, k: nat) {
    k < |ops| && Refusal(h, scope, w, ops, k).Some? && forall j :: 0 <= j < k ==> Refusal(h, scope, w, ops, j) == None
  }

  lemma {:induction false} RefusalIsCheck(h: Hashing, scope: Scope, w: Work, ops: seq<Operation>)
    requires ops != []
    ensures Refusal(h, scope, w, ops, 0) == Check(h, scope, w, ops[0])
  {
  }

  lemma {:induction false} TargetCheckUnaffected(h: Hashing, scope: Scope, w: Work, a: Operation, b: Operation)
    requires !SameTarget(a, b) && !TargetOk(h, scope, w, b)
    ensures Check(h, scope, Effect(w, a), b) == Check(h, scope, w, b)
  {
    hide StateValueHash, HashOk, InsertAfter, Without;
  }

  lemma {:induction false} RefusalUnaffected(h: Hashing, scope: Scope, w: Work, ops: seq<Operation>, k: nat)
    requires DistinctTargets(ops) && 0 < k < |ops| && Check(h, scope, w, ops[0]) == None
    ensures Refusal(h, scope, w, ops, k) == Refusal(h, scope, Effect(w, ops[0]), ops[1..], k - 1)
  {
    TargetUnaffected(h, scope, w, ops[0], ops[k]);
    AnchorUnaffected(h, scope, w, ops, k);
    if !TargetOk(h, scope, w, ops[k]) {
      TargetCheckUnaffected(h, scope, w, ops[0], ops[k]);
    }
    hide Check, Effect, TargetOk, AnchorOk, SameTarget;
  }

  /** The operations fail with the error of the first one that is refused. */
  lemma {:induction false} FailsWithFirst(h: Hashing, scope: Scope, w: Work, ops: seq<Operation>, k: nat)
    requires DistinctTargets(ops) && FirstRefused(h, scope, w, ops, k)
    ensures Run(h, scope, w, ops) == Err(Refusal(h, scope, w, ops, k).value)
    decreases k
  {
    RefusalIsCheck(h, scope, w, ops);
    hide Check, Effect, Refusal;
    if k > 0 {
      var after, rest := Effect(w, ops[0]), ops[1..];
      forall j | 0 < j <= k ensures Refusal(h, scope, after, rest, j - 1) == Refusal(h, scope, w, ops, j) {
        RefusalUnaffected(h, scope, w, ops, j);
      }
      assert forall j :: 0 <= j < k - 1 ==> Refusal(h, scope, after, rest, j) == Refusal(h, scope, w, ops, j + 1);
      assert forall i, j :: 0 <= i < j < |rest| ==> !SameTarget(rest[i], rest[j]) by {
        assert forall i :: 0 <= i < |rest| ==> rest[i] == ops[i + 1];
        hide SameTarget;
      }
      FailsWithFirst(h, scope, after, rest, k - 1);
    }
  }

  lemma {:induction false} RefusalIff(h: Hashing, scope: Scope, w: Work, ops: seq<Operation>, k: nat)
    requires k < |ops|
    ensures Refusal(h, scope, w, ops, k) == None <==> OperationOk(h, scope, w, ops, k)
  {
    hide HashOk, StateValueHash, AnchorOk;
  }

  lemma {:induction false} SomeFirst(h: Hashing, scope: Scope, w: Work, ops: seq<Operation>, n: nat) returns (k: nat)
    requires n < |ops| && Refusal(h, scope, w, ops, n).Some?
    ensures k <= n && FirstRefused(h, scope, w, ops, k)
  {
    hide Refusal;
    k := 0;
    while Refusal(h, scope, w, ops, k) == None
      invariant k <= n && forall j :: 0 <= j < k ==> Refusal(h, scope, w, ops, j) == None
      decreases n - k
    {
      k := k + 1;
    }
  }

  // ----------------------------------------------------------------- the reasons

  ghost predicate AtRevision(d: Document, id: string, revision: nat) {
    exists b :: b in d.blocks && b.id == id && b.revision == revision
  }

  /** The operation rewrites the block at the revision it expects. */
  ghost predicate Current(d: Document, op: Operation, id: string) {
    Rewrites(op, id) && AtRevision(d, id, op.expectedBlockRevision)
  }

  /** What the error says about the operation. */
  ghost predicate Reason(h: Hashing, d: Document, p: Patch, k: nat, error: PatchError)
    requires k < |p.operations|
  {
    var op := p.operations[k];
    match error
    case StateChanged(path) =>
      && op.SetState? && op.path == path && op.expectedValueHash.Some?
      && op.expectedValueHash.value != StateValueHash(h, ReadState(d.state, path))
    case UnknownBlock(id) => Rewrites(op, id) && !HasBlock(d, id)
    case BlockRevisionChanged(id) =>
      Rewrites(op, id) && HasBlock(d, id) && !AtRevision(d, id, op.expectedBlockRevision)
    case BadRevisionStep(id) =>
      op.ReplaceBlock? && Current(d, op, id) && op.block.revision != op.expectedBlockRevision + 1
    case UnrelatedBlock(id) =>
      && Current(d, op, id) && (op.ReplaceBlock? ==> op.block.revision == op.expectedBlockRevision + 1)
      && SetsState(p) && forall b :: b in d.blocks && b.id == id ==> !Reached(p, b)
    case HashMismatch(id) =>
      && (op.ReplaceBlock? || op.AddBlock?) && op.block.id == id
      && op.block.contentHash != BlockContentHash(h, op.block)
      && (op.ReplaceBlock? ==>
            Rewritable(d, p, id, op.expectedBlockRevision) && op.block.revision == op.expectedBlockRevision + 1)
      && (op.AddBlock? ==> !HasBlock(d, id) && op.block.revision == 0)
    case BlockExists(id) => op.AddBlock? && op.block.id == id && HasBlock(d, id)
    case NewBlockRevision(id) => op.AddBlock? && op.block.id == id && !HasBlock(d, id) && op.block.revision != 0
    case BadAnchor(anchor) =>
      && op.AddBlock? && op.afterBlockId == Some(anchor) && !AnchorThere(d, p, k, anchor)
      && !HasBlock(d, op.block.id) && op.block.revision == 0
      && op.block.contentHash == BlockContentHash(h, op.block)
    case _ => false
  }

  lemma {:induction false} ReasonIff(h: Hashing, d: Document, p: Patch, k: nat, error: PatchError)
    requires Distinct(BlockIds(d.blocks)) && k < |p.operations|
    ensures Refusal(h, ScopeOf(d, p), Opened(d), p.operations, k) == Some(error) <==> Reason(h, d, p, k, error)
  {
    match p.operations[k]
    case SetState(_, _, _, _) => hide StateValueHash, ReadState, ScopeOf;
    case ReplaceBlock(block, expected) => ReplaceReason(h, d, p, k, error);
    case AddBlock(block, anchor) => AddReason(h, d, p, k, error);
    case RemoveBlock(id, expected) => RemoveReason(h, d, p, k, error);
  }

  lemma {:induction false} Revisions(d: Document, id: string, revision: nat)
    requires Distinct(BlockIds(d.blocks))
    ensures AtRevision(d, id, revision)
            <==> id in Opened(d).blocks && Opened(d).blocks[id].revision == revision
    ensures id in Opened(d).blocks <==> HasBlock(d, id)
  {
    OpenedBlock(d, id);
    forall b | b in d.blocks && b.id == id ensures id in Opened(d).blocks && Opened(d).blocks[id] == b {
      OpenedHolds(d, b);
    }
    hide Opened;
  }

  lemma {:induction false} ReachedBlock(d: Document, p: Patch, id: string)
    requires Distinct(BlockIds(d.blocks)) && HasBlock(d, id)
    ensures id in ScopeOf(d, p).affected <==> exists b :: b in d.blocks && b.id == id && Reached(p, b)
    ensures id in ScopeOf(d, p).affected <==> !(forall b :: b in d.blocks && b.id == id ==> !Reached(p, b))
    ensures ScopeOf(d, p).setsState <==> SetsState(p)
  {
    SetsStateIff(p);
    forall b | b in d.blocks && b.id == id ensures id in ScopeOf(d, p).affected <==> Reached(p, b) {
      AffectedByIdentifier(d, p, b);
      ReachedIff(p, b);
    }
    hide Reached, SetsState, ScopeOf;
  }

  /** A patch that sets state reaches the block with that identifier. */
  ghost predicate Related(d: Document, p: Patch, id: string) {
    SetsState(p) ==> id in ScopeOf(d, p).affected
  }

  /** The error of a replacement or a removal, check by check. */
  lemma {:induction false} RewriteRefusal(h: Hashing, d: Document, p: Patch, k: nat, id: string)
    requires Distinct(BlockIds(d.blocks)) && k < |p.operations| && Rewrites(p.operations[k], id)
    ensures var op := p.operations[k];
            Refusal(h, ScopeOf(d, p), Opened(d), p.operations, k)
              == if !HasBlock(d, id) then Some(UnknownBlock(id))
                 else if !AtRevision(d, id, op.expectedBlockRevision) then Some(BlockRevisionChanged(id))
                 else if op.ReplaceBlock? && op.block.revision != op.expectedBlockRevision + 1
                 then Some(BadRevisionStep(id))
                 else if !Related(d, p, id) then Some(UnrelatedBlock(id))
                 else if op.ReplaceBlock? && op.block.contentHash != BlockContentHash(h, op.block)
                 then Some(HashMismatch(id))
                 else None
  {
    var op := p.operations[k];
    Revisions(d, id, op.expectedBlockRevision);
    SetsStateIff(p);
    hide Opened, HasBlock, AtRevision, SetsState, BlockContentHash, BlockIds, AffectedIds;
  }

  lemma {:induction false} Relation(d: Document, p: Patch, id: string, revision: nat)
    requires Distinct(BlockIds(d.blocks)) && HasBlock(d, id)
    ensures Related(d, p, id) <==> !(SetsState(p) && forall b :: b in d.blocks && b.id == id ==> !Reached(p, b))
    ensures Rewritable(d, p, id, revision) <==> AtRevision(d, id, revision) && Related(d, p, id)
  {
    ReachedBlock(d, p, id);
    RewritableIff(d, p, id, revision);
    Revisions(d, id, revision);
    hide ScopeOf, Opened, HasBlock, AtRevision, Rewritable, Reached, SetsState, BlockIds;
  }

  lemma {:induction false} ReplaceReason(h: Hashing, d: Document, p: Patch, k: nat, error: PatchError)
    requires Distinct(BlockIds(d.blocks)) && k < |p.operations| && p.operations[k].ReplaceBlock?
    ensures Refusal(h, ScopeOf(d, p), Opened(d), p.operations, k) == Some(error) <==> Reason(h, d, p, k, error)
  {
    var op := p.operations[k];
    RewriteRefusal(h, d, p, k, op.block.id);
    Revisions(d, op.block.id, op.expectedBlockRevision);
    if HasBlock(d, op.block.id) {
      Relation(d, p, op.block.id, op.expectedBlockRevision);
    }
    RewritableIff(d, p, op.block.id, op.expectedBlockRevision);
    hide Refusal, ScopeOf, Opened, HasBlock, AtRevision, Rewritable, Related, Reached, SetsState, BlockContentHash;
    hide BlockIds, AnchorThere, StateValueHash;
  }

  lemma {:induction false} RemoveReason(h: Hashing, d: Document, p: Patch, k: nat, error: PatchError)
    requires Distinct(BlockIds(d.blocks)) && k < |p.operations| && p.operations[k].RemoveBlock?
    ensures Refusal(h, ScopeOf(d, p), Opened(d), p.operations, k) == Some(error) <==> Reason(h, d, p, k, error)
  {
    var op := p.operations[k];
    RewriteRefusal(h, d, p, k, op.blockId);
    Revisions(d, op.blockId, op.expectedBlockRevision);
    if HasBlock(d, op.blockId) {
      Relation(d, p, op.blockId, op.expectedBlockRevision);
    }
    hide Refusal, ScopeOf, Opened, HasBlock, AtRevision, Rewritable, Related, Reached, SetsState, BlockContentHash;
    hide BlockIds, AnchorThere, StateValueHash;
  }

  /** The error of an insertion, check by check. */
  lemma {:induction false} AddRefusal(h: Hashing, d: Document, p: Patch, k: nat)
    requires Distinct(BlockIds(d.blocks)) && k < |p.operations| && p.operations[k].AddBlock?
    ensures var block, anchor := p.operations[k].block, p.operations[k].afterBlockId;
            Refusal(h, ScopeOf(d, p), Opened(d), p.operations, k)
              == if HasBlock(d, block.id) then Some(BlockExists(block.id))
                 else if block.revision != 0 then Some(NewBlockRevision(block.id))
                 else if block.contentHash != BlockContentHash(h, block) then Some(HashMismatch(block.id))
                 else if anchor.Some? && !AnchorThere(d, p, k, anchor.value) then Some(BadAnchor(anchor.value))
                 else None
  {
    var op := p.operations[k];
    OpenedBlock(d, op.block.id);
    if op.afterBlockId.Some? {
      AnchorIff(d, p, k);
    } else {
      assert AnchorOk(Opened(d).order, p.operations, k);
    }
    hide AnchorOk, AnchorThere, ScopeOf, Opened, HasBlock, BlockContentHash, BlockIds;
  }

  lemma {:induction false} AddReason(h: Hashing, d: Document, p: Patch, k: nat, error: PatchError)
    requires Distinct(BlockIds(d.blocks)) && k < |p.operations| && p.operations[k].AddBlock?
    ensures Refusal(h, ScopeOf(d, p), Opened(d), p.operations, k) == Some(error) <==> Reason(h, d, p, k, error)
  {
    AddRefusal(h, d, p, k);
    hide Refusal, AnchorThere, ScopeOf, Opened, HasBlock, BlockContentHash, BlockIds, StateValueHash, Current;
  }

  lemma {:induction false} AnchorIff(d: Document, p: Patch, k: nat)
    requires Distinct(BlockIds(d.blocks)) && k < |p.operations|
    requires p.operations[k].AddBlock? && p.operations[k].afterBlockId.Some?
    ensures AnchorOk(Opened(d).order, p.operations, k)
            <==> AnchorThere(d, p, k, p.operations[k].afterBlockId.value)
  {
    OpenedBlock(d, p.operations[k].afterBlockId.value);
    hide Opened, HasBlock;
  }

  // ------------------------------------------------------------------- whole patches

  /** A patch that passes the checks before its operations is refused for the first operation that is not in
      order, with the reason that operation gives; and when all are in order, for leaving no block or more
      than a thousand. */
  lemma {:induction false} RefusedFor(h: Hashing, d: Document, p: Patch)
    requires Preflight(h, d, p) == None
    ensures var count := |d.blocks| + Added(p.operations) - Removed(p.operations);
      if forall k :: 0 <= k < |p.operations| ==> InOrder(h, d, p, k) then
        && (count == 0 ==> Apply(h, d, p) == Err(EmptyDocument))
        && (count > 1_000 ==> Apply(h, d, p) == Err(InvalidDocument))
        && (1 <= count <= 1_000 ==> Apply(h, d, p).Ok?)
      else
        exists k, error ::
          && 0 <= k < |p.operations| && !InOrder(h, d, p, k) && (forall j :: 0 <= j < k ==> InOrder(h, d, p, j))
          && Reason(h, d, p, k, error) && Apply(h, d, p) == Err(error)
  {
    OpenedAgreesWhenShaped(d);
    UniquenessIsDistinctTargets(p.operations);
    RunsIff(h, ScopeOf(d, p), Opened(d), p.operations);
    forall k | 0 <= k < |p.operations|
      ensures OperationOk(h, ScopeOf(d, p), Opened(d), p.operations, k) <==> InOrder(h, d, p, k)
    {
      InOrderIff(h, d, p, k);
    }
    if n :| 0 <= n < |p.operations| && !InOrder(h, d, p, n) {
      RefusedForOperation(h, d, p, n);
    } else {
      RefusedForCount(h, d, p);
    }
  }

  lemma {:induction false} RefusedForOperation(h: Hashing, d: Document, p: Patch, n: nat)
    requires Preflight(h, d, p) == None && n < |p.operations| && !InOrder(h, d, p, n)
    ensures exists k, error ::
              && 0 <= k < |p.operations| && !InOrder(h, d, p, k) && (forall j :: 0 <= j < k ==> InOrder(h, d, p, j))
              && Reason(h, d, p, k, error) && Apply(h, d, p) == Err(error)
  {
    OpenedAgreesWhenShaped(d);
    UniquenessIsDistinctTargets(p.operations);
    hide DocumentShape, PatchShape, FirstBadHash, Missing, ScopeOf, Opened, StatePaths, TargetIds;
    hide InOrder, Run, Reason, DistinctTargets;
    var k, error := FirstReason(h, d, p, n);
  }

  lemma {:induction false} FirstReason(h: Hashing, d: Document, p: Patch, n: nat)
    returns (k: nat, error: PatchError)
    requires Distinct(BlockIds(d.blocks)) && DistinctTargets(p.operations)
    requires n < |p.operations| && !InOrder(h, d, p, n)
    ensures k < |p.operations| && !InOrder(h, d, p, k) && forall j :: 0 <= j < k ==> InOrder(h, d, p, j)
    ensures Reason(h, d, p, k, error) && Run(h, ScopeOf(d, p), Opened(d), p.operations) == Err(error)
  {
    var scope, w, ops := ScopeOf(d, p), Opened(d), p.operations;
    hide ScopeOf, Opened, BlockIds, DistinctTargets, OperationOk, InOrder, Refusal, Run, Reason;
    forall k | 0 <= k < |ops| ensures InOrder(h, d, p, k) <==> Refusal(h, scope, w, ops, k) == None {
      InOrderIff(h, d, p, k);
      RefusalIff(h, scope, w, ops, k);
    }
    k := SomeFirst(h, scope, w, ops, n);
    FailsWithFirst(h, scope, w, ops, k);
    error := Refusal(h, scope, w, ops, k).value;
    ReasonIff(h, d, p, k, error);
  }

  lemma {:induction false} RefusedForCount(h: Hashing, d: Document, p: Patch)
    requires Preflight(h, d, p) == None && Run(h, ScopeOf(d, p), Opened(d), p.operations).Ok?
    ensures var count := |d.blocks| + Added(p.operations) - Removed(p.operations);
            && (count == 0 ==> Apply(h, d, p) == Err(EmptyDocument))
            && (count > 1_000 ==> Apply(h, d, p) == Err(InvalidDocument))
            && (1 <= count <= 1_000 ==> Apply(h, d, p).Ok?)
  {
    OpenedAgreesWhenShaped(d);
    RunCounts(h, ScopeOf(d, p), Opened(d), p.operations);
    var order := FinalWork(h, d, p).value.order;
    if order != [] {
      ClosingCheckOnlyCounts(h, d, p);
    }
    hide DocumentShape, PatchShape, FirstBadHash, Missing, ScopeOf, StatePaths, TargetIds, Run;
  }
}
