/** Which patches are accepted, said without running them: every operation is judged against
    the document as it was before the patch. */
module AnswerAcceptance {
  import opened Sequences
  import opened AnswerDocument
  import opened AnswerReordering
  import opened AnswerLaws
  import opened CanonicalJson
  import SemanticPath

  /** What an operation demands of the path or block that it changes. */
  predicate TargetOk(h: Hashing, scope: Scope, w: Work, op: Operation) {
    match op
    case SetState(path, _, expected, _) =>
      expected.Some? ==> expected.value == StateValueHash(h, ReadState(w.state, path))
    case ReplaceBlock(block, expected) =>
      && block.id in w.blocks && w.blocks[block.id].revision == expected && block.revision == expected + 1
      && (scope.setsState ==> block.id in scope.affected) && HashOk(h, block)
    case AddBlock(block, _) => block.id !in w.blocks && block.revision == 0 && HashOk(h, block)
    case RemoveBlock(id, expected) =>
      && id in w.blocks && w.blocks[id].revision == expected
      && (scope.setsState ==> id in scope.affected)
  }

  ghost predicate AddedBefore(ops: seq<Operation>, k: nat, id: string)
    requires k <= |ops|
  {
    exists j :: 0 <= j < k && ops[j].AddBlock? && ops[j].block.id == id
  }

  ghost predicate RemovedBefore(ops: seq<Operation>, k: nat, id: string)
    requires k <= |ops|
  {
    exists j :: 0 <= j < k && ops[j].RemoveBlock? && ops[j].blockId == id
  }

  /** The anchor of the `k`-th operation, if it has one, was there from the start and has not been
      removed yet, or is a block that the patch has added before. */
  ghost predicate AnchorOk(order: seq<string>, ops: seq<Operation>, k: nat)
    requires k < |ops|
  {
    ops[k].AddBlock? && ops[k].afterBlockId.Some? ==>
      var anchor := ops[k].afterBlockId.value;
      (anchor in order && !RemovedBefore(ops, k, anchor)) || AddedBefore(ops, k, anchor)
  }

  ghost predicate OperationOk(h: Hashing, scope: Scope, w: Work, ops: seq<Operation>, k: nat)
    requires k < |ops|
  {
    TargetOk(h, scope, w, ops[k]) && AnchorOk(w.order, ops, k)
  }

  lemma {:induction false} CheckIsLocal(h: Hashing, scope: Scope, w: Work, ops: seq<Operation>)
    requires ops != []
    ensures Check(h, scope, w, ops[0]) == None <==> OperationOk(h, scope, w, ops, 0)
  {
  }

  lemma {:induction false} OrderMember(h: Hashing, scope: Scope, w: Work, op: Operation, x: string)
    requires Check(h, scope, w, op) == None
    ensures x in Effect(w, op).order <==>
            if op.AddBlock? then x in w.order || x == op.block.id
            else if op.RemoveBlock? then x in w.order && x != op.blockId
            else x in w.order
  {
    hide IndexOf, Without;
    match op
    case AddBlock(block, anchor) =>
      var k := if anchor.None? then -1 else IndexOf(w.order, anchor.value);
      assert w.order == w.order[..k + 1] + w.order[k + 1..];
    case RemoveBlock(id, _) => WithoutMember(w.order, id, x);
    case _ =>
  }

  /** An operation on another target does not change what the rest demands of its own targets. */
  lemma {:induction false} TargetUnaffected(h: Hashing, scope: Scope, w: Work, a: Operation, b: Operation)
    requires !SameTarget(a, b)
    ensures TargetOk(h, scope, Effect(w, a), b) <==> TargetOk(h, scope, w, b)
  {
    hide StateValueHash, HashOk, InsertAfter, Without;
  }

  lemma {:induction false} AnchorUnaffected(h: Hashing, scope: Scope, w: Work, ops: seq<Operation>, k: nat)
    requires DistinctTargets(ops) && 0 < k < |ops| && Check(h, scope, w, ops[0]) == None
    ensures AnchorOk(w.order, ops, k) <==> AnchorOk(Effect(w, ops[0]).order, ops[1..], k - 1)
  {
    hide Check, Effect;
    var rest := ops[1..];
    if ops[k].AddBlock? && ops[k].afterBlockId.Some? {
      var anchor := ops[k].afterBlockId.value;
      OrderMember(h, scope, w, ops[0], anchor);
      BeforeInRest(ops, k, anchor);
      if Target(ops[0]) == Some(anchor) {
        forall j | 0 < j < k ensures Target(ops[j]) != Some(anchor) {
          assert !SameTarget(ops[0], ops[j]);
        }
      }
    }
  }

  lemma {:induction false} BeforeInRest(ops: seq<Operation>, k: nat, id: string)
    requires 0 < k <= |ops|
    ensures AddedBefore(ops, k, id) <==> (ops[0].AddBlock? && ops[0].block.id == id) || AddedBefore(ops[1..], k - 1, id)
    ensures RemovedBefore(ops, k, id)
            <==> (ops[0].RemoveBlock? && ops[0].blockId == id) || RemovedBefore(ops[1..], k - 1, id)
  {
    assert forall j :: 0 < j < |ops| ==> ops[j] == ops[1..][j - 1];
    assert forall j :: 0 <= j < |ops| - 1 ==> ops[1..][j] == ops[j + 1];
  }

  /** Operations with distinct targets go through exactly when each is in order by itself. */
  lemma {:induction false} RunsIff(h: Hashing, scope: Scope, w: Work, ops: seq<Operation>)
    requires DistinctTargets(ops)
    ensures Run(h, scope, w, ops).Ok? <==> forall k :: 0 <= k < |ops| ==> OperationOk(h, scope, w, ops, k)
    decreases |ops|
  {
    hide Check, Effect, TargetOk, AnchorOk, SameTarget;
    if ops != [] {
      var rest := ops[1..];
      CheckIsLocal(h, scope, w, ops);
      if Check(h, scope, w, ops[0]) == None {
        var after := Effect(w, ops[0]);
        forall k | 0 < k < |ops|
          ensures OperationOk(h, scope, w, ops, k) <==> OperationOk(h, scope, after, rest, k - 1)
        {
          assert ops[k] == rest[k - 1];
          TargetUnaffected(h, scope, w, ops[0], ops[k]);
          AnchorUnaffected(h, scope, w, ops, k);
        }
        RunsIff(h, scope, after, rest);
        assert forall k :: 0 <= k < |rest| ==>
          (OperationOk(h, scope, w, ops, k + 1) <==> OperationOk(h, scope, after, rest, k));
      }
    }
  }

  // ------------------------------------------------------------------ block count

  function Added(ops: seq<Operation>): nat {
    if ops == [] then 0 else (if ops[0].AddBlock? then 1 else 0) + Added(ops[1..])
  }

  function Removed(ops: seq<Operation>): nat {
    if ops == [] then 0 else (if ops[0].RemoveBlock? then 1 else 0) + Removed(ops[1..])
  }

  lemma {:induction false} WithoutLength(order: seq<string>, id: string)
    requires Distinct(order) && id in order
    ensures |Without(order, id)| == |order| - 1
  {
    WithoutKeepsDistinct(order, id);
    DistinctBySize(order);
    DistinctBySize(Without(order, id));
  }

  /** Blocks are neither lost nor gained other than by removals and insertions. */
  lemma {:induction false} RunCounts(h: Hashing, scope: Scope, w: Work, ops: seq<Operation>)
    requires Agree(w) && Run(h, scope, w, ops).Ok?
    ensures |Run(h, scope, w, ops).value.order| == |w.order| + Added(ops) - Removed(ops)
    decreases |ops|
  {
    hide Agree;
    if ops != [] {
      EffectKeepsAgreement(h, scope, w, ops[0]);
      EffectCounts(h, scope, w, ops[0]);
      hide Check, Effect;
      RunCounts(h, scope, Effect(w, ops[0]), ops[1..]);
    }
  }

  lemma {:induction false} EffectCounts(h: Hashing, scope: Scope, w: Work, op: Operation)
    requires Agree(w) && Check(h, scope, w, op) == None
    ensures |Effect(w, op).order| == |w.order| + (if op.AddBlock? then 1 else 0) - (if op.RemoveBlock? then 1 else 0)
  {
    hide Without, IndexOf;
    if op.RemoveBlock? {
      assert op.blockId in Elements(w.order);
      WithoutLength(w.order, op.blockId);
    }
  }

  // ------------------------------------------------------------------ acceptance

  lemma {:induction false} NothingMissing(d: Document, p: Patch)
    requires Distinct(BlockIds(d.blocks))
    ensures Missing(d, p) == [] <==>
            forall b :: b in d.blocks && Depends(b, StatePaths(p.operations)) ==> b.id in TargetIds(p.operations)
  {
    hide Depends, TargetIds, StatePaths;
    var affected, changed := ScopeOf(d, p).affected, Elements(TargetIds(p.operations));
    var lost := (id: string) => id in affected && id !in changed;
    forall b | b in d.blocks
      ensures b.id in Missing(d, p) <==> Depends(b, StatePaths(p.operations)) && b.id !in TargetIds(p.operations)
    {
      AffectedByIdentifier(d, p, b);
      FilterMember(lost, BlockIds(d.blocks), b.id);
      var i :| 0 <= i < |d.blocks| && d.blocks[i] == b;
      assert BlockIds(d.blocks)[i] == b.id;
    }
    if Missing(d, p) != [] {
      var id := Missing(d, p)[0];
      FilterMember(lost, BlockIds(d.blocks), id);
      var i :| 0 <= i < |d.blocks| && BlockIds(d.blocks)[i] == id;
      assert d.blocks[i] in d.blocks;
    }
  }

  /** What the author of a patch has to get right, judged on the document before the patch. */
  ghost predicate Acceptable(h: Hashing, d: Document, p: Patch) {
    && DocumentShape(d) && PatchShape(p)
    && p.documentId == d.id && p.baseRevision == d.revision
    && (forall b :: b in d.blocks ==> HashOk(h, b))
    && (forall b :: b in d.blocks && Depends(b, StatePaths(p.operations)) ==> b.id in TargetIds(p.operations))
    && (forall k :: 0 <= k < |p.operations| ==> OperationOk(h, ScopeOf(d, p), Opened(d), p.operations, k))
    && 1 <= |d.blocks| + Added(p.operations) - Removed(p.operations) <= MAX_BLOCKS
  }

  /** A patch is accepted exactly when it is acceptable on the document before it. */
  lemma {:induction false} AcceptedIff(h: Hashing, d: Document, p: Patch)
    ensures Apply(h, d, p).Ok? <==> Acceptable(h, d, p)
  {
    hide Depends, TargetOk, AnchorOk, OperationOk, Run, BlockShape, OperationShape, HashOk, Missing, FirstBadHash;
    if DocumentShape(d) && PatchShape(p) {
      OpenedAgreesWhenShaped(d);
      NothingMissing(d, p);
      NoBadHash(h, d.blocks);
      UniquenessIsDistinctTargets(p.operations);
      RunsIff(h, ScopeOf(d, p), Opened(d), p.operations);
      if Preflight(h, d, p) == None && FinalWork(h, d, p).Ok? {
        RunCounts(h, ScopeOf(d, p), Opened(d), p.operations);
        if FinalWork(h, d, p).value.order != [] {
          ClosingCheckOnlyCounts(h, d, p);
        }
      }
    }
  }

  // ------------------------------------------------------------ inherited names

  /** The schema lets every inherited name through as a path. */
  lemma {:induction false} InheritedIsValid(path: string)
    requires path in INHERITED
    ensures SemanticPath.Valid(path)
  {
    SemanticPath.SegmentIsValid(path);
  }

  /** No patch can set an absent path of an inherited name while expecting it to be absent. */
  lemma {:induction false} InheritedAbsenceIsRefused(h: Hashing, d: Document, p: Patch, k: nat)
    requires TotalOrder(h.le) && Injective(h.sha256)
    requires k < |p.operations| && p.operations[k].SetState? && p.operations[k].path in INHERITED
    requires p.operations[k].path !in d.state
    requires p.operations[k].expectedValueHash == Some(StateValueHash(h, None))
    ensures Apply(h, d, p).Err?
  {
    hide StateValueHash, TotalOrder, Depends, AnchorOk, BlockShape, HashOk;
    AcceptedIff(h, d, p);
    ExpectedAbsence(h, d.state, p.operations[k].path);
    assert !OperationOk(h, ScopeOf(d, p), Opened(d), p.operations, k);
  }

  /** A document with one block, and a patch that sets `path` if it is absent. */
  function OneBlock(h: Hashing): Document {
    var b := Block("answer", SUMMARY, JNull, 0, "", [], [], []);
    Document("document", 0, "ANSWER", map[], map[], [b.(contentHash := BlockContentHash(h, b))], map[])
  }

  function SetIfAbsent(h: Hashing, path: string): Patch {
    var provenance := Provenance("USER_INPUT", "source", None, None, false, []);
    Patch("document", 0, [SetState(path, JNull, Some(StateValueHash(h, None)), [provenance])], map[])
  }

  lemma {:induction false} SetIfAbsentIsShaped(h: Hashing, path: string)
    requires SemanticPath.Valid(path)
    ensures var p := SetIfAbsent(h, path);
            && PatchShape(p) && StatePaths(p.operations) == [path] && TargetIds(p.operations) == []
            && Added(p.operations) == 0 && Removed(p.operations) == 0
  {
    hide StateValueHash, SemanticPath.Valid;
    var p := SetIfAbsent(h, path);
    assert p.operations[1..] == [];
    assert StatePaths([]) == [] && TargetIds([]) == [];
    assert StatePaths(p.operations) == [path] && TargetIds(p.operations) == [];
    assert OperationShape(p.operations[0]);
  }

  lemma {:induction false} SetIfAbsentPreflight(h: Hashing, path: string)
    requires SemanticPath.Valid(path)
    ensures Preflight(h, OneBlock(h), SetIfAbsent(h, path)) == None
  {
    var d, p := OneBlock(h), SetIfAbsent(h, path);
    SetIfAbsentIsShaped(h, path);
    OneBlockIsShaped(h);
    NoBadHash(h, d.blocks);
    NothingMissing(d, p);
    hide DocumentShape, PatchShape, HashOk, Missing, FirstBadHash, StateValueHash, BlockContentHash;
    assert p.documentId == d.id && p.baseRevision == d.revision;
  }

  lemma {:induction false} SetIfAbsentCheck(h: Hashing, scope: Scope, w: Work, path: string)
    requires TotalOrder(h.le) && Injective(h.sha256) && w.state == map[]
    ensures Check(h, scope, w, SetIfAbsent(h, path).operations[0])
         == if path in INHERITED then Some(StateChanged(path)) else None
  {
    ExpectedAbsence(h, w.state, path);
    hide TotalOrder, StateValueHash, ReadState;
  }

  lemma {:induction false} OneOperation(h: Hashing, scope: Scope, w: Work, ops: seq<Operation>)
    requires |ops| == 1
    ensures Run(h, scope, w, ops) ==
      match Check(h, scope, w, ops[0])
      case Some(error) => Err(error)
      case None => Ok(Effect(w, ops[0]))
  {
    assert ops[1..] == [];
    assert Run(h, scope, Effect(w, ops[0]), ops[1..]) == Ok(Effect(w, ops[0]));
  }

  /** On such a document the patch is in order for every valid path, but it is refused for exactly
      those that are inherited. */
  lemma {:induction false} SetIfAbsentIff(h: Hashing, path: string)
    requires TotalOrder(h.le) && Injective(h.sha256) && SemanticPath.Valid(path)
    ensures Preflight(h, OneBlock(h), SetIfAbsent(h, path)) == None && path !in OneBlock(h).state
    ensures Apply(h, OneBlock(h), SetIfAbsent(h, path)).Ok? <==> path !in INHERITED
    ensures path in INHERITED ==> Apply(h, OneBlock(h), SetIfAbsent(h, path)) == Err(StateChanged(path))
  {
    var d, p := OneBlock(h), SetIfAbsent(h, path);
    var scope, w := ScopeOf(d, p), Opened(d);
    SetIfAbsentPreflight(h, path);
    SetIfAbsentCheck(h, scope, w, path);
    assert w.order == ["answer"];
    hide TotalOrder, Preflight, Check, BlockMap;
    OneOperation(h, scope, w, p.operations);
    assert FinalWork(h, d, p) == if path in INHERITED then Err(StateChanged(path)) else Ok(Effect(w, p.operations[0]));
    if path !in INHERITED {
      ClosingCheckOnlyCounts(h, d, p);
    }
  }

  lemma {:induction false} OneBlockIsShaped(h: Hashing)
    ensures DocumentShape(OneBlock(h)) && HashOk(h, OneBlock(h).blocks[0])
    ensures OneBlock(h).blocks[0].dependsOn == []
  {
    hide BlockContentHash;
    SemanticPath.SegmentIsValid("answer");
    var b := Block("answer", SUMMARY, JNull, 0, "", [], [], []);
    assert HashedBlock(b) == HashedBlock(OneBlock(h).blocks[0]);
    assert BlockContentHash(h, b) == BlockContentHash(h, OneBlock(h).blocks[0]) by {
      SameHashed(h, b, OneBlock(h).blocks[0]);
    }
  }

  lemma {:induction false} SameHashed(h: Hashing, a: Block, b: Block)
    requires HashedBlock(a) == HashedBlock(b)
    ensures BlockContentHash(h, a) == BlockContentHash(h, b)
  {
  }
}
