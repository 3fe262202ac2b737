/** What an accepted patch, and a run of patches, does to a document. */
module AnswerLaws {
  import opened Sequences
  import opened CanonicalJson
  import JsonText
  import SemanticPath
  import opened AnswerDocument
  import opened AnswerReordering

  // ---------------------------------------------------- one block, one patch

  ghost predicate SameAt(a: Work, b: Work, id: string) {
    (id in a.blocks <==> id in b.blocks) && (id in a.blocks ==> a.blocks[id] == b.blocks[id])
  }

  /** What it means that `op` was carried out on its block, from `a` to `b`. */
  ghost predicate CarriedOut(scope: Scope, a: Work, b: Work, op: Operation) {
    match op
    case SetState(path, value, _, provenance) =>
      path in b.state && b.state[path] == value && path in b.provenance && b.provenance[path] == provenance
    case ReplaceBlock(block, expected) =>
      && block.id in a.blocks && a.blocks[block.id].revision == expected && block.revision == expected + 1
      && block.id in b.blocks && b.blocks[block.id] == block
      && (scope.setsState ==> block.id in scope.affected)
    case AddBlock(block, _) =>
      block.id !in a.blocks && block.revision == 0 && block.id in b.blocks && b.blocks[block.id] == block
    case RemoveBlock(id, expected) =>
      && id in a.blocks && a.blocks[id].revision == expected && id !in b.blocks
      && (scope.setsState ==> id in scope.affected)
  }

  lemma {:induction false} StepFrame(w: Work, op: Operation, id: string)
    requires Target(op) != Some(id)
    ensures SameAt(w, Effect(w, op), id)
  {
  }

  /** Blocks that no operation targets are left as they are. */
  lemma {:induction false} RunFrame(h: Hashing, scope: Scope, w: Work, ops: seq<Operation>, id: string)
    requires Run(h, scope, w, ops).Ok?
    requires forall i :: 0 <= i < |ops| ==> Target(ops[i]) != Some(id)
    ensures SameAt(w, Run(h, scope, w, ops).value, id)
    decreases |ops|
  {
    if ops != [] {
      StepFrame(w, ops[0], id);
      RunFrame(h, scope, Effect(w, ops[0]), ops[1..], id);
    }
  }

  /** Paths that no operation sets are left as they are. */
  lemma {:induction false} RunStateFrame(h: Hashing, scope: Scope, w: Work, ops: seq<Operation>, path: string)
    requires Run(h, scope, w, ops).Ok?
    requires forall i :: 0 <= i < |ops| ==> !(ops[i].SetState? && ops[i].path == path)
    ensures var r := Run(h, scope, w, ops).value;
            && ReadState(r.state, path) == ReadState(w.state, path)
            && (path in r.state <==> path in w.state)
            && (path in r.provenance <==> path in w.provenance)
            && (path in w.provenance ==> r.provenance[path] == w.provenance[path])
    decreases |ops|
  {
    hide Check;
    if ops != [] && Check(h, scope, w, ops[0]) == None {
      RunStateFrame(h, scope, Effect(w, ops[0]), ops[1..], path);
    }
  }

  lemma {:induction false} StepCarriesOut(h: Hashing, scope: Scope, w: Work, op: Operation)
    requires Check(h, scope, w, op) == None
    ensures CarriedOut(scope, w, Effect(w, op), op)
  {
  }

  lemma {:induction false} CarriedOutBefore(scope: Scope, a: Work, b: Work, c: Work, op: Operation)
    requires CarriedOut(scope, b, c, op)
    requires Target(op).Some? ==> SameAt(a, b, Target(op).value)
    ensures CarriedOut(scope, a, c, op)
  {
  }

  lemma {:induction false} CarriedOutAfter(scope: Scope, a: Work, b: Work, c: Work, op: Operation)
    requires CarriedOut(scope, a, b, op)
    requires Target(op).Some? ==> SameAt(b, c, Target(op).value)
    requires op.SetState? ==>
      && op.path in c.state && c.state[op.path] == b.state[op.path]
      && op.path in c.provenance && c.provenance[op.path] == b.provenance[op.path]
    ensures CarriedOut(scope, a, c, op)
  {
  }

  lemma {:induction false} FirstStays(h: Hashing, scope: Scope, w: Work, ops: seq<Operation>)
    requires ops != [] && DistinctTargets(ops)
    requires Run(h, scope, w, ops).Ok?
    ensures CarriedOut(scope, w, Run(h, scope, w, ops).value, ops[0])
  {
    hide CarriedOut, Check, Effect;
    var op, rest := ops[0], ops[1..];
    var mid, last := Effect(w, op), Run(h, scope, w, ops).value;
    StepCarriesOut(h, scope, w, op);
    assert forall i :: 0 <= i < |rest| ==> rest[i] == ops[i + 1] && !SameTarget(op, ops[i + 1]);
    if Target(op).Some? {
      RunFrame(h, scope, mid, rest, Target(op).value);
    } else {
      SetIsFiled(scope, w, mid, op);
      RunStateFrame(h, scope, mid, rest, op.path);
    }
    CarriedOutAfter(scope, w, mid, last, op);
  }

  lemma {:induction false} SetIsFiled(scope: Scope, w: Work, mid: Work, op: Operation)
    requires op.SetState? && CarriedOut(scope, w, mid, op)
    ensures op.path in mid.state && op.path in mid.provenance
  {
  }

  /** With distinct targets every operation of an accepted run is carried out, measured
      against the first and the last working copy. */
  lemma {:induction false} AllCarriedOut(h: Hashing, scope: Scope, w: Work, ops: seq<Operation>, k: nat)
    requires DistinctTargets(ops) && k < |ops| && Run(h, scope, w, ops).Ok?
    ensures CarriedOut(scope, w, Run(h, scope, w, ops).value, ops[k])
    decreases |ops|
  {
    hide CarriedOut, Check, Effect, SameAt, SameTarget;
    if k == 0 {
      FirstStays(h, scope, w, ops);
    } else {
      var rest := ops[1..];
      assert forall i :: 0 <= i < |rest| ==> rest[i] == ops[i + 1];
      assert !SameTarget(ops[0], ops[k]);
      AllCarriedOut(h, scope, Effect(w, ops[0]), rest, k - 1);
      TargetsDiffer(ops[0], ops[k]);
      if Target(ops[k]).Some? {
        StepFrame(w, ops[0], Target(ops[k]).value);
      }
      CarriedOutBefore(scope, w, Effect(w, ops[0]), Run(h, scope, w, ops).value, ops[k]);
    }
  }

  lemma {:induction false} TargetsDiffer(a: Operation, b: Operation)
    requires !SameTarget(a, b)
    ensures Target(b).Some? ==> Target(a) != Target(b)
  {
  }

  // --------------------------------------------------------- accepted patches

  ghost predicate Accepted(h: Hashing, d: Document, p: Patch, r: Document) {
    Apply(h, d, p) == Ok(r)
  }

  function FinalWork(h: Hashing, d: Document, p: Patch): Result<Work, PatchError> {
    Run(h, ScopeOf(d, p), Opened(d), p.operations)
  }

  /** Everything acceptance says about the working copy. */
  lemma {:induction false} AcceptedWork(h: Hashing, d: Document, p: Patch, r: Document)
    requires Accepted(h, d, p, r)
    ensures DocumentShape(d) && PatchShape(p) && DocumentShape(r) && DistinctTargets(p.operations)
    ensures Missing(d, p) == [] && FirstBadHash(h, d.blocks) == None
    ensures p.documentId == d.id && p.baseRevision == d.revision
    ensures Agree(Opened(d)) && FinalWork(h, d, p).Ok? && Agree(FinalWork(h, d, p).value)
    ensures r == Closed(d, p, FinalWork(h, d, p).value)
  {
    hide DocumentShape, FirstBadHash, Missing;
    OpenedAgreesWhenShaped(d);
    RunKeepsAgreement(h, ScopeOf(d, p), Opened(d), p.operations);
    UniquenessIsDistinctTargets(p.operations);
  }

  lemma {:induction false} OpenedHolds(d: Document, b: Block)
    requires Distinct(BlockIds(d.blocks))
    ensures b in d.blocks <==> b.id in Opened(d).blocks && Opened(d).blocks[b.id] == b
  {
    BlockMapKeys(d.blocks);
    if b in d.blocks {
      var i :| 0 <= i < |d.blocks| && d.blocks[i] == b;
      BlockMapHolds(d.blocks, i);
    }
    if b.id in Opened(d).blocks && Opened(d).blocks[b.id] == b {
      assert b.id in Elements(BlockIds(d.blocks));
      var i :| 0 <= i < |d.blocks| && BlockIds(d.blocks)[i] == b.id;
      BlockMapHolds(d.blocks, i);
    }
  }

  lemma {:induction false} ListedHolds(w: Work, b: Block)
    requires Agree(w)
    ensures b in Listed(w) <==> b.id in w.blocks && w.blocks[b.id] == b
  {
    if b in Listed(w) {
      var i :| 0 <= i < |w.order| && Listed(w)[i] == b;
      assert w.order[i] in w.blocks;
    }
    if b.id in w.blocks && w.blocks[b.id] == b {
      assert b.id in Elements(w.order);
      var i :| 0 <= i < |w.order| && w.order[i] == b.id;
      assert Listed(w)[i] == b;
    }
  }

  /** The identifiers of the result are the final order, without repetition. */
  lemma {:induction false} ResultOrder(h: Hashing, d: Document, p: Patch, r: Document)
    requires Accepted(h, d, p, r)
    ensures FinalWork(h, d, p).Ok?
    ensures BlockIds(r.blocks) == FinalWork(h, d, p).value.order && Distinct(BlockIds(r.blocks))
  {
    hide DocumentShape, PatchShape, Missing, FirstBadHash, DistinctTargets, Accepted;
    AcceptedWork(h, d, p, r);
    var w := FinalWork(h, d, p).value;
    forall i | 0 <= i < |w.order| ensures BlockIds(r.blocks)[i] == w.order[i] {
      assert w.order[i] in w.blocks;
    }
  }

  lemma {:induction false} StepKeepsShapes(h: Hashing, scope: Scope, w: Work, op: Operation)
    requires Check(h, scope, w, op) == None && OperationShape(op)
    requires forall id :: id in w.blocks ==> BlockShape(w.blocks[id])
    requires forall path :: path in w.state ==> SemanticPath.Valid(path)
    ensures forall id :: id in Effect(w, op).blocks ==> BlockShape(Effect(w, op).blocks[id])
    ensures forall path :: path in Effect(w, op).state ==> SemanticPath.Valid(path)
  {
    hide BlockShape, Check;
  }

  lemma {:induction false} RunKeepsShapes(h: Hashing, scope: Scope, w: Work, ops: seq<Operation>)
    requires Run(h, scope, w, ops).Ok?
    requires forall i :: 0 <= i < |ops| ==> OperationShape(ops[i])
    requires forall id :: id in w.blocks ==> BlockShape(w.blocks[id])
    requires forall path :: path in w.state ==> SemanticPath.Valid(path)
    ensures var r := Run(h, scope, w, ops).value;
            && (forall id :: id in r.blocks ==> BlockShape(r.blocks[id]))
            && (forall path :: path in r.state ==> SemanticPath.Valid(path))
    decreases |ops|
  {
    hide BlockShape, Check, Effect, OperationShape;
    if ops != [] {
      StepKeepsShapes(h, scope, w, ops[0]);
      RunKeepsShapes(h, scope, Effect(w, ops[0]), ops[1..]);
    }
  }

  /** Once every operation has gone through and a block is left, the closing schema check can
      fail for one reason only: more blocks than a document may hold. */
  lemma {:induction false} ClosingCheckOnlyCounts(h: Hashing, d: Document, p: Patch)
    requires Preflight(h, d, p) == None && FinalWork(h, d, p).Ok?
    requires FinalWork(h, d, p).value.order != []
    ensures Apply(h, d, p).Ok? <==> |FinalWork(h, d, p).value.order| <= MAX_BLOCKS
    ensures Apply(h, d, p).Err? ==> Apply(h, d, p).error == InvalidDocument
  {
    hide FirstBadHash, Missing, ScopeOf, BlockShape, Check, Effect;
    var w := FinalWork(h, d, p).value;
    OpenedAgreesWhenShaped(d);
    RunKeepsAgreement(h, ScopeOf(d, p), Opened(d), p.operations);
    forall id | id in Opened(d).blocks ensures BlockShape(Opened(d).blocks[id]) {
      OpenedHolds(d, Opened(d).blocks[id]);
    }
    RunKeepsShapes(h, ScopeOf(d, p), Opened(d), p.operations);
    var r := Closed(d, p, w);
    forall i | 0 <= i < |w.order| ensures BlockIds(r.blocks)[i] == w.order[i] && BlockShape(r.blocks[i]) {
      assert w.order[i] in w.blocks;
    }
    assert BlockIds(r.blocks) == w.order;
  }

  ghost predicate Rewrites(op: Operation, id: string) {
    (op.ReplaceBlock? || op.RemoveBlock?) && Target(op) == Some(id)
  }

  lemma {:induction false} UntouchedBlocks(h: Hashing, d: Document, p: Patch, r: Document, b: Block)
    requires Accepted(h, d, p, r) && b in d.blocks
    requires forall op :: op in p.operations ==> !Rewrites(op, b.id)
    ensures b in r.blocks
  {
    hide DocumentShape, PatchShape, Missing, FirstBadHash, Accepted, CarriedOut, DistinctTargets, Listed, Agree;
    AcceptedWork(h, d, p, r);
    var w := FinalWork(h, d, p).value;
    DistinctFromShape(d);
    OpenedHolds(d, b);
    forall i | 0 <= i < |p.operations| ensures Target(p.operations[i]) != Some(b.id) {
      var op := p.operations[i];
      AllCarriedOut(h, ScopeOf(d, p), Opened(d), p.operations, i);
      if op.AddBlock? {
        AddedIsNew(ScopeOf(d, p), Opened(d), w, op);
      }
      assert op in p.operations;
    }
    RunFrame(h, ScopeOf(d, p), Opened(d), p.operations, b.id);
    ListedHolds(w, b);
  }

  lemma {:induction false} AddedIsNew(scope: Scope, a: Work, b: Work, op: Operation)
    requires op.AddBlock? && CarriedOut(scope, a, b, op)
    ensures op.block.id !in a.blocks && op.block.revision == 0
    ensures op.block.id in b.blocks && b.blocks[op.block.id] == op.block
  {
  }

  lemma {:induction false} DistinctFromShape(d: Document)
    requires DocumentShape(d)
    ensures Distinct(BlockIds(d.blocks))
  {
  }

  /** A patch that sets state rewrites exactly the affected blocks; every other block of the
      document is in the result unchanged. */
  lemma {:induction false} SelectiveRecomputation(h: Hashing, d: Document, p: Patch, r: Document, b: Block)
    requires Accepted(h, d, p, r) && b in d.blocks
    requires StatePaths(p.operations) != []
    ensures (exists op :: op in p.operations && Rewrites(op, b.id)) <==> Depends(b, StatePaths(p.operations))
    ensures !Depends(b, StatePaths(p.operations)) ==> b in r.blocks
  {
    hide DocumentShape, PatchShape, FirstBadHash, Accepted, CarriedOut, DistinctTargets, Agree, Depends;
    AcceptedWork(h, d, p, r);
    DistinctFromShape(d);
    OpenedHolds(d, b);
    AffectedByIdentifier(d, p, b);
    if Depends(b, StatePaths(p.operations)) {
      AffectedIsRewritten(h, d, p, r, b);
    }
    if op :| op in p.operations && Rewrites(op, b.id) {
      var i :| 0 <= i < |p.operations| && p.operations[i] == op;
      AllCarriedOut(h, ScopeOf(d, p), Opened(d), p.operations, i);
      RewriteIsAffected(ScopeOf(d, p), Opened(d), FinalWork(h, d, p).value, op);
    }
    if !Depends(b, StatePaths(p.operations)) {
      UntouchedBlocks(h, d, p, r, b);
    }
  }

  lemma {:induction false} RewriteIsAffected(scope: Scope, a: Work, b: Work, op: Operation)
    requires (op.ReplaceBlock? || op.RemoveBlock?) && CarriedOut(scope, a, b, op) && scope.setsState
    ensures Target(op).value in scope.affected
  {
  }

  lemma {:induction false} AffectedByIdentifier(d: Document, p: Patch, b: Block)
    requires Distinct(BlockIds(d.blocks)) && b in d.blocks
    ensures b.id in ScopeOf(d, p).affected <==> Depends(b, StatePaths(p.operations))
  {
    hide Depends;
    var i :| 0 <= i < |d.blocks| && d.blocks[i] == b;
    if b.id in ScopeOf(d, p).affected {
      var k :| 0 <= k < |d.blocks| && Depends(d.blocks[k], StatePaths(p.operations)) && d.blocks[k].id == b.id;
      assert BlockIds(d.blocks)[i] == BlockIds(d.blocks)[k];
    }
  }

  lemma {:induction false} AffectedIsRewritten(h: Hashing, d: Document, p: Patch, r: Document, b: Block)
    requires Accepted(h, d, p, r) && b in d.blocks && b.id in ScopeOf(d, p).affected
    ensures exists op :: op in p.operations && Rewrites(op, b.id)
  {
    hide DocumentShape, PatchShape, FirstBadHash, Accepted, CarriedOut, DistinctTargets, Agree, Depends;
    AcceptedWork(h, d, p, r);
    DistinctFromShape(d);
    var affected, changed := ScopeOf(d, p).affected, Elements(TargetIds(p.operations));
    var i :| 0 <= i < |d.blocks| && d.blocks[i] == b;
    assert BlockIds(d.blocks)[i] == b.id;
    FilterMember(id => id in affected && id !in changed, BlockIds(d.blocks), b.id);
    assert b.id in changed;
    TargetListed(p.operations, b.id);
    var k :| 0 <= k < |p.operations| && Target(p.operations[k]) == Some(b.id);
    OpenedHolds(d, b);
    AllCarriedOut(h, ScopeOf(d, p), Opened(d), p.operations, k);
    if p.operations[k].AddBlock? {
      AddedIsNew(ScopeOf(d, p), Opened(d), FinalWork(h, d, p).value, p.operations[k]);
    }
    assert p.operations[k] in p.operations && Rewrites(p.operations[k], b.id);
  }

  // ------------------------------------------------------------------ revisions

  /** A block present before and after a patch is the same, or its revision rose by exactly one. */
  lemma {:induction false} BlockRevisions(h: Hashing, d: Document, p: Patch, r: Document, before: Block, after: Block)
    requires Accepted(h, d, p, r)
    requires before in d.blocks && after in r.blocks && before.id == after.id
    ensures after == before || after.revision == before.revision + 1
  {
    hide DocumentShape, PatchShape, FirstBadHash, Accepted, DistinctTargets, Missing, ScopeOf;
    AcceptedWork(h, d, p, r);
    DistinctFromShape(d);
    OpenedHolds(d, before);
    ListedHolds(FinalWork(h, d, p).value, after);
    if k :| 0 <= k < |p.operations| && Target(p.operations[k]) == Some(before.id) {
      AllCarriedOut(h, ScopeOf(d, p), Opened(d), p.operations, k);
    } else {
      RunFrame(h, ScopeOf(d, p), Opened(d), p.operations, before.id);
    }
  }

  // --------------------------------------------------------------------- hashes

  ghost predicate AllHashesOk(h: Hashing, d: Document) {
    forall b :: b in d.blocks ==> HashOk(h, b)
  }

  lemma {:induction false} NoBadHash(h: Hashing, blocks: seq<Block>)
    ensures FirstBadHash(h, blocks) == None <==> forall b :: b in blocks ==> HashOk(h, b)
  {
    if blocks != [] {
      NoBadHash(h, blocks[1..]);
    }
  }

  lemma {:induction false} StepKeepsHashes(h: Hashing, scope: Scope, w: Work, op: Operation)
    requires Check(h, scope, w, op) == None
    requires forall id :: id in w.blocks ==> HashOk(h, w.blocks[id])
    ensures forall id :: id in Effect(w, op).blocks ==> HashOk(h, Effect(w, op).blocks[id])
  {
    hide HashOk;
  }

  lemma {:induction false} RunKeepsHashes(h: Hashing, scope: Scope, w: Work, ops: seq<Operation>)
    requires Run(h, scope, w, ops).Ok?
    requires forall id :: id in w.blocks ==> HashOk(h, w.blocks[id])
    ensures forall id :: id in Run(h, scope, w, ops).value.blocks ==> HashOk(h, Run(h, scope, w, ops).value.blocks[id])
    decreases |ops|
  {
    hide HashOk, Check, Effect;
    if ops != [] {
      StepKeepsHashes(h, scope, w, ops[0]);
      RunKeepsHashes(h, scope, Effect(w, ops[0]), ops[1..]);
    }
  }

  /** Every block of an accepted result carries the hash of its own content, so a later patch
      never fails on the hashes of the document it starts from. */
  lemma {:induction false} AcceptedHashes(h: Hashing, d: Document, p: Patch, r: Document)
    requires Accepted(h, d, p, r)
    ensures AllHashesOk(h, r) && FirstBadHash(h, r.blocks) == None
  {
    hide DocumentShape, PatchShape, Accepted, DistinctTargets, Missing, ScopeOf, HashOk, Listed;
    AcceptedWork(h, d, p, r);
    DistinctFromShape(d);
    NoBadHash(h, d.blocks);
    NoBadHash(h, r.blocks);
    forall id | id in Opened(d).blocks ensures HashOk(h, Opened(d).blocks[id]) {
      OpenedHolds(d, Opened(d).blocks[id]);
    }
    RunKeepsHashes(h, ScopeOf(d, p), Opened(d), p.operations);
    forall b | b in r.blocks ensures HashOk(h, b) {
      ListedHolds(FinalWork(h, d, p).value, b);
    }
  }

  ghost predicate Injective(f: string -> string) {
    forall a, b :: f(a) == f(b) ==> a == b
  }

  /** With an injective digest, equal content hashes mean equal type, value and metadata,
      up to the order of object members. */
  lemma {:induction false} ContentHashIdentifies(h: Hashing, a: Block, b: Block)
    requires TotalOrder(h.le) && Injective(h.sha256)
    requires WellFormed(HashedBlock(a)) && WellFormed(HashedBlock(b))
    ensures BlockContentHash(h, a) == BlockContentHash(h, b)
            <==> a.kind == b.kind && Same(a.value, b.value) && Same(JObject(a.metadata), JObject(b.metadata))
  {
    hide TotalOrder, WellFormed;
    JsonText.CanonicalTextIffSame(h.le, HashedBlock(a), HashedBlock(b));
    SameBlocks(a, b);
  }

  lemma {:induction false} SameBlocks(a: Block, b: Block)
    ensures Same(HashedBlock(a), HashedBlock(b))
            <==> a.kind == b.kind && Same(a.value, b.value) && Same(JObject(a.metadata), JObject(b.metadata))
  {
    var x, y := HashedBlock(a).members, HashedBlock(b).members;
    assert Keys(x) == {x[0].key, x[1].key, x[2].key};
    assert Keys(y) == {y[0].key, y[1].key, y[2].key};
    if a.kind != b.kind {
      TypeNamesDiffer(a.kind, b.kind);
    }
    if Same(HashedBlock(a), HashedBlock(b)) {
      assert Same(x[0].value, y[0].value) && Same(x[1].value, y[1].value) && Same(x[2].value, y[2].value);
    }
  }

  lemma {:induction false} TypeNamesDiffer(a: BlockType, b: BlockType)
    requires a != b
    ensures TypeName(a) != TypeName(b)
  {
    assert TypeName(a)[0] != TypeName(b)[0] || |TypeName(a)| != |TypeName(b)|;
  }

  /** With an injective digest, a state precondition holds exactly when the value read is the
      expected one; absence is told apart from every value. */
  lemma {:induction false} StateHashIdentifies(h: Hashing, a: Option<Json>, b: Option<Json>)
    requires TotalOrder(h.le) && Injective(h.sha256)
    requires (a.Some? ==> WellFormed(a.value)) && (b.Some? ==> WellFormed(b.value))
    ensures StateValueHash(h, a) == StateValueHash(h, b)
            <==> a.Some? == b.Some? && (a.Some? ==> Same(a.value, b.value))
  {
    hide TotalOrder, Same;
    HashedValueForm(a);
    HashedValueForm(b);
    JsonText.CanonicalTextIffSame(h.le, HashedValue(a), HashedValue(b));
    SameHashedValues(a, b);
  }

  lemma {:induction false} HashedValueForm(v: Option<Json>)
    requires v.Some? ==> WellFormed(v.value)
    ensures WellFormed(HashedValue(v))
    ensures Keys(HashedValue(v).members) == if v.None? then {"present"} else {"present", "value"}
  {
    var ms := HashedValue(v).members;
    assert ms[0].key == "present" && (v.Some? ==> ms[1].key == "value");
    assert |"value"| != |"present"|;
  }

  lemma {:induction false} SameHashedValues(a: Option<Json>, b: Option<Json>)
    requires Keys(HashedValue(a).members) == if a.None? then {"present"} else {"present", "value"}
    requires Keys(HashedValue(b).members) == if b.None? then {"present"} else {"present", "value"}
    ensures Same(HashedValue(a), HashedValue(b)) <==> a.Some? == b.Some? && (a.Some? ==> Same(a.value, b.value))
  {
    var x, y := HashedValue(a).members, HashedValue(b).members;
    assert |"value"| != |"present"|;
    assert "value" in {"present", "value"} && "value" !in {"present"};
    if a.Some? && b.Some? && Same(HashedValue(a), HashedValue(b)) {
      assert Same(x[1].value, y[1].value);
    }
  }

  /** An update that expects its path to be absent is let through exactly when the path is
      absent and no object inherits a member of that name. */
  lemma {:induction false} ExpectedAbsence(h: Hashing, state: map<string, Json>, path: string)
    requires TotalOrder(h.le) && Injective(h.sha256)
    requires path in state ==> WellFormed(state[path])
    ensures StateValueHash(h, ReadState(state, path)) == StateValueHash(h, None)
            <==> path !in state && path !in INHERITED
  {
    hide TotalOrder, StateValueHash;
    StateHashIdentifies(h, ReadState(state, path), None);
  }

  // ---------------------------------------------------------------------- order

  lemma {:induction false} FilterInsert(keep: string -> bool, order: seq<string>, anchor: Option<string>, id: string)
    requires !keep(id)
    ensures Filter(keep, InsertAfter(order, anchor, id)) == Filter(keep, order)
  {
    var k := if anchor.None? then -1 else IndexOf(order, anchor.value);
    var a, b := order[..k + 1], order[k + 1..];
    assert order == a + b;
    FilterConcat(keep, a, b);
    FilterConcat(keep, a + [id], b);
    FilterConcat(keep, a, [id]);
    assert Filter(keep, [id]) == [] by {
      assert [id][1..] == [];
    }
  }

  lemma {:induction false} FilterWithout(keep: string -> bool, order: seq<string>, id: string)
    requires !keep(id)
    ensures Filter(keep, Without(order, id)) == Filter(keep, order)
  {
    if order != [] {
      FilterWithout(keep, order[1..], id);
      if order[0] != id {
        assert Without(order, id)[1..] == Without(order[1..], id);
      }
    }
  }

  /** Operations leave the relative order of the blocks they do not insert or remove. */
  lemma {:induction false} RunKeepsOrder(h: Hashing, scope: Scope, w: Work, ops: seq<Operation>, keep: string -> bool)
    requires Run(h, scope, w, ops).Ok?
    requires forall i :: 0 <= i < |ops| && (ops[i].AddBlock? || ops[i].RemoveBlock?) ==> !keep(Target(ops[i]).value)
    ensures Filter(keep, Run(h, scope, w, ops).value.order) == Filter(keep, w.order)
    decreases |ops|
  {
    hide Check, InsertAfter, Without, Filter;
    if ops != [] && Check(h, scope, w, ops[0]) == None {
      match ops[0] {
        case AddBlock(block, anchor) => FilterInsert(keep, w.order, anchor, block.id);
        case RemoveBlock(id, _) => FilterWithout(keep, w.order, id);
        case _ =>
      }
      RunKeepsOrder(h, scope, Effect(w, ops[0]), ops[1..], keep);
    }
  }

  /** Surviving blocks keep their relative order. */
  lemma {:induction false} SurvivorsKeepOrder(h: Hashing, d: Document, p: Patch, r: Document)
    requires Accepted(h, d, p, r)
    ensures var both := Elements(BlockIds(d.blocks)) * Elements(BlockIds(r.blocks));
            Filter(id => id in both, BlockIds(r.blocks)) == Filter(id => id in both, BlockIds(d.blocks))
  {
    hide DocumentShape, PatchShape, Accepted, DistinctTargets, Missing, ScopeOf, FirstBadHash, CarriedOut, Listed;
    AcceptedWork(h, d, p, r);
    ResultOrder(h, d, p, r);
    var w := FinalWork(h, d, p).value;
    var both := Elements(BlockIds(d.blocks)) * Elements(BlockIds(r.blocks));
    forall i | 0 <= i < |p.operations| && (p.operations[i].AddBlock? || p.operations[i].RemoveBlock?)
      ensures Target(p.operations[i]).value !in both
    {
      AllCarriedOut(h, ScopeOf(d, p), Opened(d), p.operations, i);
      AddedOrRemoved(ScopeOf(d, p), Opened(d), w, p.operations[i]);
    }
    RunKeepsOrder(h, ScopeOf(d, p), Opened(d), p.operations, id => id in both);
  }

  lemma {:induction false} AddedOrRemoved(scope: Scope, a: Work, b: Work, op: Operation)
    requires (op.AddBlock? || op.RemoveBlock?) && CarriedOut(scope, a, b, op)
    ensures Target(op).value !in a.blocks || Target(op).value !in b.blocks
  {
  }

  // ----------------------------------------------------------- runs of patches

  /** The document after each patch in turn; a refused patch leaves it as it is. */
  function AfterPatches(h: Hashing, d: Document, patches: seq<Patch>): Document
    decreases |patches|
  {
    if patches == [] then d
    else
      match Apply(h, d, patches[0])
      case Ok(r) => AfterPatches(h, r, patches[1..])
      case Err(_) => AfterPatches(h, d, patches[1..])
  }

  /** The base revisions of the accepted patches, in order. */
  function AcceptedBases(h: Hashing, d: Document, patches: seq<Patch>): seq<nat>
    decreases |patches|
  {
    if patches == [] then []
    else
      match Apply(h, d, patches[0])
      case Ok(r) => [patches[0].baseRevision] + AcceptedBases(h, r, patches[1..])
      case Err(_) => AcceptedBases(h, d, patches[1..])
  }

  lemma {:induction false} AcceptedStep(h: Hashing, d: Document, p: Patch, r: Document)
    requires Accepted(h, d, p, r)
    ensures r.id == d.id && r.revision == d.revision + 1 && p.baseRevision == d.revision && p.documentId == d.id
  {
    hide DocumentShape, PatchShape, Missing, FirstBadHash, DistinctTargets, ScopeOf, Accepted, Listed;
    AcceptedWork(h, d, p, r);
  }

  /** Over any run the revision counts the accepted patches, and they were based on
      consecutive revisions: of several patches on one base at most one is accepted. */
  lemma {:induction false} RevisionsCountPatches(h: Hashing, d: Document, patches: seq<Patch>)
    ensures AfterPatches(h, d, patches).id == d.id
    ensures AfterPatches(h, d, patches).revision == d.revision + |AcceptedBases(h, d, patches)|
    ensures forall i :: 0 <= i < |AcceptedBases(h, d, patches)| ==> AcceptedBases(h, d, patches)[i] == d.revision + i
    ensures Distinct(AcceptedBases(h, d, patches))
    decreases |patches|
  {
    hide Apply;
    if patches != [] {
      match Apply(h, d, patches[0])
      case Ok(r) =>
        assert Accepted(h, d, patches[0], r);
        AcceptedStep(h, d, patches[0], r);
        RevisionsCountPatches(h, r, patches[1..]);
      case Err(_) =>
        RevisionsCountPatches(h, d, patches[1..]);
    }
  }
}
