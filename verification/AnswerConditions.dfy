/** Which documents and patches are in shape, and which patches are accepted, written out on the blocks
    of the document and the operations of the patch. */
module AnswerConditions {
  import opened Sequences
  import opened CanonicalJson
  import opened AnswerDocument
  import opened AnswerReordering
  import opened AnswerLaws
  import opened AnswerAcceptance
  import SemanticPath

  // ------------------------------------------------------------------------ shapes

  predicate PathText(s: string) {
    SemanticPath.ByCharacters(s)
  }

  predicate PathTexts(b: Block) {
    PathText(b.id) && forall i :: 0 <= i < |b.dependsOn| ==> PathText(b.dependsOn[i])
  }

  /** A document is in shape if and only if it has between one and a thousand blocks, no two with one
      identifier, and its identifiers, dependencies and state paths match the path pattern. */
  lemma {:induction false} DocumentShapeIff(d: Document)
    ensures DocumentShape(d) <==>
            && 1 <= |d.blocks| <= 1_000
            && (forall i, j :: 0 <= i < j < |d.blocks| ==> d.blocks[i].id != d.blocks[j].id)
            && (forall i :: 0 <= i < |d.blocks| ==> PathTexts(d.blocks[i]))
            && (forall p :: p in d.state ==> PathText(p))
  {
    forall i | 0 <= i < |d.blocks| ensures BlockShape(d.blocks[i]) <==> PathTexts(d.blocks[i]) {
      BlockShapeIff(d.blocks[i]);
    }
    forall p | p in d.state ensures SemanticPath.Valid(p) <==> PathText(p) {
      SemanticPath.ValidByCharacters(p);
    }
    var ids := BlockIds(d.blocks);
    assert forall i :: 0 <= i < |ids| ==> ids[i] == d.blocks[i].id;
    hide BlockShape, PathTexts, PathText, BlockIds;
    if Distinct(ids) {
      forall i, j | 0 <= i < j < |d.blocks| ensures d.blocks[i].id != d.blocks[j].id {
        assert ids[i] != ids[j];
      }
    }
  }

  lemma {:induction false} BlockShapeIff(b: Block)
    ensures BlockShape(b) <==> PathTexts(b)
  {
    SemanticPath.ValidByCharacters(b.id);
    forall i | 0 <= i < |b.dependsOn| ensures SemanticPath.Valid(b.dependsOn[i]) <==> PathText(b.dependsOn[i]) {
      SemanticPath.ValidByCharacters(b.dependsOn[i]);
    }
    hide SemanticPath.ByCharacters, SemanticPath.Valid;
  }

  /** The block that an operation names. */
  ghost predicate Names(op: Operation, id: string) {
    || ((op.ReplaceBlock? || op.AddBlock?) && op.block.id == id)
    || (op.RemoveBlock? && op.blockId == id)
  }

  ghost predicate OperationTexts(op: Operation) {
    && (op.SetState? ==> PathText(op.path))
    && (op.ReplaceBlock? || op.AddBlock? ==> PathTexts(op.block))
    && (op.AddBlock? && op.afterBlockId.Some? ==> PathText(op.afterBlockId.value))
    && (op.RemoveBlock? ==> PathText(op.blockId))
  }

  /** A patch is in shape if and only if it has between one and two thousand operations, no two of which set
      one path or name one block, and its texts match the path pattern. */
  lemma {:induction false} PatchShapeIff(p: Patch)
    ensures PatchShape(p) <==>
            && 1 <= |p.operations| <= 2_000
            && (forall i, j :: 0 <= i < j < |p.operations| && p.operations[i].SetState? && p.operations[j].SetState? ==>
                  p.operations[i].path != p.operations[j].path)
            && (forall i, j, id :: 0 <= i < j < |p.operations| && Names(p.operations[i], id) ==>
                  !Names(p.operations[j], id))
            && (forall i :: 0 <= i < |p.operations| ==> OperationTexts(p.operations[i]))
  {
    var ops := p.operations;
    UniquenessIsDistinctTargets(ops);
    forall i | 0 <= i < |ops| ensures OperationShape(ops[i]) <==> OperationTexts(ops[i]) {
      OperationShapeIff(ops[i]);
    }
    hide OperationShape, OperationTexts, StatePaths, TargetIds;
    forall i, j | 0 <= i < j < |ops|
      ensures SameTarget(ops[i], ops[j])
              <==> (ops[i].SetState? && ops[j].SetState? && ops[i].path == ops[j].path)
                   || exists id :: Names(ops[i], id) && Names(ops[j], id)
    {
      SameTargetIff(ops[i], ops[j]);
    }
    hide SameTarget, Names;
  }

  lemma {:induction false} SameTargetIff(a: Operation, b: Operation)
    ensures SameTarget(a, b) <==> (a.SetState? && b.SetState? && a.path == b.path)
                                  || exists id :: Names(a, id) && Names(b, id)
  {
    forall id ensures Names(a, id) <==> Target(a) == Some(id) {
    }
    forall id ensures Names(b, id) <==> Target(b) == Some(id) {
    }
    hide Names, Target;
    if Target(a).Some? && Target(a) == Target(b) {
      assert Names(a, Target(a).value) && Names(b, Target(a).value);
    }
  }

  lemma {:induction false} OperationShapeIff(op: Operation)
    ensures OperationShape(op) <==> OperationTexts(op)
  {
    match op
    case SetState(path, _, _, _) => SemanticPath.ValidByCharacters(path);
    case ReplaceBlock(block, _) => BlockShapeIff(block);
    case AddBlock(block, anchor) =>
      BlockShapeIff(block);
      if anchor.Some? {
        SemanticPath.ValidByCharacters(anchor.value);
      }
    case RemoveBlock(id, _) => SemanticPath.ValidByCharacters(id);
  }

  // --------------------------------------------------------------- reached blocks

  /** One of the two paths leads through the other. */
  ghost predicate OnOnePath(a: string, b: string) {
    SemanticPath.Segments(a) <= SemanticPath.Segments(b) || SemanticPath.Segments(b) <= SemanticPath.Segments(a)
  }

  /** The block depends on a path that the patch sets, or on one that lies above or below it. */
  ghost predicate Reached(p: Patch, b: Block) {
    exists op, dependency :: op in p.operations && op.SetState? && dependency in b.dependsOn
                             && OnOnePath(op.path, dependency)
  }

  ghost predicate SetsState(p: Patch) {
    exists op :: op in p.operations && op.SetState?
  }

  lemma {:induction false} PathsAreListed(ops: seq<Operation>)
    ensures forall path :: path in StatePaths(ops) <==> exists op :: op in ops && op.SetState? && op.path == path
  {
    forall path ensures path in StatePaths(ops) <==> exists op :: op in ops && op.SetState? && op.path == path {
      PathListed(ops, path);
      PathByMember(ops, path);
    }
  }

  lemma {:induction false} ReachedIff(p: Patch, b: Block)
    ensures Depends(b, StatePaths(p.operations)) <==> Reached(p, b)
  {
    var paths, ops := StatePaths(p.operations), p.operations;
    PathsAreListed(ops);
    if Depends(b, paths) {
      var i, j :| 0 <= i < |b.dependsOn| && 0 <= j < |paths| && SemanticPath.Affects(paths[j], b.dependsOn[i]);
      SemanticPath.AffectsIffSegmentPrefix(paths[j], b.dependsOn[i]);
      assert paths[j] in paths;
      var op :| op in ops && op.SetState? && op.path == paths[j];
      assert op in ops && op.SetState? && b.dependsOn[i] in b.dependsOn && OnOnePath(op.path, b.dependsOn[i]);
    }
    if op, dependency :| op in ops && op.SetState? && dependency in b.dependsOn && OnOnePath(op.path, dependency) {
      assert op.path in paths;
      var i :| 0 <= i < |b.dependsOn| && b.dependsOn[i] == dependency;
      var j :| 0 <= j < |paths| && paths[j] == op.path;
      SemanticPath.AffectsIffSegmentPrefix(paths[j], b.dependsOn[i]);
    }
  }

  lemma {:induction false} SetsStateIff(p: Patch)
    ensures StatePaths(p.operations) != [] <==> SetsState(p)
  {
    PathsAreListed(p.operations);
    hide StatePaths;
    var paths := StatePaths(p.operations);
    if paths != [] {
      assert paths[0] in paths;
    }
    if op :| op in p.operations && op.SetState? {
      assert op.path in paths;
    }
  }

  /** A patch that sets state rewrites exactly the blocks that it reaches. */
  lemma {:induction false} RewrittenIffReached(h: Hashing, d: Document, p: Patch, r: Document, b: Block)
    requires Accepted(h, d, p, r) && b in d.blocks && SetsState(p)
    ensures (exists op :: op in p.operations && Rewrites(op, b.id)) <==> Reached(p, b)
  {
    SetsStateIff(p);
    ReachedIff(p, b);
    hide Accepted, Rewrites, Depends, StatePaths, SetsState, Reached;
    SelectiveRecomputation(h, d, p, r, b);
  }

  // -------------------------------------------------------------------- acceptance

  /** The document holds the block at that revision, and a patch that sets state reaches it. */
  ghost predicate Rewritable(d: Document, p: Patch, id: string, revision: nat) {
    exists b :: b in d.blocks && b.id == id && b.revision == revision && (SetsState(p) ==> Reached(p, b))
  }

  ghost predicate HasBlock(d: Document, id: string) {
    exists b :: b in d.blocks && b.id == id
  }

  /** The block is there when the `k`-th operation is reached. */
  ghost predicate AnchorThere(d: Document, p: Patch, k: nat, anchor: string)
    requires k < |p.operations|
  {
    || (HasBlock(d, anchor)
        && forall j :: 0 <= j < k && p.operations[j].RemoveBlock? ==> p.operations[j].blockId != anchor)
    || exists j :: 0 <= j < k && p.operations[j].AddBlock? && p.operations[j].block.id == anchor
  }

  /** The operation has the block, the revisions and the hashes right. */
  ghost predicate InOrder(h: Hashing, d: Document, p: Patch, k: nat)
    requires k < |p.operations|
  {
    match p.operations[k]
    case SetState(path, _, expected, _) =>
      expected == None || expected == Some(StateValueHash(h, ReadState(d.state, path)))
    case ReplaceBlock(block, expected) =>
      && Rewritable(d, p, block.id, expected) && block.revision == expected + 1
      && block.contentHash == BlockContentHash(h, block)
    case AddBlock(block, anchor) =>
      && !HasBlock(d, block.id) && block.revision == 0 && block.contentHash == BlockContentHash(h, block)
      && (anchor.Some? ==> AnchorThere(d, p, k, anchor.value))
    case RemoveBlock(id, expected) => Rewritable(d, p, id, expected)
  }

  /** A patch is accepted if and only if it fits the document, rewrites every block that it reaches, and each
      of its operations is in order when judged against the document as it was. */
  lemma {:induction false} AcceptedAsWritten(h: Hashing, d: Document, p: Patch)
    ensures Apply(h, d, p).Ok? <==>
            && DocumentShape(d) && PatchShape(p)
            && p.documentId == d.id && p.baseRevision == d.revision
            && (forall b :: b in d.blocks ==> b.contentHash == BlockContentHash(h, b))
            && (forall b :: b in d.blocks && Reached(p, b) ==> exists op :: op in p.operations && Names(op, b.id))
            && (forall k :: 0 <= k < |p.operations| ==> InOrder(h, d, p, k))
            && 1 <= |d.blocks| + Added(p.operations) - Removed(p.operations) <= 1_000
  {
    AcceptedIff(h, d, p);
    if DocumentShape(d) && PatchShape(p) {
      DistinctFromShape(d);
      forall b | b in d.blocks
        ensures Depends(b, StatePaths(p.operations)) <==> Reached(p, b)
        ensures b.id in TargetIds(p.operations) <==> exists op :: op in p.operations && Names(op, b.id)
      {
        ReachedIff(p, b);
        NamedIff(p.operations, b.id);
      }
      forall k | 0 <= k < |p.operations|
        ensures OperationOk(h, ScopeOf(d, p), Opened(d), p.operations, k) <==> InOrder(h, d, p, k)
      {
        InOrderIff(h, d, p, k);
      }
      hide OperationOk, InOrder, Reached, Depends, Names, TargetIds, StatePaths, ScopeOf, Opened, Added, Removed;
      hide Apply, PatchShape, BlockContentHash;
    }
  }

  lemma {:induction false} NamedIff(ops: seq<Operation>, id: string)
    ensures id in TargetIds(ops) <==> exists op :: op in ops && Names(op, id)
  {
    TargetListed(ops, id);
    TargetByMember(ops, id);
    hide TargetIds;
    forall op ensures Names(op, id) <==> Target(op) == Some(id) {
    }
  }

  lemma {:induction false} OpenedBlock(d: Document, id: string)
    requires Distinct(BlockIds(d.blocks))
    ensures id in Opened(d).order <==> HasBlock(d, id)
    ensures id in Opened(d).blocks <==> HasBlock(d, id)
    ensures id in Opened(d).blocks ==> Opened(d).blocks[id] in d.blocks && Opened(d).blocks[id].id == id
  {
    BlockMapKeys(d.blocks);
    assert id in BlockMap(d.blocks) <==> id in Elements(BlockIds(d.blocks));
    if i :| 0 <= i < |d.blocks| && d.blocks[i].id == id {
      BlockMapHolds(d.blocks, i);
      assert BlockIds(d.blocks)[i] == id && d.blocks[i] in d.blocks;
    }
    if id in BlockIds(d.blocks) {
      var i :| 0 <= i < |d.blocks| && BlockIds(d.blocks)[i] == id;
      assert d.blocks[i].id == id;
    }
  }

  lemma {:induction false} RewritableIff(d: Document, p: Patch, id: string, revision: nat)
    requires Distinct(BlockIds(d.blocks))
    ensures Rewritable(d, p, id, revision) <==>
            && id in Opened(d).blocks && Opened(d).blocks[id].revision == revision
            && (ScopeOf(d, p).setsState ==> id in ScopeOf(d, p).affected)
  {
    OpenedBlock(d, id);
    SetsStateIff(p);
    if HasBlock(d, id) {
      var b := Opened(d).blocks[id];
      forall other | other in d.blocks && other.id == id ensures other == b {
        OpenedHolds(d, other);
      }
      AffectedByIdentifier(d, p, b);
      ReachedIff(p, b);
    }
    hide Reached, SetsState, Depends, StatePaths, Opened, BlockIds;
  }

  lemma {:induction false} InOrderIff(h: Hashing, d: Document, p: Patch, k: nat)
    requires Distinct(BlockIds(d.blocks)) && k < |p.operations|
    ensures OperationOk(h, ScopeOf(d, p), Opened(d), p.operations, k) <==> InOrder(h, d, p, k)
  {
    hide StateValueHash, BlockContentHash, Rewritable, HasBlock, ReadState, ScopeOf, BlockIds;
    match p.operations[k]
    case SetState(_, _, _, _) =>
    case ReplaceBlock(block, expected) =>
      hide Opened;
      RewritableIff(d, p, block.id, expected);
    case AddBlock(block, anchor) =>
      hide Opened;
      OpenedBlock(d, block.id);
      if anchor.Some? {
        OpenedBlock(d, anchor.value);
      }
    case RemoveBlock(id, expected) =>
      hide Opened;
      RewritableIff(d, p, id, expected);
  }
}
