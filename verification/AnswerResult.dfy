/** What the result of an accepted patch holds, field by field, and why a patch is turned away before
    its operations are looked at. */
module AnswerResult {
  import opened Sequences
  import opened CanonicalJson
  import opened AnswerDocument
  import opened AnswerReordering
  import opened AnswerLaws
  import SemanticPath

  // ----------------------------------------------------------------------- state

  /** Every path that the patch sets holds the value and the provenance it was given. */
  lemma {:induction false} SetPathsInResult(h: Hashing, d: Document, p: Patch, r: Document, k: nat)
    requires Accepted(h, d, p, r) && k < |p.operations| && p.operations[k].SetState?
    ensures var op := p.operations[k];
            && op.path in r.state && r.state[op.path] == op.value
            && op.path in r.stateProvenance && r.stateProvenance[op.path] == op.provenance
  {
    hide DocumentShape, PatchShape, Missing, FirstBadHash, Accepted, DistinctTargets, Listed, Agree;
    AcceptedWork(h, d, p, r);
    AllCarriedOut(h, ScopeOf(d, p), Opened(d), p.operations, k);
  }

  /** Every other path is in the result as it was in the document. */
  lemma {:induction false} OtherPathsInResult(h: Hashing, d: Document, p: Patch, r: Document, path: string)
    requires Accepted(h, d, p, r)
    requires forall i :: 0 <= i < |p.operations| ==> !(p.operations[i].SetState? && p.operations[i].path == path)
    ensures path in r.state <==> path in d.state
    ensures path in r.state ==> r.state[path] == d.state[path]
    ensures path in r.stateProvenance <==> path in d.stateProvenance
    ensures path in r.stateProvenance ==> r.stateProvenance[path] == d.stateProvenance[path]
  {
    hide DocumentShape, PatchShape, Missing, FirstBadHash, Accepted, DistinctTargets, Listed, Agree, Run;
    AcceptedWork(h, d, p, r);
    RunStateFrame(h, ScopeOf(d, p), Opened(d), p.operations, path);
    StateFrame(h, ScopeOf(d, p), Opened(d), p.operations, path);
  }

  lemma {:induction false} StateFrame(h: Hashing, scope: Scope, w: Work, ops: seq<Operation>, path: string)
    requires Run(h, scope, w, ops).Ok?
    requires forall i :: 0 <= i < |ops| ==> !(ops[i].SetState? && ops[i].path == path)
    ensures var r := Run(h, scope, w, ops).value; path in r.state && path in w.state ==> r.state[path] == w.state[path]
    decreases |ops|
  {
    hide Check;
    if ops != [] {
      var after := Effect(w, ops[0]);
      assert (path in after.state <==> path in w.state) && (path in w.state ==> after.state[path] == w.state[path]);
      hide Effect;
      assert forall i :: 0 <= i < |ops| - 1 ==> ops[1..][i] == ops[i + 1];
      RunStateFrame(h, scope, after, ops[1..], path);
      StateFrame(h, scope, after, ops[1..], path);
    }
  }

  /** The identifier and the status of the document stay, its revision rises by one, and metadata come from
      the patch where it has them and from the document otherwise. */
  lemma {:induction false} ResultHeader(h: Hashing, d: Document, p: Patch, r: Document, key: string)
    requires Accepted(h, d, p, r)
    ensures r.id == d.id && r.status == d.status && r.revision == d.revision + 1
    ensures key in r.metadata <==> key in p.metadata || key in d.metadata
    ensures key in p.metadata ==> r.metadata[key] == p.metadata[key]
    ensures key in d.metadata && key !in p.metadata ==> r.metadata[key] == d.metadata[key]
  {
    hide DocumentShape, PatchShape, Missing, FirstBadHash, Accepted, DistinctTargets, Listed, Agree, Run;
    AcceptedWork(h, d, p, r);
  }

  // ---------------------------------------------------------------------- blocks

  /** Replacements and insertions are in the result, removed identifiers are not. */
  lemma {:induction false} ChangedBlocksInResult(h: Hashing, d: Document, p: Patch, r: Document, k: nat)
    requires Accepted(h, d, p, r) && k < |p.operations|
    ensures match p.operations[k]
      case ReplaceBlock(block, _) => block in r.blocks
      case AddBlock(block, _) => block in r.blocks
      case RemoveBlock(id, _) => forall b :: b in r.blocks ==> b.id != id
      case SetState(_, _, _, _) => true
  {
    hide DocumentShape, PatchShape, Missing, FirstBadHash, Accepted, DistinctTargets, Listed, Run;
    AcceptedWork(h, d, p, r);
    var w := FinalWork(h, d, p).value;
    AllCarriedOut(h, ScopeOf(d, p), Opened(d), p.operations, k);
    hide Agree;
    match p.operations[k]
    case ReplaceBlock(block, _) => FiledIsListed(w, block);
    case AddBlock(block, _) => FiledIsListed(w, block);
    case RemoveBlock(id, _) =>
      forall b | b in r.blocks ensures b.id != id {
        ListedHolds(w, b);
      }
    case SetState(_, _, _, _) =>
  }

  lemma {:induction false} FiledIsListed(w: Work, b: Block)
    requires Agree(w) && b.id in w.blocks && w.blocks[b.id] == b
    ensures b in Listed(w)
  {
    ListedHolds(w, b);
  }

  /** Every block of the result is one of the document that no operation changes, or comes from an
      operation. */
  lemma {:induction false} ResultBlocksComeFrom(h: Hashing, d: Document, p: Patch, r: Document, b: Block)
    requires Accepted(h, d, p, r) && b in r.blocks
    ensures || (b in d.blocks && forall op :: op in p.operations ==> Target(op) != Some(b.id))
            || exists op :: op in p.operations && (op.ReplaceBlock? || op.AddBlock?) && op.block == b
  {
    hide DocumentShape, PatchShape, Missing, FirstBadHash, Accepted, DistinctTargets, Listed, Run, Agree;
    AcceptedWork(h, d, p, r);
    var w, ops := FinalWork(h, d, p).value, p.operations;
    ListedHolds(w, b);
    if k :| 0 <= k < |ops| && Target(ops[k]) == Some(b.id) {
      AllCarriedOut(h, ScopeOf(d, p), Opened(d), ops, k);
      assert ops[k] in ops;
    } else {
      RunFrame(h, ScopeOf(d, p), Opened(d), ops, b.id);
      DistinctFromShape(d);
      OpenedHolds(d, b);
    }
  }

  // ------------------------------------------------------------- state preconditions

  /** An update that expects a value goes through exactly when the path holds that value. */
  lemma {:induction false} ExpectedValue(h: Hashing, state: map<string, Json>, path: string, expected: Json)
    requires TotalOrder(h.le) && Injective(h.sha256) && WellFormed(expected)
    requires path in state && WellFormed(state[path])
    ensures StateValueHash(h, ReadState(state, path)) == StateValueHash(h, Some(expected))
            <==> Same(state[path], expected)
  {
    hide TotalOrder, StateValueHash;
    StateHashIdentifies(h, ReadState(state, path), Some(expected));
  }

  // -------------------------------------------------------------------- early refusals

  /** The block whose hash is reported is the first one that does not carry the hash of its content. */
  lemma {:induction false} FirstBadHashIsFirst(h: Hashing, blocks: seq<Block>, id: string)
    ensures FirstBadHash(h, blocks) == Some(id)
            <==> exists k :: && 0 <= k < |blocks| && blocks[k].id == id
                             && blocks[k].contentHash != BlockContentHash(h, blocks[k])
                             && forall i :: 0 <= i < k ==> blocks[i].contentHash == BlockContentHash(h, blocks[i])
  {
    hide BlockContentHash;
    if blocks != [] {
      var rest := blocks[1..];
      FirstBadHashIsFirst(h, rest, id);
      assert forall i :: 0 < i < |blocks| ==> blocks[i] == rest[i - 1];
      assert forall i :: 0 <= i < |rest| ==> rest[i] == blocks[i + 1];
      if HashOk(h, blocks[0]) {
        if k :| && 0 <= k < |rest| && rest[k].id == id && rest[k].contentHash != BlockContentHash(h, rest[k])
                && forall i :: 0 <= i < k ==> rest[i].contentHash == BlockContentHash(h, rest[i]) {
          assert blocks[k + 1] == rest[k];
        }
        if k :| && 0 <= k < |blocks| && blocks[k].id == id && blocks[k].contentHash != BlockContentHash(h, blocks[k])
                && forall i :: 0 <= i < k ==> blocks[i].contentHash == BlockContentHash(h, blocks[i]) {
          assert k > 0 && rest[k - 1] == blocks[k];
        }
      }
    }
  }

  /** The reported blocks are the affected ones that no operation changes, in document order. */
  lemma {:induction false} MissingAre(d: Document, p: Patch, b: Block)
    requires Distinct(BlockIds(d.blocks)) && b in d.blocks
    ensures b.id in Missing(d, p)
            <==> Depends(b, StatePaths(p.operations)) && forall op :: op in p.operations ==> Target(op) != Some(b.id)
  {
    hide Depends, TargetIds, StatePaths;
    var affected, changed := ScopeOf(d, p).affected, Elements(TargetIds(p.operations));
    AffectedByIdentifier(d, p, b);
    FilterMember(id => id in affected && id !in changed, BlockIds(d.blocks), b.id);
    var i :| 0 <= i < |d.blocks| && d.blocks[i] == b;
    assert BlockIds(d.blocks)[i] == b.id;
    TargetListed(p.operations, b.id);
    TargetByMember(p.operations, b.id);
  }

  /** Of several reasons to turn a patch away, the first one in the order of the checks is reported. */
  lemma {:induction false} EarlyRefusals(h: Hashing, d: Document, p: Patch)
    ensures !DocumentShape(d) ==> Apply(h, d, p) == Err(InvalidDocument)
    ensures DocumentShape(d) && !PatchShape(p) ==> Apply(h, d, p) == Err(InvalidPatch)
    ensures DocumentShape(d) && PatchShape(p) ==>
              && (p.documentId != d.id ==> Apply(h, d, p) == Err(WrongDocument))
              && (p.documentId == d.id && p.baseRevision != d.revision ==> Apply(h, d, p) == Err(StaleBase))
              && (p.documentId == d.id && p.baseRevision == d.revision ==>
                    && (forall id :: FirstBadHash(h, d.blocks) == Some(id) ==> Apply(h, d, p) == Err(HashMismatch(id)))
                    && (FirstBadHash(h, d.blocks) == None && Missing(d, p) != [] ==>
                          Apply(h, d, p) == Err(MissingRecomputation(Missing(d, p)))))
  {
    hide DocumentShape, PatchShape, FirstBadHash, Missing, Run;
  }
}
