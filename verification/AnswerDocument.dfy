/** Answer documents and the engine that applies a patch to one. */
module AnswerDocument {
  import opened Sequences
  import opened CanonicalJson
  import JsonText
  import SemanticPath

  datatype BlockType = SUMMARY | FIELD | POLICY | LIST | CALLOUT | HANDOVER | CUSTOM

  datatype Provenance = Provenance(
    kind: string, sourceId: string, sourceRevision: Option<string>, evidenceId: Option<string>,
    authoritative: bool, metadata: seq<Member>)

  datatype Block = Block(
    id: string, kind: BlockType, value: Json, revision: nat, contentHash: string,
    provenance: seq<Provenance>, dependsOn: seq<string>, metadata: seq<Member>)

  datatype Document = Document(
    id: string, revision: nat, status: string,
    state: map<string, Json>, stateProvenance: map<string, seq<Provenance>>,
    blocks: seq<Block>, metadata: map<string, Json>)

  datatype Operation =
    | SetState(path: string, value: Json, expectedValueHash: Option<string>, provenance: seq<Provenance>)
    | ReplaceBlock(block: Block, expectedBlockRevision: nat)
    | AddBlock(block: Block, afterBlockId: Option<string>)
    | RemoveBlock(blockId: string, expectedBlockRevision: nat)

  datatype Patch = Patch(
    documentId: string, baseRevision: nat, operations: seq<Operation>, metadata: map<string, Json>)

  datatype PatchError =
    | InvalidDocument
    | InvalidPatch
    | WrongDocument
    | StaleBase
    | HashMismatch(id: string)
    | MissingRecomputation(ids: seq<string>)
    | StateChanged(path: string)
    | UnknownBlock(id: string)
    | BlockRevisionChanged(id: string)
    | BadRevisionStep(id: string)
    | UnrelatedBlock(id: string)
    | BlockExists(id: string)
    | NewBlockRevision(id: string)
    | BadAnchor(id: string)
    | EmptyDocument

  // ------------------------------------------------------------------- hashes

  /** The key comparison and the digest function, both supplied by the platform. */
  datatype Hashing = Hashing(le: Order, sha256: string -> string)

  function Digest(h: Hashing, v: Json): string {
    h.sha256(JsonText.CanonicalText(h.le, v))
  }

  function TypeName(t: BlockType): string {
    match t
    case SUMMARY => "SUMMARY" case FIELD => "FIELD" case POLICY => "POLICY" case LIST => "LIST"
    case CALLOUT => "CALLOUT" case HANDOVER => "HANDOVER" case CUSTOM => "CUSTOM"
  }

  function HashedValue(v: Option<Json>): Json {
    if v.None? then JObject([Member("present", JBool(false))])
    else JObject([Member("present", JBool(true)), Member("value", v.value)])
  }

  function StateValueHash(h: Hashing, v: Option<Json>): string {
    Digest(h, HashedValue(v))
  }

  function HashedBlock(b: Block): Json {
    JObject([
      Member("type", JString(TypeName(b.kind))), Member("value", b.value), Member("metadata", JObject(b.metadata))])
  }

  function BlockContentHash(h: Hashing, b: Block): string {
    Digest(h, HashedBlock(b))
  }

  predicate HashOk(h: Hashing, b: Block) {
    b.contentHash == BlockContentHash(h, b)
  }

  // ------------------------------------------------------------------ schemas

  const MAX_BLOCKS := 1000
  const MAX_OPERATIONS := 2000

  function BlockIds(blocks: seq<Block>): seq<string> {
    Map((b: Block) => b.id, blocks)
  }

  predicate BlockShape(b: Block) {
    SemanticPath.Valid(b.id) && forall i :: 0 <= i < |b.dependsOn| ==> SemanticPath.Valid(b.dependsOn[i])
  }

  predicate DocumentShape(d: Document) {
    && 1 <= |d.blocks| <= MAX_BLOCKS
    && Distinct(BlockIds(d.blocks))
    && (forall i :: 0 <= i < |d.blocks| ==> BlockShape(d.blocks[i]))
    && (forall p :: p in d.state ==> SemanticPath.Valid(p))
  }

  predicate OperationShape(op: Operation) {
    match op
    case SetState(path, _, _, _) => SemanticPath.Valid(path)
    case ReplaceBlock(block, _) => BlockShape(block)
    case AddBlock(block, anchor) => BlockShape(block) && (anchor.Some? ==> SemanticPath.Valid(anchor.value))
    case RemoveBlock(id, _) => SemanticPath.Valid(id)
  }

  function StatePaths(ops: seq<Operation>): seq<string> {
    if ops == [] then []
    else (if ops[0].SetState? then [ops[0].path] else []) + StatePaths(ops[1..])
  }

  /** The block an operation changes, if any. */
  function Target(op: Operation): Option<string> {
    match op
    case SetState(_, _, _, _) => None
    case ReplaceBlock(block, _) => Some(block.id)
    case AddBlock(block, _) => Some(block.id)
    case RemoveBlock(id, _) => Some(id)
  }

  function TargetIds(ops: seq<Operation>): seq<string> {
    if ops == [] then []
    else (if Target(ops[0]).Some? then [Target(ops[0]).value] else []) + TargetIds(ops[1..])
  }

  predicate PatchShape(p: Patch) {
    && 1 <= |p.operations| <= MAX_OPERATIONS
    && Distinct(StatePaths(p.operations))
    && Distinct(TargetIds(p.operations))
    && (forall i :: 0 <= i < |p.operations| ==> OperationShape(p.operations[i]))
  }

  // --------------------------------------------------------- affected blocks

  predicate Depends(b: Block, paths: seq<string>) {
    exists i, j :: 0 <= i < |b.dependsOn| && 0 <= j < |paths| && SemanticPath.Affects(paths[j], b.dependsOn[i])
  }

  function AffectedIds(blocks: seq<Block>, paths: seq<string>): set<string> {
    set i | 0 <= i < |blocks| && Depends(blocks[i], paths) :: blocks[i].id
  }

  /** What an operation may consult besides the working copy. */
  datatype Scope = Scope(setsState: bool, affected: set<string>)

  function ScopeOf(d: Document, p: Patch): Scope {
    Scope(StatePaths(p.operations) != [], AffectedIds(d.blocks, StatePaths(p.operations)))
  }

  // ------------------------------------------------------------ working copy

  datatype Work = Work(
    state: map<string, Json>, provenance: map<string, seq<Provenance>>,
    blocks: map<string, Block>, order: seq<string>)

  function IndexOf(order: seq<string>, id: string): (k: int)
    ensures -1 <= k < |order|
    ensures k >= 0 ==> order[k] == id
    ensures k < 0 <==> id !in order
  {
    if order == [] then -1
    else if order[0] == id then 0
    else var k := IndexOf(order[1..], id); if k < 0 then -1 else k + 1
  }

  function InsertAfter(order: seq<string>, anchor: Option<string>, id: string): seq<string> {
    var k := if anchor.None? then -1 else IndexOf(order, anchor.value);
    order[..k + 1] + [id] + order[k + 1..]
  }

  function Without(order: seq<string>, id: string): seq<string> {
    Filter(x => x != id, order)
  }

  /** Paths under which every plain object has an inherited member. Reading such a path
      yields a function, which canonicalises to an empty object. */
  const INHERITED: set<string> := {
    "constructor", "hasOwnProperty", "isPrototypeOf", "propertyIsEnumerable",
    "toLocaleString", "toString", "valueOf"}

  function ReadState(state: map<string, Json>, path: string): Option<Json> {
    if path in state then Some(state[path])
    else if path in INHERITED then Some(JObject([]))
    else None
  }

  function CheckRewrite(w: Work, id: string, expected: nat): Option<PatchError> {
    if id !in w.blocks then Some(UnknownBlock(id))
    else if w.blocks[id].revision != expected then Some(BlockRevisionChanged(id))
    else None
  }

  /** The first reason to refuse an operation on the working copy. */
  function Check(h: Hashing, scope: Scope, w: Work, op: Operation): Option<PatchError> {
    match op
    case SetState(path, _, expected, _) =>
      if expected.Some? && expected.value != StateValueHash(h, ReadState(w.state, path)) then Some(StateChanged(path))
      else None
    case ReplaceBlock(block, expected) =>
      var stale := CheckRewrite(w, block.id, expected);
      if stale.Some? then stale
      else if block.revision != w.blocks[block.id].revision + 1 then Some(BadRevisionStep(block.id))
      else if scope.setsState && block.id !in scope.affected then Some(UnrelatedBlock(block.id))
      else if !HashOk(h, block) then Some(HashMismatch(block.id))
      else None
    case AddBlock(block, anchor) =>
      if block.id in w.blocks then Some(BlockExists(block.id))
      else if block.revision != 0 then Some(NewBlockRevision(block.id))
      else if !HashOk(h, block) then Some(HashMismatch(block.id))
      else if anchor.Some? && anchor.value !in w.order then Some(BadAnchor(anchor.value))
      else None
    case RemoveBlock(id, expected) =>
      var stale := CheckRewrite(w, id, expected);
      if stale.Some? then stale
      else if scope.setsState && id !in scope.affected then Some(UnrelatedBlock(id))
      else None
  }

  /** What an operation that is not refused does to the working copy. */
  function Effect(w: Work, op: Operation): Work {
    match op
    case SetState(path, value, _, provenance) =>
      w.(state := w.state[path := value], provenance := w.provenance[path := provenance])
    case ReplaceBlock(block, _) => w.(blocks := w.blocks[block.id := block])
    case AddBlock(block, anchor) =>
      w.(blocks := w.blocks[block.id := block], order := InsertAfter(w.order, anchor, block.id))
    case RemoveBlock(id, _) => w.(blocks := w.blocks - {id}, order := Without(w.order, id))
  }

  function Run(h: Hashing, scope: Scope, w: Work, ops: seq<Operation>): Result<Work, PatchError>
    decreases |ops|
  {
    if ops == [] then Ok(w)
    else
      match Check(h, scope, w, ops[0])
      case Some(error) => Err(error)
      case None => Run(h, scope, Effect(w, ops[0]), ops[1..])
  }

  // ---------------------------------------------------- order and map agree

  /** `order` lists every block of the map once, and each block is filed under its own identifier. */
  ghost predicate Agree(w: Work) {
    && Distinct(w.order)
    && Elements(w.order) == w.blocks.Keys
    && forall id :: id in w.blocks ==> w.blocks[id].id == id
  }

  lemma {:induction false} InsertKeepsDistinct(order: seq<string>, anchor: Option<string>, id: string)
    requires Distinct(order) && id !in order
    ensures Distinct(InsertAfter(order, anchor, id))
    ensures Elements(InsertAfter(order, anchor, id)) == Elements(order) + {id}
  {
    hide IndexOf;
    var k := if anchor.None? then -1 else IndexOf(order, anchor.value);
    assert order == order[..k + 1] + order[k + 1..];
    PlacedBetween(order[..k + 1], id, order[k + 1..]);
  }

  lemma {:induction false} PlacedBetween(front: seq<string>, id: string, back: seq<string>)
    requires Distinct(front + back) && id !in front + back
    ensures Distinct(front + [id] + back)
    ensures Elements(front + [id] + back) == Elements(front + back) + {id}
  {
    var s, r, n := front + back, front + [id] + back, |front|;
    assert forall i :: 0 <= i < n ==> r[i] == s[i];
    assert forall i :: n <= i < |s| ==> r[i + 1] == s[i];
    forall i, j | 0 <= i < j < |r| ensures r[i] != r[j] {
      var k, l := if i < n then i else i - 1, if j < n then j else j - 1;
      if i == n {
        assert r[j] == s[l];
      } else if j == n {
        assert r[i] == s[k];
      } else {
        assert r[i] == s[k] && r[j] == s[l];
      }
    }
    forall x ensures x in r <==> x in s || x == id {
    }
  }

  lemma {:induction false} WithoutKeepsDistinct(order: seq<string>, id: string)
    requires Distinct(order)
    ensures Distinct(Without(order, id))
    ensures Elements(Without(order, id)) == Elements(order) - {id}
  {
    forall x ensures x in Without(order, id) <==> x in order && x != id {
      FilterMember(y => y != id, order, x);
    }
    FilterDistinct(y => y != id, order);
  }

  lemma {:induction false} FilterDistinct<T>(keep: T -> bool, s: seq<T>)
    requires Distinct(s)
    ensures Distinct(Filter(keep, s))
  {
    if s != [] {
      FilterDistinct(keep, s[1..]);
      FilterMember(keep, s[1..], s[0]);
      assert s[0] !in s[1..];
    }
  }

  lemma {:induction false} EffectKeepsAgreement(h: Hashing, scope: Scope, w: Work, op: Operation)
    requires Agree(w) && Check(h, scope, w, op) == None
    ensures Agree(Effect(w, op))
  {
    hide InsertAfter, Without, IndexOf, Distinct;
    match op
    case SetState(_, _, _, _) =>
    case ReplaceBlock(block, _) =>
    case AddBlock(block, anchor) =>
      assert block.id !in Elements(w.order);
      InsertKeepsDistinct(w.order, anchor, block.id);
    case RemoveBlock(id, _) =>
      WithoutKeepsDistinct(w.order, id);
  }

  /** Order and map agree after every prefix of operations, hence at the end. */
  lemma {:induction false} RunKeepsAgreement(h: Hashing, scope: Scope, w: Work, ops: seq<Operation>)
    requires Agree(w)
    ensures Run(h, scope, w, ops).Ok? ==> Agree(Run(h, scope, w, ops).value)
    decreases |ops|
  {
    hide Agree, Check, Effect;
    if ops != [] && Check(h, scope, w, ops[0]) == None {
      EffectKeepsAgreement(h, scope, w, ops[0]);
      RunKeepsAgreement(h, scope, Effect(w, ops[0]), ops[1..]);
    }
  }

  // --------------------------------------------------------------- the engine

  function BlockMap(blocks: seq<Block>): map<string, Block> {
    if blocks == [] then map[]
    else BlockMap(blocks[..|blocks| - 1])[blocks[|blocks| - 1].id := blocks[|blocks| - 1]]
  }

  lemma {:induction false} BlockMapKeys(blocks: seq<Block>)
    ensures BlockMap(blocks).Keys == Elements(BlockIds(blocks))
  {
    if blocks != [] {
      var front, last := blocks[..|blocks| - 1], blocks[|blocks| - 1];
      BlockMapKeys(front);
      assert BlockIds(blocks) == BlockIds(front) + [last.id];
      ElementsConcat(BlockIds(front), [last.id]);
    }
  }

  lemma {:induction false} BlockMapHolds(blocks: seq<Block>, i: nat)
    requires Distinct(BlockIds(blocks)) && i < |blocks|
    ensures blocks[i].id in BlockMap(blocks) && BlockMap(blocks)[blocks[i].id] == blocks[i]
  {
    if i < |blocks| - 1 {
      var front := blocks[..|blocks| - 1];
      assert BlockIds(front) == BlockIds(blocks)[..|blocks| - 1];
      BlockMapHolds(front, i);
      assert BlockIds(blocks)[i] != BlockIds(blocks)[|blocks| - 1];
    }
  }

  function Opened(d: Document): Work {
    Work(d.state, d.stateProvenance, BlockMap(d.blocks), BlockIds(d.blocks))
  }

  lemma {:induction false} OpenedAgrees(d: Document)
    requires Distinct(BlockIds(d.blocks))
    ensures Agree(Opened(d))
  {
    BlockMapKeys(d.blocks);
    forall id | id in BlockMap(d.blocks) ensures BlockMap(d.blocks)[id].id == id {
      assert id in Elements(BlockIds(d.blocks));
      var i :| 0 <= i < |d.blocks| && BlockIds(d.blocks)[i] == id;
      BlockMapHolds(d.blocks, i);
    }
  }

  function Listed(w: Work): (r: seq<Block>)
    requires Elements(w.order) <= w.blocks.Keys
    ensures |r| == |w.order|
    ensures forall i :: 0 <= i < |r| ==> w.order[i] in w.blocks && r[i] == w.blocks[w.order[i]]
  {
    assert forall i :: 0 <= i < |w.order| ==> w.order[i] in Elements(w.order);
    seq(|w.order|, i requires 0 <= i < |w.order| => w.blocks[w.order[i]])
  }

  function Closed(d: Document, p: Patch, w: Work): Document
    requires Elements(w.order) <= w.blocks.Keys
  {
    d.(revision := d.revision + 1, state := w.state, stateProvenance := w.provenance,
       blocks := Listed(w), metadata := d.metadata + p.metadata)
  }

  function FirstBadHash(h: Hashing, blocks: seq<Block>): Option<string> {
    if blocks == [] then None
    else if !HashOk(h, blocks[0]) then Some(blocks[0].id)
    else FirstBadHash(h, blocks[1..])
  }

  /** Affected blocks that no operation changes, in document order. */
  function Missing(d: Document, p: Patch): seq<string> {
    var affected, changed := ScopeOf(d, p).affected, Elements(TargetIds(p.operations));
    Filter(id => id in affected && id !in changed, BlockIds(d.blocks))
  }

  /** The checks made before any operation is applied. */
  function Preflight(h: Hashing, d: Document, p: Patch): Option<PatchError> {
    if !DocumentShape(d) then Some(InvalidDocument)
    else if !PatchShape(p) then Some(InvalidPatch)
    else if p.documentId != d.id then Some(WrongDocument)
    else if p.baseRevision != d.revision then Some(StaleBase)
    else if FirstBadHash(h, d.blocks).Some? then Some(HashMismatch(FirstBadHash(h, d.blocks).value))
    else if Missing(d, p) != [] then Some(MissingRecomputation(Missing(d, p)))
    else None
  }

  function Apply(h: Hashing, d: Document, p: Patch): Result<Document, PatchError> {
    match Preflight(h, d, p)
    case Some(error) => Err(error)
    case None =>
      OpenedAgrees(d);
      RunKeepsAgreement(h, ScopeOf(d, p), Opened(d), p.operations);
      match Run(h, ScopeOf(d, p), Opened(d), p.operations)
      case Err(error) => Err(error)
      case Ok(w) =>
        if w.order == [] then Err(EmptyDocument)
        else if !DocumentShape(Closed(d, p, w)) then Err(InvalidDocument)
        else Ok(Closed(d, p, w))
  }

  /** The operation loop, on the four variables that it updates. */
  method RunOperations(h: Hashing, scope: Scope, d: Document, ops: seq<Operation>)
    returns (r: Result<Work, PatchError>)
    ensures r == Run(h, scope, Opened(d), ops)
  {
    var state, stateProvenance := d.state, d.stateProvenance;
    var blocks, order := BlockMap(d.blocks), BlockIds(d.blocks);
    var i := 0;
    assert ops[i..] == ops;
    while i < |ops|
      invariant i <= |ops|
      invariant Run(h, scope, Opened(d), ops)
             == Run(h, scope, Work(state, stateProvenance, blocks, order), ops[i..])
    {
      ghost var before := Work(state, stateProvenance, blocks, order);
      assert ops[i..][0] == ops[i] && ops[i..][1..] == ops[i + 1..];
      match ops[i] {
        case SetState(path, value, expected, provenance) =>
          if expected.Some? && expected.value != StateValueHash(h, ReadState(state, path)) {
            return Err(StateChanged(path));
          }
          state := state[path := value];
          stateProvenance := stateProvenance[path := provenance];
        case ReplaceBlock(block, expected) =>
          if block.id !in blocks {
            return Err(UnknownBlock(block.id));
          }
          var current := blocks[block.id];
          if current.revision != expected {
            return Err(BlockRevisionChanged(block.id));
          }
          if block.revision != current.revision + 1 {
            return Err(BadRevisionStep(block.id));
          }
          if scope.setsState && block.id !in scope.affected {
            return Err(UnrelatedBlock(block.id));
          }
          if !HashOk(h, block) {
            return Err(HashMismatch(block.id));
          }
          blocks := blocks[block.id := block];
        case AddBlock(block, anchor) =>
          if block.id in blocks {
            return Err(BlockExists(block.id));
          }
          if block.revision != 0 {
            return Err(NewBlockRevision(block.id));
          }
          if !HashOk(h, block) {
            return Err(HashMismatch(block.id));
          }
          blocks := blocks[block.id := block];
          var afterIndex := if anchor.None? then -1 else IndexOf(order, anchor.value);
          if anchor.Some? && afterIndex < 0 {
            return Err(BadAnchor(anchor.value));
          }
          order := order[..afterIndex + 1] + [block.id] + order[afterIndex + 1..];
        case RemoveBlock(id, expected) =>
          if id !in blocks {
            return Err(UnknownBlock(id));
          }
          var current := blocks[id];
          if current.revision != expected {
            return Err(BlockRevisionChanged(id));
          }
          if scope.setsState && id !in scope.affected {
            return Err(UnrelatedBlock(id));
          }
          blocks := blocks - {id};
          order := Filter(x => x != id, order);
      }
      assert Check(h, scope, before, ops[i]) == None;
      assert Work(state, stateProvenance, blocks, order) == Effect(before, ops[i]);
      i := i + 1;
    }
    r := Ok(Work(state, stateProvenance, blocks, order));
  }

  /** Applying a patch. */
  method ApplyAnswerPatch(h: Hashing, d: Document, p: Patch) returns (r: Result<Document, PatchError>)
    ensures r == Apply(h, d, p)
  {
    var refused := Preflight(h, d, p);
    if refused.Some? {
      return Err(refused.value);
    }
    OpenedAgrees(d);
    RunKeepsAgreement(h, ScopeOf(d, p), Opened(d), p.operations);
    var run := RunOperations(h, ScopeOf(d, p), d, p.operations);
    match run {
      case Err(error) =>
        r := Err(error);
      case Ok(w) =>
        if |w.order| == 0 {
          return Err(EmptyDocument);
        }
        var result := Closed(d, p, w);
        if !DocumentShape(result) {
          return Err(InvalidDocument);
        }
        r := Ok(result);
    }
  }
}
