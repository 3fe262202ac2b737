/** Where the blocks that a patch adds end up. */
module AnswerPlacement {
  import opened Sequences
  import opened AnswerDocument
  import opened AnswerReordering
  import opened AnswerAcceptance
  import opened AnswerLaws
  import opened AnswerDependence

  ghost predicate Adds(ops: seq<Operation>, id: string) {
    exists i :: 0 <= i < |ops| && ops[i].AddBlock? && ops[i].block.id == id
  }

  /** `id` stands behind its anchor, if that is there, with nothing between them but blocks that the
      operations have added; without an anchor nothing else stands in front of it. */
  ghost predicate Placed(order: seq<string>, anchor: Option<string>, id: string, ops: seq<Operation>) {
    && id in order
    && (anchor.Some? && anchor.value in order ==> Before(order, anchor.value, id))
    && (forall x :: Before(order, x, id) && (anchor.Some? ==> Before(order, anchor.value, x)) ==> Adds(ops, x))
  }

  /** What is listed in the end and was not added was listed before and never removed. */
  lemma {:induction false} ListedBefore(h: Hashing, scope: Scope, w: Work, ops: seq<Operation>, x: string)
    requires Run(h, scope, w, ops).Ok? && x in Run(h, scope, w, ops).value.order && !Adds(ops, x)
    ensures x in w.order
    ensures forall i :: 0 <= i < |ops| ==> Target(ops[i]) == Some(x) ==> ops[i].ReplaceBlock?
    decreases |ops|
  {
    hide Effect, Check;
    if ops != [] {
      var rest := ops[1..];
      assert forall i :: 0 <= i < |rest| ==> rest[i] == ops[i + 1];
      ListedBefore(h, scope, Effect(w, ops[0]), rest, x);
      OrderMember(h, scope, w, ops[0], x);
      assert forall i :: 0 < i < |ops| ==> ops[i] == rest[i - 1];
    }
  }

  /** A block that is listed cannot be added, as long as no two operations share a target. */
  lemma {:induction false} ListedIsNotAdded(h: Hashing, scope: Scope, w: Work, ops: seq<Operation>, x: string)
    requires Agree(w) && DistinctTargets(ops) && Run(h, scope, w, ops).Ok? && x in w.order
    ensures !Adds(ops, x)
  {
    hide Run, DistinctTargets, AnchorOk;
    RunsIff(h, scope, w, ops);
    assert x in Elements(w.order);
    forall i | 0 <= i < |ops| && ops[i].AddBlock? ensures ops[i].block.id != x {
      assert OperationOk(h, scope, w, ops, i);
    }
  }

  lemma {:induction false} BetweenNothing(order: seq<string>, anchor: Option<string>, id: string, x: string)
    requires Distinct(InsertAfter(order, anchor, id))
    requires anchor.Some? ==> anchor.value in order
    ensures var r := InsertAfter(order, anchor, id);
            !(Before(r, x, id) && (anchor.Some? ==> Before(r, anchor.value, x)))
  {
    hide IndexOf;
    var k := if anchor.None? then -1 else IndexOf(order, anchor.value);
    var r := InsertAfter(order, anchor, id);
    assert r[k + 1] == id;
    assert k >= 0 ==> r[k] == order[k];
  }

  /** A pair of listed blocks that were not added stands in the order it had. */
  lemma {:induction false} PairStays(h: Hashing, scope: Scope, w: Work, ops: seq<Operation>, u: string, v: string)
    requires Agree(w) && Run(h, scope, w, ops).Ok? && !Adds(ops, u) && !Adds(ops, v)
    requires Before(Run(h, scope, w, ops).value.order, u, v) && u != v
    ensures Before(w.order, u, v)
  {
    hide Run, Agree;
    var order := Run(h, scope, w, ops).value.order;
    BeforeMembers(order, u, v);
    ListedBefore(h, scope, w, ops, u);
    ListedBefore(h, scope, w, ops, v);
    RunKeepsPair(h, scope, w, ops, u, v);
  }

  lemma {:induction false} BeforeDiffers(order: seq<string>, u: string, v: string)
    requires Distinct(order) && Before(order, u, v)
    ensures u != v
  {
  }

  /** An inserted block keeps its place through the operations that follow. */
  lemma {:induction false} PlacedThrough(
    h: Hashing, scope: Scope, w: Work, x: Operation, rest: seq<Operation>, y: string)
    requires Agree(w) && x.AddBlock? && Check(h, scope, w, x) == None
    requires DistinctTargets(rest) && forall i :: 0 <= i < |rest| ==> Target(rest[i]) != Some(x.block.id)
    requires Run(h, scope, Effect(w, x), rest).Ok?
    ensures var order := Run(h, scope, Effect(w, x), rest).value.order;
            && x.block.id in order
            && (x.afterBlockId.Some? && x.afterBlockId.value in order ==>
                  Before(order, x.afterBlockId.value, x.block.id))
            && (Before(order, y, x.block.id) && (x.afterBlockId.Some? ==> Before(order, x.afterBlockId.value, y))
                ==> Adds(rest, y))
  {
    hide Run, DistinctTargets, Before;
    var id, anchor, first := x.block.id, x.afterBlockId, Effect(w, x);
    var last := Run(h, scope, first, rest).value;
    EffectKeepsAgreement(h, scope, w, x);
    FirstInserted(h, scope, w, x);
    RunKeepsAgreement(h, scope, first, rest);
    AgreedOrderIsDistinct(first);
    AgreedOrderIsDistinct(last);
    StaysListed(h, scope, first, rest, id);
    ListedIsNotAdded(h, scope, first, rest, id);
    if anchor.Some? && anchor.value in last.order {
      InsertMember(w.order, anchor, id, anchor.value);
      ListedIsNotAdded(h, scope, first, rest, anchor.value);
      ListedBefore(h, scope, first, rest, anchor.value);
      RunKeepsPair(h, scope, first, rest, anchor.value, id);
    }
    if Before(last.order, y, id) && (anchor.Some? ==> Before(last.order, anchor.value, y)) && !Adds(rest, y) {
      BeforeDiffers(last.order, y, id);
      PairStays(h, scope, first, rest, y, id);
      if anchor.Some? {
        InsertMember(w.order, anchor, id, anchor.value);
        ListedIsNotAdded(h, scope, first, rest, anchor.value);
        BeforeDiffers(last.order, anchor.value, y);
        PairStays(h, scope, first, rest, anchor.value, y);
      }
      BetweenNothing(w.order, anchor, id, y);
    }
  }

  /** In the result of an accepted patch every added block stands right behind its anchor, if that is
      still there, or at the front, with only added blocks in between. */
  lemma {:induction false} AddedBlocksStand(h: Hashing, d: Document, p: Patch, r: Document, k: nat)
    requires Accepted(h, d, p, r) && k < |p.operations| && p.operations[k].AddBlock?
    ensures Placed(BlockIds(r.blocks), p.operations[k].afterBlockId, p.operations[k].block.id, p.operations)
  {
    hide Accepted, Run, DistinctTargets, Before, DocumentShape, PatchShape, Missing, FirstBadHash, Agree, Opened;
    AcceptedWork(h, d, p, r);
    ResultOrder(h, d, p, r);
    var ops, scope := p.operations, ScopeOf(d, p);
    RunPlaces(h, scope, Opened(d), ops, k);
  }

  lemma {:induction false} RunPlaces(h: Hashing, scope: Scope, w: Work, ops: seq<Operation>, k: nat)
    requires Agree(w) && DistinctTargets(ops) && k < |ops| && ops[k].AddBlock? && Run(h, scope, w, ops).Ok?
    ensures Placed(Run(h, scope, w, ops).value.order, ops[k].afterBlockId, ops[k].block.id, ops)
  {
    var x, rest := ops[k], ops[k + 1..];
    CutOnce(ops, k);
    RestElsewhere(ops, k, rest);
    hide Run, Agree, DistinctTargets, Before, Check, Effect;
    RunConcat(h, scope, w, ops[..k], [x] + rest);
    RunKeepsAgreement(h, scope, w, ops[..k]);
    var a := Run(h, scope, w, ops[..k]).value;
    SingleRun(h, scope, a, x, rest);
    forall y ensures Adds(rest, y) ==> Adds(ops, y) {
      AddsInTail(ops, k, rest, y);
    }
    var order := Run(h, scope, w, ops).value.order;
    PlacedThrough(h, scope, a, x, rest, x.block.id);
    forall y | Before(order, y, x.block.id) && (x.afterBlockId.Some? ==> Before(order, x.afterBlockId.value, y))
      ensures Adds(ops, y)
    {
      PlacedThrough(h, scope, a, x, rest, y);
    }
  }

  lemma {:induction false} CutOnce<T>(s: seq<T>, k: nat)
    requires k < |s|
    ensures s == s[..k] + ([s[k]] + s[k + 1..])
  {
  }

  lemma {:induction false} AddsInTail(ops: seq<Operation>, k: nat, rest: seq<Operation>, id: string)
    requires k < |ops| && rest == ops[k + 1..]
    ensures Adds(rest, id) ==> Adds(ops, id)
  {
    assert forall i :: 0 <= i < |rest| ==> rest[i] == ops[k + 1 + i];
  }

  lemma {:induction false} RestElsewhere(ops: seq<Operation>, k: nat, rest: seq<Operation>)
    requires DistinctTargets(ops) && k < |ops| && ops[k].AddBlock? && rest == ops[k + 1..]
    ensures DistinctTargets(rest)
    ensures forall i :: 0 <= i < |rest| ==> Target(rest[i]) != Some(ops[k].block.id)
  {
    assert forall i :: 0 <= i < |rest| ==> rest[i] == ops[k + 1 + i];
    forall i | 0 <= i < |rest| ensures Target(rest[i]) != Some(ops[k].block.id) {
      assert !SameTarget(ops[k], ops[k + 1 + i]);
    }
  }
}
