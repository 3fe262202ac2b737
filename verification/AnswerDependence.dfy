/** The order of dependent operations matters: an accepted patch keeps its outcome under exactly
    those reorderings that keep it. */
module AnswerDependence {
  import opened Sequences
  import opened AnswerDocument
  import opened AnswerReordering
  import opened AnswerAcceptance
  import opened AnswerLaws

  // ------------------------------------------------------------- missing anchors

  /** An insertion fails wherever it stands behind the removal of its anchor. */
  lemma {:induction false} CrossingRemovalFails(
    h: Hashing, scope: Scope, w: Work, ops: seq<Operation>, i: nat, j: nat)
    requires DistinctTargets(ops) && i < j < |ops|
    requires ops[i].RemoveBlock? && ops[j].AddBlock? && ops[j].afterBlockId == Some(ops[i].blockId)
    ensures Run(h, scope, w, ops).Err?
  {
    RunsIff(h, scope, w, ops);
    assert RemovedBefore(ops, j, ops[i].blockId);
    forall k | 0 <= k < j && ops[k].AddBlock? ensures ops[k].block.id != ops[i].blockId {
      assert !SameTarget(ops[if i < k then i else k], ops[if i < k then k else i]);
    }
    hide TargetOk;
    assert !OperationOk(h, scope, w, ops, j);
  }

  /** An insertion fails wherever it stands in front of the insertion of its anchor. */
  lemma {:induction false} AnchorTooLateFails(
    h: Hashing, scope: Scope, w: Work, ops: seq<Operation>, i: nat, j: nat)
    requires Agree(w) && DistinctTargets(ops) && i < j < |ops|
    requires ops[i].AddBlock? && ops[j].AddBlock? && ops[i].afterBlockId == Some(ops[j].block.id)
    ensures Run(h, scope, w, ops).Err?
  {
    var anchor := ops[j].block.id;
    forall k | 0 <= k < i && ops[k].AddBlock? ensures ops[k].block.id != anchor {
      assert !SameTarget(ops[k], ops[j]);
    }
    RunsIff(h, scope, w, ops);
    if OperationOk(h, scope, w, ops, j) {
      assert anchor !in Elements(w.order);
      assert !OperationOk(h, scope, w, ops, i);
    }
  }

  // --------------------------------------------------------------- one anchor

  /** What `s` holds of `u` and `v`, in order. */
  function PairIn(s: seq<string>, u: string, v: string): seq<string> {
    Filter(x => x == u || x == v, s)
  }

  lemma {:induction false} PairCons(s: seq<string>, u: string, v: string)
    requires s != []
    ensures PairIn(s, u, v) == (if s[0] == u || s[0] == v then [s[0]] else []) + PairIn(s[1..], u, v)
  {
  }

  lemma {:induction false} FilterPair(s: seq<string>, u: string, v: string)
    requires Distinct(s) && u != v
    ensures Before(s, u, v) <==> PairIn(s, u, v) == [u, v]
  {
    if s != [] {
      FilterPair(s[1..], u, v);
      PairInTail(s, u, v);
      PairCons(s, u, v);
      hide PairIn;
      if s[0] == u {
        FilterOne(s[1..], u, v);
      } else if s[0] == v {
        assert PairIn(s, u, v)[0] == v;
      }
    }
  }

  lemma {:induction false} PairInTail(s: seq<string>, u: string, v: string)
    requires s != [] && Distinct(s) && u != v
    ensures Before(s, u, v) <==> (s[0] == u && v in s[1..]) || Before(s[1..], u, v)
    ensures s[0] !in s[1..]
    ensures Before(s[1..], u, v) ==> u in s[1..] && v in s[1..]
  {
    assert forall i :: 0 < i < |s| ==> s[i] == s[1..][i - 1];
    assert forall i :: 0 <= i < |s| - 1 ==> s[1..][i] == s[i + 1];
  }

  lemma {:induction false} FilterOne(s: seq<string>, u: string, v: string)
    requires Distinct(s) && u !in s
    ensures PairIn(s, u, v) == if v in s then [v] else []
  {
    if s != [] {
      assert s == [s[0]] + s[1..];
      PairCons(s, u, v);
      FilterOne(s[1..], u, v);
      if s[0] == v {
        assert v !in s[1..];
      }
    }
  }

  /** A pair of blocks that is neither inserted nor removed keeps its order. */
  lemma {:induction false} RunKeepsPair(
    h: Hashing, scope: Scope, w: Work, ops: seq<Operation>, u: string, v: string)
    requires Agree(w) && u != v && Run(h, scope, w, ops).Ok?
    requires forall i :: 0 <= i < |ops| && (ops[i].AddBlock? || ops[i].RemoveBlock?) ==>
               Target(ops[i]) != Some(u) && Target(ops[i]) != Some(v)
    ensures Before(Run(h, scope, w, ops).value.order, u, v) <==> Before(w.order, u, v)
  {
    hide Run;
    RunKeepsAgreement(h, scope, w, ops);
    RunKeepsOrder(h, scope, w, ops, x => x == u || x == v);
    FilterPair(w.order, u, v);
    FilterPair(Run(h, scope, w, ops).value.order, u, v);
  }

  lemma {:induction false} InsertedBehindAnchor(order: seq<string>, anchor: Option<string>, id: string)
    requires anchor.Some? ==> anchor.value in order
    ensures var r := InsertAfter(order, anchor, id);
            && id in r && (anchor.Some? ==> Before(r, anchor.value, id))
  {
    hide IndexOf;
    var k := if anchor.None? then -1 else IndexOf(order, anchor.value);
    var r := InsertAfter(order, anchor, id);
    assert r[k + 1] == id;
    assert k >= 0 ==> r[k] == order[k];
  }

  /** A new block is put in front of everything behind its anchor. */
  lemma {:induction false} InsertedBefore(order: seq<string>, anchor: Option<string>, id: string, x: string)
    requires Distinct(order) && x in order
    requires anchor.Some? ==> Before(order, anchor.value, x)
    ensures Before(InsertAfter(order, anchor, id), id, x)
  {
    hide IndexOf;
    var k := if anchor.None? then -1 else IndexOf(order, anchor.value);
    var r := InsertAfter(order, anchor, id);
    var j :| 0 <= j < |order| && order[j] == x && j > k;
    assert r[k + 1] == id && r[j + 1] == x;
  }

  lemma {:induction false} BeforeOneWay(s: seq<string>, u: string, v: string)
    requires Distinct(s) && Before(s, u, v)
    ensures !Before(s, v, u)
  {
  }

  /** The state between the insertions of `x` and of `y` at one anchor: `x` stands behind the
      anchor, and nothing in between inserts or removes either. */
  lemma {:induction false} AnchorHolds(
    h: Hashing, scope: Scope, w: Work, between: seq<Operation>, y: Operation, x: string)
    requires Agree(w) && DistinctTargets(between + [y]) && y.AddBlock? && y.afterBlockId.Some?
    requires y.afterBlockId.value != x && Before(w.order, y.afterBlockId.value, x)
    requires forall i :: 0 <= i < |between| ==> Target(between[i]) != Some(x)
    requires Run(h, scope, w, between + [y]).Ok?
    ensures Run(h, scope, w, between).Ok?
    ensures Before(Run(h, scope, w, between).value.order, y.afterBlockId.value, x)
  {
    var anchor, ops, n := y.afterBlockId.value, between + [y], |between|;
    assert forall i :: 0 <= i < n ==> ops[i] == between[i];
    RunConcat(h, scope, w, between, [y]);
    RunsIff(h, scope, w, ops);
    assert anchor in Elements(w.order);
    forall i | 0 <= i < n && between[i].AddBlock? ensures between[i].block.id != anchor {
      assert OperationOk(h, scope, w, ops, i);
    }
    assert OperationOk(h, scope, w, ops, n) && ops[n] == y;
    assert !AddedBefore(ops, n, anchor);
    forall i | 0 <= i < n && between[i].RemoveBlock? ensures between[i].blockId != anchor {
      assert !RemovedBefore(ops, n, anchor);
      assert ops[i].RemoveBlock?;
    }
    RunKeepsPair(h, scope, w, between, anchor, x);
  }

  /** Of two insertions at one anchor the later one stands first in the end. */
  lemma {:induction false} LaterStandsFirst(
    h: Hashing, scope: Scope, w: Work, ops: seq<Operation>, i: nat, j: nat)
    requires Agree(w) && DistinctTargets(ops) && i < j < |ops|
    requires ops[i].AddBlock? && ops[j].AddBlock? && ops[i].afterBlockId == ops[j].afterBlockId
    requires Run(h, scope, w, ops).Ok?
    ensures Before(Run(h, scope, w, ops).value.order, ops[j].block.id, ops[i].block.id)
  {
    hide *;
    var x, y, between, rest := ops[i], ops[j], ops[i + 1..j], ops[j + 1..];
    CutTwice(ops, i, j);
    OthersElsewhere(ops, i, j, rest);
    ThreeRuns(h, scope, w, ops[..i], [x] + between + [y], rest);
    RunKeepsAgreement(h, scope, w, ops[..i]);
    LaterFirstThenRest(h, scope, Run(h, scope, w, ops[..i]).value, x, between, y, rest);
  }

  lemma {:induction false} CutTwice<T>(s: seq<T>, i: nat, j: nat)
    requires i < j < |s|
    ensures s == s[..i] + (([s[i]] + s[i + 1..j] + [s[j]]) + s[j + 1..])
  {
  }

  lemma {:induction false} ThreeRuns(
    h: Hashing, scope: Scope, w: Work, a: seq<Operation>, b: seq<Operation>, c: seq<Operation>)
    requires Run(h, scope, w, a + (b + c)).Ok?
    ensures var r := Run(h, scope, w, a);
            && r.Ok? && Run(h, scope, r.value, b).Ok?
            && Run(h, scope, w, a + (b + c)) == Run(h, scope, Run(h, scope, r.value, b).value, c)
  {
    hide *;
    RunConcat(h, scope, w, a, b + c);
    RunConcat(h, scope, Run(h, scope, w, a).value, b, c);
  }

  lemma {:induction false} LaterFirstThenRest(
    h: Hashing, scope: Scope, w: Work, x: Operation, between: seq<Operation>, y: Operation, rest: seq<Operation>)
    requires Agree(w) && DistinctTargets([x] + between + [y]) && Run(h, scope, w, [x] + between + [y]).Ok?
    requires x.AddBlock? && y.AddBlock? && x.afterBlockId == y.afterBlockId && x.block.id != y.block.id
    requires forall k :: 0 <= k < |rest| ==> Target(rest[k]) != Some(x.block.id) && Target(rest[k]) != Some(y.block.id)
    requires Run(h, scope, Run(h, scope, w, [x] + between + [y]).value, rest).Ok?
    ensures var middle := Run(h, scope, w, [x] + between + [y]).value;
            Before(Run(h, scope, middle, rest).value.order, y.block.id, x.block.id)
  {
    hide *;
    var middle := Run(h, scope, w, [x] + between + [y]).value;
    RunKeepsAgreement(h, scope, w, [x] + between + [y]);
    TwoInserted(h, scope, w, x, between, y);
    RunKeepsPair(h, scope, middle, rest, y.block.id, x.block.id);
  }

  lemma {:induction false} OthersElsewhere(ops: seq<Operation>, i: nat, j: nat, rest: seq<Operation>)
    requires DistinctTargets(ops) && i < j < |ops| && rest == ops[j + 1..]
    requires ops[i].AddBlock? && ops[j].AddBlock?
    ensures DistinctTargets([ops[i]] + ops[i + 1..j] + [ops[j]])
    ensures forall k :: 0 <= k < |rest| ==>
              Target(rest[k]) != Some(ops[i].block.id) && Target(rest[k]) != Some(ops[j].block.id)
    ensures ops[i].block.id != ops[j].block.id
  {
    assert [ops[i]] + ops[i + 1..j] + [ops[j]] == ops[i..j + 1];
    assert !SameTarget(ops[i], ops[j]);
    forall k | 0 <= k < |rest|
      ensures Target(rest[k]) != Some(ops[i].block.id) && Target(rest[k]) != Some(ops[j].block.id)
    {
      assert rest[k] == ops[j + 1 + k];
      assert !SameTarget(ops[i], ops[j + 1 + k]) && !SameTarget(ops[j], ops[j + 1 + k]);
    }
  }

  lemma {:induction false} TwoInserted(
    h: Hashing, scope: Scope, w: Work, x: Operation, between: seq<Operation>, y: Operation)
    requires Agree(w) && DistinctTargets([x] + between + [y]) && Run(h, scope, w, [x] + between + [y]).Ok?
    requires x.AddBlock? && y.AddBlock? && x.afterBlockId == y.afterBlockId
    ensures Before(Run(h, scope, w, [x] + between + [y]).value.order, y.block.id, x.block.id)
  {
    hide *;
    TailElsewhere(x, between, y);
    SingleRun(h, scope, w, x, between + [y]);
    FirstInserted(h, scope, w, x);
    BehindTheFirst(h, scope, Effect(w, x), between, y, x.block.id);
  }

  /** With `x` behind the anchor of `y`, `y` ends up in front of `x`. */
  lemma {:induction false} BehindTheFirst(
    h: Hashing, scope: Scope, w: Work, between: seq<Operation>, y: Operation, x: string)
    requires Agree(w) && DistinctTargets(between + [y]) && y.AddBlock? && x in w.order
    requires y.afterBlockId.Some? ==> y.afterBlockId.value != x && Before(w.order, y.afterBlockId.value, x)
    requires forall i :: 0 <= i < |between| ==> Target(between[i]) != Some(x)
    requires Run(h, scope, w, between + [y]).Ok?
    ensures Before(Run(h, scope, w, between + [y]).value.order, y.block.id, x)
  {
    hide *;
    RunConcat(h, scope, w, between, [y]);
    RunKeepsAgreement(h, scope, w, between);
    if y.afterBlockId.Some? {
      AnchorHolds(h, scope, w, between, y, x);
    }
    StaysListed(h, scope, w, between, x);
    LastInserted(h, scope, Run(h, scope, w, between).value, y, x);
  }

  lemma {:induction false} SingleRun(h: Hashing, scope: Scope, w: Work, x: Operation, rest: seq<Operation>)
    requires Run(h, scope, w, [x] + rest).Ok?
    ensures Check(h, scope, w, x) == None
    ensures Run(h, scope, w, [x] + rest) == Run(h, scope, Effect(w, x), rest)
  {
    assert ([x] + rest)[1..] == rest;
  }

  lemma {:induction false} FirstInserted(h: Hashing, scope: Scope, w: Work, x: Operation)
    requires Agree(w) && x.AddBlock? && Check(h, scope, w, x) == None
    ensures Agree(Effect(w, x)) && x.block.id in Effect(w, x).order
    ensures x.afterBlockId.Some? ==>
              x.afterBlockId.value != x.block.id && Before(Effect(w, x).order, x.afterBlockId.value, x.block.id)
  {
    EffectKeepsAgreement(h, scope, w, x);
    InsertedBehindAnchor(w.order, x.afterBlockId, x.block.id);
    assert x.block.id !in Elements(w.order);
  }

  lemma {:induction false} LastInserted(h: Hashing, scope: Scope, w: Work, y: Operation, x: string)
    requires Agree(w) && y.AddBlock? && x in w.order && Run(h, scope, w, [y]).Ok?
    requires y.afterBlockId.Some? ==> Before(w.order, y.afterBlockId.value, x)
    ensures Before(Run(h, scope, w, [y]).value.order, y.block.id, x)
  {
    assert [y] + [] == [y];
    SingleRun(h, scope, w, y, []);
    InsertedBefore(w.order, y.afterBlockId, y.block.id, x);
  }

  lemma {:induction false} TailElsewhere(x: Operation, between: seq<Operation>, y: Operation)
    requires x.AddBlock? && DistinctTargets([x] + between + [y])
    ensures [x] + between + [y] == [x] + (between + [y])
    ensures DistinctTargets(between + [y])
    ensures forall i :: 0 <= i < |between| ==> Target(between[i]) != Some(x.block.id)
  {
    var ops, tail := [x] + between + [y], between + [y];
    assert ops == [x] + tail && ops[1..] == tail;
    forall i | 0 <= i < |between| ensures Target(between[i]) != Some(x.block.id) {
      assert ops[i + 1] == between[i];
      assert !SameTarget(ops[0], ops[i + 1]);
    }
  }

  lemma {:induction false} StaysListed(h: Hashing, scope: Scope, w: Work, ops: seq<Operation>, id: string)
    requires Agree(w) && id in w.order && Run(h, scope, w, ops).Ok?
    requires forall i :: 0 <= i < |ops| ==> Target(ops[i]) != Some(id)
    ensures id in Run(h, scope, w, ops).value.order
  {
    RunFrame(h, scope, w, ops, id);
    RunKeepsAgreement(h, scope, w, ops);
    assert id in Elements(w.order);
    assert id in Elements(Run(h, scope, w, ops).value.order);
  }

  // --------------------------------------------------------- which orders matter

  lemma {:induction false} OtherWayRound(ops: seq<Operation>, other: seq<Operation>, x: Operation, y: Operation)
    requires multiset(ops) == multiset(other) && x != y && Before(ops, x, y) && !Before(other, x, y)
    ensures Before(other, y, x)
  {
    MembersByMultiset(ops, other, x);
    MembersByMultiset(ops, other, y);
    var i :| 0 <= i < |other| && other[i] == x;
    var j :| 0 <= j < |other| && other[j] == y;
  }

  /** Two dependent operations that change places make the run fail or order the blocks differently. */
  lemma {:induction false} DependentPairMatters(
    h: Hashing, scope: Scope, w: Work, ops: seq<Operation>, other: seq<Operation>, x: Operation, y: Operation)
    requires Agree(w) && DistinctTargets(ops) && DistinctTargets(other)
    requires Dependent(x, y) && Before(ops, x, y) && Before(other, y, x)
    requires Run(h, scope, w, ops).Ok?
    ensures Run(h, scope, w, other).Ok? ==> Run(h, scope, w, other).value.order != Run(h, scope, w, ops).value.order
  {
    hide Run, Agree, SameTarget;
    var i, j :| 0 <= i < j < |ops| && ops[i] == x && ops[j] == y;
    var k, l :| 0 <= k < l < |other| && other[k] == y && other[l] == x;
    if AnchoredOn(x, y) {
      if y.AddBlock? {
        AnchorTooLateFails(h, scope, w, ops, i, j);
      } else {
        CrossingRemovalFails(h, scope, w, other, k, l);
      }
    } else if AnchoredOn(y, x) {
      if x.AddBlock? {
        AnchorTooLateFails(h, scope, w, other, k, l);
      } else {
        CrossingRemovalFails(h, scope, w, ops, i, j);
      }
    } else if Run(h, scope, w, other).Ok? {
      RunKeepsAgreement(h, scope, w, ops);
      LaterStandsFirst(h, scope, w, ops, i, j);
      LaterStandsFirst(h, scope, w, other, k, l);
      AgreedOrderIsDistinct(Run(h, scope, w, ops).value);
      BeforeOneWay(Run(h, scope, w, ops).value.order, y.block.id, x.block.id);
    }
  }

  lemma {:induction false} AgreedOrderIsDistinct(w: Work)
    requires Agree(w)
    ensures Distinct(w.order)
  {
  }

  /** A rearrangement of operations that go through has the same outcome if and only if it keeps the
      order of dependent ones. */
  lemma {:induction false} RunReorderingIff(
    h: Hashing, scope: Scope, w: Work, ops: seq<Operation>, other: seq<Operation>)
    requires Agree(w) && DistinctTargets(ops) && multiset(ops) == multiset(other)
    requires Run(h, scope, w, ops).Ok?
    ensures Reordering(ops, other) ==> SameOutcome(Run(h, scope, w, ops), Run(h, scope, w, other))
    ensures !Reordering(ops, other) && Run(h, scope, w, other).Ok? ==>
              Run(h, scope, w, other).value.order != Run(h, scope, w, ops).value.order
  {
    hide Run, Agree, Dependent, SameTarget;
    PermutationKeepsDistinctTargets(ops, other);
    DistinctTargetsDistinct(ops);
    DistinctTargetsDistinct(other);
    if Reordering(ops, other) {
      ReorderedRun(h, scope, w, ops, other);
    } else {
      var x, y :| Dependent(x, y) && Before(ops, x, y) && !Before(other, x, y);
      OtherWayRound(ops, other, x, y);
      DependentPairMatters(h, scope, w, ops, other, x, y);
    }
  }

  /** A rearrangement of an accepted patch gives the same document if and only if it keeps the order
      of dependent operations. */
  lemma {:induction false} ReorderingIff(h: Hashing, d: Document, p: Patch, q: Patch)
    requires q == p.(operations := q.operations) && multiset(p.operations) == multiset(q.operations)
    requires Apply(h, d, p).Ok?
    ensures Apply(h, d, q) == Apply(h, d, p) <==> Reordering(p.operations, q.operations)
  {
    hide Reordering, DocumentShape, PatchShape, FirstBadHash, Missing, Run;
    if Reordering(p.operations, q.operations) {
      ReorderedPatch(h, d, p, q);
    } else {
      var r := Apply(h, d, p).value;
      AcceptedWork(h, d, p, r);
      SameScope(d, p, q);
      RunReorderingIff(h, ScopeOf(d, p), Opened(d), p.operations, q.operations);
      if Apply(h, d, q).Ok? {
        ResultOrder(h, d, p, r);
        ResultOrder(h, d, q, Apply(h, d, q).value);
      }
    }
  }
}
