/** Operations of one patch may be reordered as long as dependent ones keep their order. */
module AnswerReordering {
  import opened Sequences
  import opened AnswerDocument
  import SemanticPath

  /** `b` is an insertion anchored on the block that `a` inserts or removes. */
  predicate AnchoredOn(b: Operation, a: Operation) {
    b.AddBlock? && (a.AddBlock? || a.RemoveBlock?) && b.afterBlockId == Target(a)
  }

  /** Two operations whose order matters: two insertions at one anchor, or an insertion anchored on
      a block and the insertion or removal of that block. */
  predicate Dependent(a: Operation, b: Operation) {
    || (a.AddBlock? && b.AddBlock? && a.afterBlockId == b.afterBlockId)
    || AnchoredOn(a, b)
    || AnchoredOn(b, a)
  }

  /** Two operations on one path or on one block. */
  predicate SameTarget(a: Operation, b: Operation) {
    || (a.SetState? && b.SetState? && a.path == b.path)
    || (Target(a).Some? && Target(a) == Target(b))
  }

  predicate DistinctTargets(ops: seq<Operation>) {
    forall i, j :: 0 <= i < j < |ops| ==> !SameTarget(ops[i], ops[j])
  }

  ghost predicate SameOutcome<T>(a: Result<T, PatchError>, b: Result<T, PatchError>) {
    a.Ok? == b.Ok? && (a.Ok? ==> a.value == b.value)
  }

  /** `b` is a rearrangement of `a` in which dependent operations stand in the same order. */
  ghost predicate Reordering(a: seq<Operation>, b: seq<Operation>) {
    && multiset(a) == multiset(b)
    && forall x, y :: Dependent(x, y) && Before(a, x, y) ==> Before(b, x, y)
  }

  // --------------------------------------------------- insertion and removal

  lemma {:induction false} InsertCons(head: string, rest: seq<string>, anchor: string, id: string)
    ensures head == anchor ==> InsertAfter([head] + rest, Some(anchor), id) == [head, id] + rest
    ensures head != anchor && anchor in rest ==>
            InsertAfter([head] + rest, Some(anchor), id) == [head] + InsertAfter(rest, Some(anchor), id)
  {
    var order := [head] + rest;
    assert order[1..] == rest;
    if head == anchor {
      assert IndexOf(order, anchor) == 0;
      assert order[..1] == [head];
    } else if anchor in rest {
      var k := IndexOf(rest, anchor);
      assert IndexOf(order, anchor) == k + 1;
      assert order[..k + 2] == [head] + rest[..k + 1];
      assert order[k + 2..] == rest[k + 1..];
    }
  }

  lemma {:induction false} WithoutCons(head: string, rest: seq<string>, id: string)
    ensures Without([head] + rest, id) == (if head == id then [] else [head]) + Without(rest, id)
  {
    assert ([head] + rest)[1..] == rest;
  }

  /** Removing one block and inserting another after a third commute. */
  lemma {:induction false} InsertWithout(order: seq<string>, anchor: Option<string>, id: string, gone: string)
    requires id != gone && anchor != Some(gone)
    requires anchor.Some? ==> anchor.value in order
    ensures Without(InsertAfter(order, anchor, id), gone) == InsertAfter(Without(order, gone), anchor, id)
    ensures anchor.Some? ==> anchor.value in Without(order, gone)
  {
    if anchor.None? {
      assert InsertAfter(order, anchor, id) == [id] + order;
      WithoutCons(id, order, gone);
      assert InsertAfter(Without(order, gone), anchor, id) == [id] + Without(order, gone);
    } else {
      var head, rest, a := order[0], order[1..], anchor.value;
      assert order == [head] + rest;
      FilterMember(x => x != gone, order, a);
      WithoutCons(head, rest, gone);
      InsertCons(head, rest, a, id);
      if head == a {
        assert [head, id] + rest == [head] + ([id] + rest);
        WithoutCons(head, [id] + rest, gone);
        WithoutCons(id, rest, gone);
        InsertCons(head, Without(rest, gone), a, id);
        assert [head] + ([id] + Without(rest, gone)) == [head, id] + Without(rest, gone);
      } else {
        InsertWithout(rest, anchor, id, gone);
        WithoutCons(head, InsertAfter(rest, anchor, id), gone);
        if head != gone {
          InsertCons(head, Without(rest, gone), a, id);
        } else {
          assert Without(order, gone) == Without(rest, gone);
        }
      }
    }
  }

  lemma {:induction false} WithoutCommutes(order: seq<string>, a: string, b: string)
    ensures Without(Without(order, a), b) == Without(Without(order, b), a)
  {
    if order != [] {
      var head, rest := order[0], order[1..];
      assert order == [head] + rest;
      WithoutCommutes(rest, a, b);
      WithoutCons(head, rest, a);
      WithoutCons(head, rest, b);
      WithoutCons(head, Without(rest, a), b);
      WithoutCons(head, Without(rest, b), a);
      assert [] + Without(rest, a) == Without(rest, a);
      assert [] + Without(rest, b) == Without(rest, b);
    }
  }

  lemma {:induction false} InsertMember(order: seq<string>, anchor: Option<string>, id: string, x: string)
    ensures x in InsertAfter(order, anchor, id) <==> x in order || x == id
  {
    hide IndexOf;
    var k := if anchor.None? then -1 else IndexOf(order, anchor.value);
    assert order == order[..k + 1] + order[k + 1..];
  }

  /** Two insertions at different anchors commute, unless one is the anchor of the other. */
  lemma {:induction false} InsertsCommute(
    order: seq<string>, x: Option<string>, a: string, y: Option<string>, b: string)
    requires x != y && x != Some(b) && y != Some(a)
    requires (x.Some? ==> x.value in order) && (y.Some? ==> y.value in order)
    ensures InsertAfter(InsertAfter(order, x, a), y, b) == InsertAfter(InsertAfter(order, y, b), x, a)
  {
    if x.None? {
      InsertFrontCommutes(order, a, y.value, b);
    } else if y.None? {
      InsertFrontCommutes(order, b, x.value, a);
    } else {
      var head, rest := order[0], order[1..];
      assert order == [head] + rest;
      InsertCons(head, rest, x.value, a);
      InsertCons(head, rest, y.value, b);
      if head == x.value {
        InsertBehindHead(head, rest, a, y.value, b);
      } else if head == y.value {
        InsertBehindHead(head, rest, b, x.value, a);
      } else {
        InsertsCommute(rest, x, a, y, b);
        InsertMember(rest, x, a, y.value);
        InsertMember(rest, y, b, x.value);
        hide InsertAfter;
        InsertCons(head, InsertAfter(rest, x, a), y.value, b);
        InsertCons(head, InsertAfter(rest, y, b), x.value, a);
      }
    }
  }

  lemma {:induction false} InsertFrontCommutes(order: seq<string>, a: string, y: string, b: string)
    requires y != a && y in order
    ensures InsertAfter(InsertAfter(order, None, a), Some(y), b) == InsertAfter(InsertAfter(order, Some(y), b), None, a)
  {
    InsertCons(a, order, y, b);
    assert InsertAfter(order, None, a) == [a] + order;
    assert InsertAfter(InsertAfter(order, Some(y), b), None, a) == [a] + InsertAfter(order, Some(y), b);
  }

  lemma {:induction false} InsertBehindHead(head: string, rest: seq<string>, a: string, y: string, b: string)
    requires y != a && y != head && y in rest
    ensures InsertAfter([head, a] + rest, Some(y), b)
         == InsertAfter([head] + InsertAfter(rest, Some(y), b), Some(head), a)
  {
    hide InsertAfter, IndexOf;
    assert [head, a] + rest == [head] + ([a] + rest);
    InsertCons(head, [a] + rest, y, b);
    InsertCons(a, rest, y, b);
    InsertCons(head, InsertAfter(rest, Some(y), b), head, a);
    assert [head] + ([a] + InsertAfter(rest, Some(y), b)) == [head, a] + InsertAfter(rest, Some(y), b);
  }

  // -------------------------------------------------------- adjacent exchange

  /** An operation is checked alike before and after an independent one. */
  lemma {:induction false} CheckUnaffected(h: Hashing, scope: Scope, w: Work, a: Operation, b: Operation)
    requires Agree(w) && Check(h, scope, w, a) == None
    requires !SameTarget(a, b) && !Dependent(a, b)
    ensures Check(h, scope, Effect(w, a), b) == Check(h, scope, w, b)
  {
    hide HashOk, StateValueHash, Agree, InsertAfter, Without;
    if a.RemoveBlock? && b.AddBlock? && b.afterBlockId.Some? {
      WithoutMember(w.order, a.blockId, b.afterBlockId.value);
    } else if a.AddBlock? && b.AddBlock? && b.afterBlockId.Some? {
      InsertMember(w.order, a.afterBlockId, a.block.id, b.afterBlockId.value);
    }
  }

  lemma {:induction false} WithoutMember(order: seq<string>, gone: string, x: string)
    ensures x in Without(order, gone) <==> x in order && x != gone
  {
    FilterMember(y => y != gone, order, x);
  }

  lemma {:induction false} AnchorIsListed(h: Hashing, scope: Scope, w: Work, op: Operation)
    requires Check(h, scope, w, op) == None && op.AddBlock? && op.afterBlockId.Some?
    ensures op.afterBlockId.value in w.order
  {
  }

  lemma {:induction false} OrdersCommute(h: Hashing, scope: Scope, w: Work, a: Operation, b: Operation)
    requires Check(h, scope, w, a) == None && Check(h, scope, w, b) == None
    requires !SameTarget(a, b) && !Dependent(a, b)
    ensures Effect(Effect(w, a), b).order == Effect(Effect(w, b), a).order
  {
    if a.AddBlock? && b.AddBlock? {
      if a.afterBlockId.Some? {
        AnchorIsListed(h, scope, w, a);
      }
      if b.afterBlockId.Some? {
        AnchorIsListed(h, scope, w, b);
      }
      hide Check, InsertAfter, Without;
      InsertsCommute(w.order, a.afterBlockId, a.block.id, b.afterBlockId, b.block.id);
    } else if a.AddBlock? && b.RemoveBlock? {
      if a.afterBlockId.Some? {
        AnchorIsListed(h, scope, w, a);
      }
      hide Check, InsertAfter, Without;
      InsertWithout(w.order, a.afterBlockId, a.block.id, b.blockId);
    } else if a.RemoveBlock? && b.AddBlock? {
      if b.afterBlockId.Some? {
        AnchorIsListed(h, scope, w, b);
      }
      hide Check, InsertAfter, Without;
      InsertWithout(w.order, b.afterBlockId, b.block.id, a.blockId);
    } else if a.RemoveBlock? && b.RemoveBlock? {
      hide Check, InsertAfter, Without;
      WithoutCommutes(w.order, a.blockId, b.blockId);
    } else {
      hide Check, InsertAfter, Without;
    }
  }

  /** Files a value under a key, or removes the key. */
  function Put<T>(m: map<string, T>, key: string, value: Option<T>): map<string, T> {
    if value.Some? then m[key := value.value] else m - {key}
  }

  lemma {:induction false} PutsCommute<T>(m: map<string, T>, k: string, v: Option<T>, l: string, u: Option<T>)
    requires k != l
    ensures Put(Put(m, k, v), l, u) == Put(Put(m, l, u), k, v)
  {
    assert Put(Put(m, k, v), l, u) == Put(Put(m, l, u), k, v);
  }

  /** The new content of the block that an operation changes. */
  function Content(op: Operation): Option<Block> {
    match op
    case ReplaceBlock(block, _) => Some(block)
    case AddBlock(block, _) => Some(block)
    case _ => None
  }

  lemma {:induction false} EffectOnMaps(w: Work, op: Operation)
    ensures Effect(w, op).blocks == if Target(op).None? then w.blocks else Put(w.blocks, Target(op).value, Content(op))
    ensures Effect(w, op).state == if op.SetState? then Put(w.state, op.path, Some(op.value)) else w.state
    ensures Effect(w, op).provenance
         == if op.SetState? then Put(w.provenance, op.path, Some(op.provenance)) else w.provenance
  {
  }

  lemma {:induction false} MapsCommute(w: Work, a: Operation, b: Operation)
    requires !SameTarget(a, b)
    ensures Effect(Effect(w, a), b).blocks == Effect(Effect(w, b), a).blocks
    ensures Effect(Effect(w, a), b).state == Effect(Effect(w, b), a).state
    ensures Effect(Effect(w, a), b).provenance == Effect(Effect(w, b), a).provenance
  {
    hide Effect, Put, Content;
    EffectOnMaps(w, a);
    EffectOnMaps(w, b);
    EffectOnMaps(Effect(w, a), b);
    EffectOnMaps(Effect(w, b), a);
    if Target(a).Some? && Target(b).Some? {
      PutsCommute(w.blocks, Target(a).value, Content(a), Target(b).value, Content(b));
    }
    if a.SetState? && b.SetState? {
      PutsCommute(w.state, a.path, Some(a.value), b.path, Some(b.value));
      PutsCommute(w.provenance, a.path, Some(a.provenance), b.path, Some(b.provenance));
    }
  }

  lemma {:induction false} EffectsCommute(h: Hashing, scope: Scope, w: Work, a: Operation, b: Operation)
    requires Check(h, scope, w, a) == None && Check(h, scope, w, b) == None
    requires !SameTarget(a, b) && !Dependent(a, b)
    ensures Effect(Effect(w, a), b) == Effect(Effect(w, b), a)
  {
    hide Effect, Check, SameTarget, Dependent;
    OrdersCommute(h, scope, w, a, b);
    MapsCommute(w, a, b);
  }

  lemma {:induction false} ExchangeAdjacent(
    h: Hashing, scope: Scope, w: Work, a: Operation, b: Operation, rest: seq<Operation>)
    requires Agree(w) && !SameTarget(a, b) && !SameTarget(b, a) && !Dependent(a, b) && !Dependent(b, a)
    ensures SameOutcome(Run(h, scope, w, [a, b] + rest), Run(h, scope, w, [b, a] + rest))
  {
    hide Agree, Effect, Check, SameTarget, Dependent;
    RunTwo(h, scope, w, a, b, rest);
    RunTwo(h, scope, w, b, a, rest);
    if Check(h, scope, w, a) == None {
      CheckUnaffected(h, scope, w, a, b);
    }
    if Check(h, scope, w, b) == None {
      CheckUnaffected(h, scope, w, b, a);
    }
    if Check(h, scope, w, a) == None && Check(h, scope, w, b) == None {
      EffectsCommute(h, scope, w, a, b);
    }
  }

  lemma {:induction false} RunTwo(h: Hashing, scope: Scope, w: Work, a: Operation, b: Operation, rest: seq<Operation>)
    ensures Run(h, scope, w, [a, b] + rest) ==
      match Check(h, scope, w, a)
      case Some(error) => Err(error)
      case None =>
        match Check(h, scope, Effect(w, a), b)
        case Some(error) => Err(error)
        case None => Run(h, scope, Effect(Effect(w, a), b), rest)
  {
    var ops := [a, b] + rest;
    assert ops[1..] == [b] + rest;
    assert ops[1..][1..] == rest;
  }

  lemma {:induction false} RunConcat(h: Hashing, scope: Scope, w: Work, a: seq<Operation>, b: seq<Operation>)
    ensures Run(h, scope, w, a + b) ==
      match Run(h, scope, w, a)
      case Err(error) => Err(error)
      case Ok(after) => Run(h, scope, after, b)
    decreases |a|
  {
    if a == [] {
      assert a + b == b;
    } else {
      assert (a + b)[1..] == a[1..] + b;
      if Check(h, scope, w, a[0]) == None {
        RunConcat(h, scope, Effect(w, a[0]), a[1..], b);
      }
    }
  }

  predicate IndependentOfAll(x: Operation, ops: seq<Operation>) {
    forall i :: 0 <= i < |ops| ==>
      !SameTarget(ops[i], x) && !SameTarget(x, ops[i]) && !Dependent(ops[i], x) && !Dependent(x, ops[i])
  }

  /** An operation independent of all before it can be made the first. */
  lemma {:induction false} MoveToFront(
    h: Hashing, scope: Scope, w: Work, before: seq<Operation>, x: Operation, rest: seq<Operation>)
    requires Agree(w) && IndependentOfAll(x, before)
    ensures SameOutcome(Run(h, scope, w, before + [x] + rest), Run(h, scope, w, [x] + before + rest))
    decreases |before|
  {
    hide Agree, Effect, Check, SameTarget, Dependent;
    if before == [] {
      assert before + [x] + rest == [x] + before + rest;
    } else {
      var front, last := before[..|before| - 1], before[|before| - 1];
      assert before + [x] + rest == front + ([last, x] + rest);
      RunConcat(h, scope, w, front, [last, x] + rest);
      RunConcat(h, scope, w, front, [x, last] + rest);
      RunKeepsAgreement(h, scope, w, front);
      if Run(h, scope, w, front).Ok? {
        ExchangeAdjacent(h, scope, Run(h, scope, w, front).value, last, x, rest);
      }
      assert front + ([x, last] + rest) == front + [x] + ([last] + rest);
      MoveToFront(h, scope, w, front, x, [last] + rest);
      assert [x] + front + ([last] + rest) == [x] + before + rest;
    }
  }

  // ----------------------------------------------------------- permutations

  lemma {:induction false} DistinctTargetsDistinct(ops: seq<Operation>)
    requires DistinctTargets(ops)
    ensures Distinct(ops)
  {
    forall i, j | 0 <= i < j < |ops| ensures ops[i] != ops[j] {
      assert !SameTarget(ops[i], ops[j]);
    }
  }

  /** Splitting at the position of an operation. */
  lemma {:induction false} SplitAt<T>(s: seq<T>, x: T) returns (before: seq<T>, after: seq<T>)
    requires x in s
    ensures s == before + [x] + after
  {
    var i :| 0 <= i < |s| && s[i] == x;
    before, after := s[..i], s[i + 1..];
  }

  lemma {:induction false} BeforeInHalves<T(!new)>(before: seq<T>, x: T, after: seq<T>, a: T, b: T)
    requires Before(before + after, a, b)
    ensures Before(before + [x] + after, a, b)
  {
    var s, t := before + after, before + [x] + after;
    var i, j :| 0 <= i < j < |s| && s[i] == a && s[j] == b;
    var k, l := if i < |before| then i else i + 1, if j < |before| then j else j + 1;
    assert t[k] == a && t[l] == b;
  }

  lemma {:induction false} BeforeInTail<T(!new)>(s: seq<T>, a: T, b: T)
    requires s != [] && Distinct(s) && Before(s, a, b) && a != s[0]
    ensures Before(s[1..], a, b)
  {
    var i, j :| 0 <= i < j < |s| && s[i] == a && s[j] == b;
    assert s[1..][i - 1] == a && s[1..][j - 1] == b;
  }

  /** The first operation of a reordering is independent of everything it overtakes. */
  lemma {:induction false} FirstIsIndependent(
    ops: seq<Operation>, other: seq<Operation>, before: seq<Operation>, after: seq<Operation>)
    requires DistinctTargets(ops) && Distinct(other) && Reordering(ops, other)
    requires other != [] && ops == before + [other[0]] + after
    ensures IndependentOfAll(other[0], before)
  {
    var x := other[0];
    forall i | 0 <= i < |before|
      ensures !SameTarget(before[i], x) && !SameTarget(x, before[i])
      ensures !Dependent(before[i], x) && !Dependent(x, before[i])
    {
      assert ops[i] == before[i] && ops[|before|] == x;
      assert Before(ops, before[i], x);
      NothingBeforeFirst(other, before[i]);
    }
  }

  lemma {:induction false} NothingBeforeFirst<T(!new)>(s: seq<T>, a: T)
    requires s != [] && Distinct(s)
    ensures !Before(s, a, s[0])
  {
    assert forall j :: 0 < j < |s| ==> s[0] != s[j];
  }

  lemma {:induction false} RestIsPermutation<T>(before: seq<T>, x: T, after: seq<T>, tail: seq<T>)
    requires multiset(before + [x] + after) == multiset([x] + tail)
    ensures multiset(before + after) == multiset(tail)
  {
    assert multiset(before + [x] + after) == multiset(before) + multiset{x} + multiset(after);
    assert multiset([x] + tail) == multiset{x} + multiset(tail);
    assert multiset(before + after) == multiset(before + [x] + after) - multiset{x};
    assert multiset(tail) == multiset([x] + tail) - multiset{x};
  }

  lemma {:induction false} RestHasDistinctTargets(before: seq<Operation>, x: Operation, after: seq<Operation>)
    requires DistinctTargets(before + [x] + after)
    ensures DistinctTargets(before + after)
  {
    hide SameTarget;
    var ops, s := before + [x] + after, before + after;
    forall i, j | 0 <= i < j < |s| ensures !SameTarget(s[i], s[j]) {
      var k, l := if i < |before| then i else i + 1, if j < |before| then j else j + 1;
      assert s[i] == ops[k] && s[j] == ops[l];
    }
  }

  lemma {:induction false} RestReorders(
    before: seq<Operation>, x: Operation, after: seq<Operation>, tail: seq<Operation>)
    requires Distinct([x] + tail) && x !in before + after
    requires Reordering(before + [x] + after, [x] + tail)
    ensures Reordering(before + after, tail)
  {
    hide SameTarget, Dependent, Before;
    RestIsPermutation(before, x, after, tail);
    forall a, b | Dependent(a, b) && Before(before + after, a, b) ensures Before(tail, a, b) {
      BeforeInHalves(before, x, after, a, b);
      BeforeMembers(before + after, a, b);
      BeforeInTail([x] + tail, a, b);
      assert ([x] + tail)[1..] == tail;
    }
  }

  lemma {:induction false} BeforeMembers<T(!new)>(s: seq<T>, a: T, b: T)
    requires Before(s, a, b)
    ensures a in s && b in s
  {
  }

  /** Any reordering runs to the same working copy, or fails whenever the original fails. */
  lemma {:induction false} ReorderedRun(h: Hashing, scope: Scope, w: Work, ops: seq<Operation>, other: seq<Operation>)
    requires Agree(w) && DistinctTargets(ops) && Distinct(other) && Reordering(ops, other)
    ensures SameOutcome(Run(h, scope, w, ops), Run(h, scope, w, other))
    decreases |other|
  {
    hide Agree, Effect, Check;
    if other == [] {
      assert |multiset(ops)| == |ops| == 0;
    } else {
      var x, tail := other[0], other[1..];
      assert other == [x] + tail;
      MembersByMultiset(ops, other, x);
      var before, after := SplitAt(ops, x);
      FirstIsIndependent(ops, other, before, after);
      RestHasDistinctTargets(before, x, after);
      OnceOnly(ops, before, x, after);
      RestReorders(before, x, after, tail);
      MoveToFront(h, scope, w, before, x, after);
      assert [x] + before + after == [x] + (before + after);
      assert ([x] + (before + after))[1..] == before + after;
      if Check(h, scope, w, x) == None {
        EffectKeepsAgreement(h, scope, w, x);
        ReorderedRun(h, scope, Effect(w, x), before + after, tail);
      }
    }
  }

  lemma {:induction false} OnceOnly(ops: seq<Operation>, before: seq<Operation>, x: Operation, after: seq<Operation>)
    requires DistinctTargets(ops) && ops == before + [x] + after
    ensures x !in before + after
  {
    DistinctTargetsDistinct(ops);
    assert ops[|before|] == x;
    assert forall i :: 0 <= i < |before| ==> ops[i] == before[i];
    assert forall i :: 0 <= i < |after| ==> ops[|before| + 1 + i] == after[i];
  }

  // ------------------------------------------------------ what the shape gives

  lemma {:induction false} PathListed(ops: seq<Operation>, path: string)
    ensures path in StatePaths(ops) <==> exists i :: 0 <= i < |ops| && ops[i].SetState? && ops[i].path == path
  {
    if ops != [] {
      PathListed(ops[1..], path);
      if i :| 0 <= i < |ops| && ops[i].SetState? && ops[i].path == path && i > 0 {
        assert ops[1..][i - 1] == ops[i];
      }
      if i :| 0 <= i < |ops[1..]| && ops[1..][i].SetState? && ops[1..][i].path == path {
        assert ops[i + 1] == ops[1..][i];
      }
    }
  }

  lemma {:induction false} TargetListed(ops: seq<Operation>, id: string)
    ensures id in TargetIds(ops) <==> exists i :: 0 <= i < |ops| && Target(ops[i]) == Some(id)
  {
    if ops != [] {
      TargetListed(ops[1..], id);
      if i :| 0 <= i < |ops| && Target(ops[i]) == Some(id) && i > 0 {
        assert ops[1..][i - 1] == ops[i];
      }
      if i :| 0 <= i < |ops[1..]| && Target(ops[1..][i]) == Some(id) {
        assert ops[i + 1] == ops[1..][i];
      }
    }
  }

  /** The two uniqueness rules of the schema say that no two operations share a target. */
  lemma {:induction false} UniquenessIsDistinctTargets(ops: seq<Operation>)
    ensures Distinct(StatePaths(ops)) && Distinct(TargetIds(ops)) <==> DistinctTargets(ops)
  {
    if ops != [] {
      var rest := ops[1..];
      UniquenessIsDistinctTargets(rest);
      HeadIsFresh(ops);
      assert forall i, j :: 0 < i < j < |ops| ==> rest[i - 1] == ops[i] && rest[j - 1] == ops[j];
      if DistinctTargets(ops) {
        forall i, j | 0 <= i < j < |rest| ensures !SameTarget(rest[i], rest[j]) {
          assert rest[i] == ops[i + 1] && rest[j] == ops[j + 1];
        }
      }
    }
  }

  lemma {:induction false} DistinctCons<T>(x: T, s: seq<T>)
    ensures Distinct([x] + s) <==> x !in s && Distinct(s)
  {
    var t := [x] + s;
    assert forall i :: 0 <= i < |s| ==> t[i + 1] == s[i];
    if Distinct(t) {
      forall i, j | 0 <= i < j < |s| ensures s[i] != s[j] {
        assert t[i + 1] != t[j + 1];
      }
      forall i | 0 <= i < |s| ensures s[i] != x {
        assert t[0] != t[i + 1];
      }
    }
  }

  /** The first operation has a target of its own exactly when the rest does not list that target. */
  lemma {:induction false} HeadTarget(ops: seq<Operation>)
    requires ops != []
    ensures (forall j :: 0 < j < |ops| ==> !SameTarget(ops[0], ops[j]))
            <==> if ops[0].SetState? then ops[0].path !in StatePaths(ops[1..])
                 else Target(ops[0]).value !in TargetIds(ops[1..])
  {
    var head, rest := ops[0], ops[1..];
    if head.SetState? {
      PathListed(rest, head.path);
    } else {
      TargetListed(rest, Target(head).value);
    }
    hide StatePaths, TargetIds;
    assert forall j :: 0 < j < |ops| ==> ops[j] == rest[j - 1];
    assert forall j :: 0 <= j < |rest| ==> rest[j] == ops[j + 1];
  }

  lemma {:induction false} HeadIsFresh(ops: seq<Operation>)
    requires ops != []
    ensures Distinct(StatePaths(ops)) && Distinct(TargetIds(ops))
            <==> && Distinct(StatePaths(ops[1..])) && Distinct(TargetIds(ops[1..]))
                 && forall j :: 0 < j < |ops| ==> !SameTarget(ops[0], ops[j])
  {
    var head, rest := ops[0], ops[1..];
    assert [] + StatePaths(rest) == StatePaths(rest) && [] + TargetIds(rest) == TargetIds(rest);
    HeadTarget(ops);
    hide SameTarget, Distinct;
    if head.SetState? {
      DistinctCons(head.path, StatePaths(rest));
    } else {
      DistinctCons(Target(head).value, TargetIds(rest));
    }
  }

  /** A permutation of operations with distinct targets has distinct targets. */
  lemma {:induction false} PermutationKeepsDistinctTargets(ops: seq<Operation>, other: seq<Operation>)
    requires DistinctTargets(ops) && multiset(ops) == multiset(other)
    ensures DistinctTargets(other)
  {
    hide SameTarget;
    DistinctTargetsDistinct(ops);
    forall i, j | 0 <= i < j < |other| ensures !SameTarget(other[i], other[j]) {
      if other[i] == other[j] {
        TwiceInSequence(other, i, j);
        TwiceInMultiset(ops, other[i]);
      } else {
        MembersByMultiset(ops, other, other[i]);
        MembersByMultiset(ops, other, other[j]);
        var k :| 0 <= k < |ops| && ops[k] == other[i];
        var l :| 0 <= l < |ops| && ops[l] == other[j];
        SameTargetSymmetric(ops[k], ops[l]);
        assert k < l || l < k;
      }
    }
  }

  lemma {:induction false} SameTargetSymmetric(a: Operation, b: Operation)
    ensures SameTarget(a, b) <==> SameTarget(b, a)
  {
  }

  // ------------------------------------------------------------- whole patches

  lemma {:induction false} SamePaths(ops: seq<Operation>, other: seq<Operation>)
    requires multiset(ops) == multiset(other)
    ensures Elements(StatePaths(ops)) == Elements(StatePaths(other))
    ensures Elements(TargetIds(ops)) == Elements(TargetIds(other))
  {
    forall x: Operation ensures x in ops <==> x in other {
      MembersByMultiset(ops, other, x);
    }
    forall path ensures path in StatePaths(ops) <==> path in StatePaths(other) {
      PathListed(ops, path);
      PathListed(other, path);
      PathByMember(ops, path);
      PathByMember(other, path);
    }
    forall id ensures id in TargetIds(ops) <==> id in TargetIds(other) {
      TargetListed(ops, id);
      TargetListed(other, id);
      TargetByMember(ops, id);
      TargetByMember(other, id);
    }
  }

  lemma {:induction false} PathByMember(ops: seq<Operation>, path: string)
    ensures (exists i :: 0 <= i < |ops| && ops[i].SetState? && ops[i].path == path)
            <==> exists x :: x in ops && x.SetState? && x.path == path
  {
    if x :| x in ops && x.SetState? && x.path == path {
      var i :| 0 <= i < |ops| && ops[i] == x;
    }
  }

  lemma {:induction false} TargetByMember(ops: seq<Operation>, id: string)
    ensures (exists i :: 0 <= i < |ops| && Target(ops[i]) == Some(id))
            <==> exists x :: x in ops && Target(x) == Some(id)
  {
    if x :| x in ops && Target(x) == Some(id) {
      var i :| 0 <= i < |ops| && ops[i] == x;
    }
  }

  lemma {:induction false} DependsOnElements(b: Block, paths: seq<string>, other: seq<string>)
    requires Elements(paths) == Elements(other)
    ensures Depends(b, paths) <==> Depends(b, other)
  {
    if Depends(b, paths) {
      OneWay(b, paths, other);
    }
    if Depends(b, other) {
      OneWay(b, other, paths);
    }
  }

  lemma {:induction false} OneWay(b: Block, paths: seq<string>, other: seq<string>)
    requires Elements(paths) == Elements(other) && Depends(b, paths)
    ensures Depends(b, other)
  {
    var i, j :| 0 <= i < |b.dependsOn| && 0 <= j < |paths| && SemanticPath.Affects(paths[j], b.dependsOn[i]);
    assert paths[j] in Elements(other);
    var k :| 0 <= k < |other| && other[k] == paths[j];
  }

  lemma {:induction false} SameScope(d: Document, p: Patch, q: Patch)
    requires multiset(p.operations) == multiset(q.operations)
    ensures ScopeOf(d, p) == ScopeOf(d, q) && Missing(d, p) == Missing(d, q)
  {
    hide Depends;
    var ps, qs := StatePaths(p.operations), StatePaths(q.operations);
    SamePaths(p.operations, q.operations);
    if ps != [] {
      assert ps[0] in Elements(qs);
    }
    if qs != [] {
      assert qs[0] in Elements(ps);
    }
    forall i | 0 <= i < |d.blocks| ensures Depends(d.blocks[i], ps) <==> Depends(d.blocks[i], qs) {
      DependsOnElements(d.blocks[i], ps, qs);
    }
    assert AffectedIds(d.blocks, ps) == AffectedIds(d.blocks, qs);
    var affected := AffectedIds(d.blocks, ps);
    var c, e := Elements(TargetIds(p.operations)), Elements(TargetIds(q.operations));
    FilterAgrees(id => id in affected && id !in c, id => id in affected && id !in e, BlockIds(d.blocks));
  }

  lemma {:induction false} SameShape(p: Patch, q: Patch)
    requires multiset(p.operations) == multiset(q.operations) && PatchShape(p)
    ensures PatchShape(q) && DistinctTargets(p.operations) && Distinct(q.operations)
  {
    hide OperationShape, SameTarget;
    UniquenessIsDistinctTargets(p.operations);
    PermutationKeepsDistinctTargets(p.operations, q.operations);
    UniquenessIsDistinctTargets(q.operations);
    DistinctTargetsDistinct(q.operations);
    assert |multiset(p.operations)| == |p.operations| && |multiset(q.operations)| == |q.operations|;
    forall i | 0 <= i < |q.operations| ensures OperationShape(q.operations[i]) {
      MembersByMultiset(p.operations, q.operations, q.operations[i]);
      var k :| 0 <= k < |p.operations| && p.operations[k] == q.operations[i];
    }
  }

  /** Reordering a patch changes neither whether it is accepted nor the resulting document. */
  lemma {:induction false} ReorderedPatch(h: Hashing, d: Document, p: Patch, q: Patch)
    requires q == p.(operations := q.operations)
    requires Reordering(p.operations, q.operations)
    ensures SameOutcome(Apply(h, d, p), Apply(h, d, q))
  {
    hide PatchShape, Missing, ScopeOf, DocumentShape, FirstBadHash, DistinctTargets, Agree;
    SameScope(d, p, q);
    if PatchShape(p) {
      SameShape(p, q);
    }
    if PatchShape(q) {
      SameShape(q, p);
    }
    if Preflight(h, d, p) == None {
      OpenedAgreesWhenShaped(d);
      RunKeepsAgreement(h, ScopeOf(d, p), Opened(d), p.operations);
      ReorderedRun(h, ScopeOf(d, p), Opened(d), p.operations, q.operations);
    }
  }

  lemma {:induction false} OpenedAgreesWhenShaped(d: Document)
    requires DocumentShape(d)
    ensures Distinct(BlockIds(d.blocks)) && Agree(Opened(d))
  {
    OpenedAgrees(d);
  }
}
