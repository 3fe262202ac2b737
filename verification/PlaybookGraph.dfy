/** The transition graph of a Playbook: paths, cycles and how long a simple path can be. */
module PlaybookGraph {
  import opened Sequences

  datatype Transition = Transition(from: string, outcome: string, to: string)

  /** Targets of `source`, in the order in which its transitions are listed. */
  function Targets(ts: seq<Transition>, source: string): seq<string> {
    if ts == [] then []
    else (if ts[0].from == source then [ts[0].to] else []) + Targets(ts[1..], source)
  }

  ghost predicate Edge(ts: seq<Transition>, a: string, b: string) {
    exists i :: 0 <= i < |ts| && ts[i].from == a && ts[i].to == b
  }

  ghost predicate IsPath(ts: seq<Transition>, p: seq<string>) {
    && p != []
    && forall i :: 0 <= i < |p| - 1 ==> Edge(ts, p[i], p[i + 1])
  }

  ghost predicate PathFromTo(ts: seq<Transition>, p: seq<string>, a: string, b: string) {
    IsPath(ts, p) && p[0] == a && p[|p| - 1] == b
  }

  ghost predicate Reaches(ts: seq<Transition>, a: string, b: string) {
    exists p :: PathFromTo(ts, p, a, b)
  }

  ghost predicate OnCycle(ts: seq<Transition>, v: string) {
    exists p :: PathFromTo(ts, p, v, v) && |p| >= 2
  }

  ghost predicate CycleReachable(ts: seq<Transition>, root: string) {
    exists v :: Reaches(ts, root, v) && OnCycle(ts, v)
  }

  function Sources(ts: seq<Transition>): seq<string> {
    Map((t: Transition) => t.from, ts)
  }

  function Destinations(ts: seq<Transition>): seq<string> {
    Map((t: Transition) => t.to, ts)
  }

  lemma {:induction false} TargetsConcat(a: seq<Transition>, b: seq<Transition>, source: string)
    ensures Targets(a + b, source) == Targets(a, source) + Targets(b, source)
  {
    if a == [] {
      assert a + b == b;
    } else {
      assert (a + b)[1..] == a[1..] + b;
      TargetsConcat(a[1..], b, source);
    }
  }

  lemma {:induction false} TargetsAreEdges(ts: seq<Transition>, a: string, b: string)
    ensures b in Targets(ts, a) <==> Edge(ts, a, b)
  {
    if ts != [] {
      TargetsAreEdges(ts[1..], a, b);
      if Edge(ts, a, b) {
        var i :| 0 <= i < |ts| && ts[i].from == a && ts[i].to == b;
        if i > 0 {
          assert ts[1..][i - 1] == ts[i];
        }
      }
      if Edge(ts[1..], a, b) {
        var i :| 0 <= i < |ts[1..]| && ts[1..][i].from == a && ts[1..][i].to == b;
        assert ts[i + 1] == ts[1..][i];
      }
    }
  }

  lemma {:induction false} ReachesItself(ts: seq<Transition>, a: string)
    ensures Reaches(ts, a, a)
  {
    assert PathFromTo(ts, [a], a, a);
  }

  lemma {:induction false} JoinPaths(ts: seq<Transition>, p: seq<string>, q: seq<string>)
    requires IsPath(ts, p) && IsPath(ts, q) && p[|p| - 1] == q[0]
    ensures PathFromTo(ts, p + q[1..], p[0], q[|q| - 1])
  {
    var r := p + q[1..];
    forall i | 0 <= i < |r| - 1 ensures Edge(ts, r[i], r[i + 1]) {
      if i >= |p| - 1 {
        assert r[i] == q[i - (|p| - 1)] && r[i + 1] == q[i - (|p| - 1) + 1];
      }
    }
  }

  lemma {:induction false} ReachesTransitive(ts: seq<Transition>, a: string, b: string, c: string)
    requires Reaches(ts, a, b) && Reaches(ts, b, c)
    ensures Reaches(ts, a, c)
  {
    var p :| PathFromTo(ts, p, a, b);
    var q :| PathFromTo(ts, q, b, c);
    JoinPaths(ts, p, q);
  }

  lemma {:induction false} EdgeReaches(ts: seq<Transition>, a: string, b: string)
    requires Edge(ts, a, b)
    ensures Reaches(ts, a, b)
  {
    assert PathFromTo(ts, [a, b], a, b);
  }

  /** A piece of a path is a path. */
  lemma {:induction false} SubPath(ts: seq<Transition>, p: seq<string>, i: nat, j: nat)
    requires IsPath(ts, p) && i <= j < |p|
    ensures PathFromTo(ts, p[i..j + 1], p[i], p[j])
  {
    var q := p[i..j + 1];
    forall k | 0 <= k < |q| - 1 ensures Edge(ts, q[k], q[k + 1]) {
      assert q[k] == p[i + k] && q[k + 1] == p[i + k + 1];
    }
  }

  /** A path that repeats a node exhibits a cycle reachable from its start. */
  lemma {:induction false} PathIsSimpleOrCyclic(ts: seq<Transition>, p: seq<string>)
    requires IsPath(ts, p)
    ensures Distinct(p) || CycleReachable(ts, p[0])
  {
    if !Distinct(p) {
      var i, j :| 0 <= i < j < |p| && p[i] == p[j];
      SubPath(ts, p, 0, i);
      SubPath(ts, p, i, j);
      assert OnCycle(ts, p[i]);
      assert Reaches(ts, p[0], p[i]);
    }
  }

  /** Extending a walk by one transition keeps it a path. */
  lemma {:induction false} ExtendPath(ts: seq<Transition>, p: seq<string>, b: string)
    requires IsPath(ts, p) && Edge(ts, p[|p| - 1], b)
    ensures PathFromTo(ts, p + [b], p[0], b)
  {
    assert IsPath(ts, [p[|p| - 1], b]);
    JoinPaths(ts, p, [p[|p| - 1], b]);
    assert [p[|p| - 1], b][1..] == [b];
  }

  /** A set closed under edges contains whatever its members reach. */
  lemma {:induction false} ClosedContainsReachable(ts: seq<Transition>, s: set<string>, p: seq<string>)
    requires IsPath(ts, p) && p[0] in s
    requires forall a, b :: a in s && Edge(ts, a, b) ==> b in s
    ensures p[|p| - 1] in s
  {
    if |p| > 1 {
      SubPath(ts, p, 0, |p| - 2);
      assert p[0..|p| - 1] == p[..|p| - 1];
      ClosedContainsReachable(ts, s, p[..|p| - 1]);
      assert Edge(ts, p[|p| - 2], p[|p| - 2 + 1]);
    }
  }

  /** Along any path ranks strictly fall, if every edge leads to a smaller rank. */
  lemma {:induction false} RanksFall(ts: seq<Transition>, rank: map<string, nat>, p: seq<string>)
    requires IsPath(ts, p) && p[0] in rank
    requires forall a, b :: a in rank && Edge(ts, a, b) ==> b in rank && rank[b] < rank[a]
    ensures p[|p| - 1] in rank && rank[p[|p| - 1]] <= rank[p[0]]
    ensures |p| >= 2 ==> rank[p[|p| - 1]] < rank[p[0]]
  {
    if |p| > 1 {
      SubPath(ts, p, 0, |p| - 2);
      assert p[0..|p| - 1] == p[..|p| - 1];
      RanksFall(ts, rank, p[..|p| - 1]);
      assert Edge(ts, p[|p| - 2], p[|p| - 2 + 1]);
    }
  }

  /** All nodes mentioned by the graph or used as its root. */
  ghost function Universe(ts: seq<Transition>, root: string): set<string> {
    {root} + Elements(Sources(ts)) + Elements(Destinations(ts))
  }

  lemma {:induction false} EdgeStaysInside(ts: seq<Transition>, root: string, a: string, b: string)
    requires Edge(ts, a, b)
    ensures b in Universe(ts, root)
  {
    var i :| 0 <= i < |ts| && ts[i].from == a && ts[i].to == b;
    assert Destinations(ts)[i] == b;
  }

  ghost function ReachableSet(ts: seq<Transition>, root: string): set<string> {
    set x | x in Universe(ts, root) && Reaches(ts, root, x)
  }

  lemma {:induction false} ReachableSetIsAll(ts: seq<Transition>, root: string, x: string)
    ensures x in ReachableSet(ts, root) <==> Reaches(ts, root, x)
  {
    if Reaches(ts, root, x) {
      var p :| PathFromTo(ts, p, root, x);
      if |p| > 1 {
        assert Edge(ts, p[|p| - 2], p[|p| - 2 + 1]);
        EdgeStaysInside(ts, root, p[|p| - 2], x);
      }
    }
  }

  lemma {:induction false} EdgeIntoAncestorIsCycle(ts: seq<Transition>, a: string, b: string)
    requires Edge(ts, a, b) && Reaches(ts, b, a)
    ensures CycleReachable(ts, a)
  {
    var q :| PathFromTo(ts, q, b, a);
    assert IsPath(ts, [a, b]);
    JoinPaths(ts, [a, b], q);
    assert OnCycle(ts, a);
    ReachesItself(ts, a);
  }

  /** In a graph without reachable cycles each step leaves strictly fewer nodes
      ahead: the measure of the recursive run. */
  lemma {:induction false} StepShrinksReachable(ts: seq<Transition>, a: string, b: string)
    requires Edge(ts, a, b)
    ensures CycleReachable(ts, b) ==> CycleReachable(ts, a)
    ensures |ReachableSet(ts, b)| < |ReachableSet(ts, a)| || CycleReachable(ts, a)
  {
    EdgeReaches(ts, a, b);
    forall x | Reaches(ts, b, x) ensures Reaches(ts, a, x) {
      ReachesTransitive(ts, a, b, x);
    }
    forall x | x in ReachableSet(ts, b) ensures x in ReachableSet(ts, a) {
      ReachableSetIsAll(ts, b, x);
      ReachableSetIsAll(ts, a, x);
    }
    ReachesItself(ts, a);
    ReachableSetIsAll(ts, a, a);
    ReachableSetIsAll(ts, b, a);
    if Reaches(ts, b, a) {
      EdgeIntoAncestorIsCycle(ts, a, b);
    }
    SubsetSize(ReachableSet(ts, b), ReachableSet(ts, a));
  }
}
