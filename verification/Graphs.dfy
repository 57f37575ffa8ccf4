/** Finite directed graphs, paths and cycles: the mathematics under the dependency engine. */
module Graphs {

  /** `g[a]` is the set of nodes that `a` points to. */
  type Graph<T> = map<T, set<T>>

  predicate Edge<T(==)>(g: Graph<T>, a: T, b: T) {
    a in g && b in g[a]
  }

  ghost predicate IsPath<T>(g: Graph<T>, p: seq<T>) {
    p != [] && forall i, j | 0 <= i && j == i + 1 && j < |p| :: Edge(g, p[i], p[j])
  }

  ghost predicate Connects<T>(g: Graph<T>, p: seq<T>, a: T, b: T) {
    IsPath(g, p) && p[0] == a && p[|p| - 1] == b
  }

  /** `b` is `a`, or some walk along edges leads from `a` to `b`. */
  ghost predicate Reaches<T(!new)>(g: Graph<T>, a: T, b: T) {
    exists p :: Connects(g, p, a, b)
  }

  ghost predicate OnCycle<T(!new)>(g: Graph<T>, a: T) {
    exists p :: |p| >= 2 && Connects(g, p, a, a)
  }

  ghost predicate Acyclic<T(!new)>(g: Graph<T>) {
    forall a :: !OnCycle(g, a)
  }

  ghost predicate Distinct<T>(s: seq<T>) {
    forall i, j | 0 <= i < j < |s| :: s[i] != s[j]
  }

  function Elements<T(==)>(s: seq<T>): set<T> {
    set x | x in s
  }

  lemma {:induction false} DistinctSize<T>(s: seq<T>)
    requires Distinct(s)
    ensures |Elements(s)| == |s|
  {
    if s == [] {
      assert Elements(s) == {};
    } else {
      DistinctSize(s[1..]);
      assert Elements(s) == {s[0]} + Elements(s[1..]);
      assert s[0] !in Elements(s[1..]);
    }
  }

  lemma {:induction false} SizeDistinct<T>(s: seq<T>)
    ensures |Elements(s)| <= |s|
    ensures |Elements(s)| == |s| ==> Distinct(s)
  {
    if s != [] {
      SizeDistinct(s[1..]);
      assert Elements(s) == {s[0]} + Elements(s[1..]);
      if s[0] in s[1..] { assert Elements(s) == Elements(s[1..]); }
    }
  }

  lemma SubsetSize<T>(a: set<T>, b: set<T>)
    requires a <= b
    ensures |a| <= |b|
    ensures |a| == |b| ==> a == b
  {
    assert b == a + (b - a);
    if a != b { var x :| x in b - a; }
  }

  lemma ReachesSelf<T(!new)>(g: Graph<T>, a: T)
    ensures Reaches(g, a, a)
  {
    assert Connects(g, [a], a, a);
  }

  lemma ReachesStep<T(!new)>(g: Graph<T>, a: T, b: T, c: T)
    requires Edge(g, a, b) && Reaches(g, b, c)
    ensures Reaches(g, a, c)
  {
    var p :| Connects(g, p, b, c);
    assert Connects(g, [a] + p, a, c);
  }

  lemma ReachesSnoc<T(!new)>(g: Graph<T>, a: T, b: T, c: T)
    requires Reaches(g, a, b) && Edge(g, b, c)
    ensures Reaches(g, a, c)
  {
    var p :| Connects(g, p, a, b);
    assert Connects(g, p + [c], a, c);
  }

  /** A walk that starts inside a set closed under edges ends inside it. */
  lemma {:induction false} ClosedUnderPath<T>(g: Graph<T>, s: iset<T>, p: seq<T>)
    requires forall a, b | a in s && Edge(g, a, b) :: b in s
    requires IsPath(g, p) && p[0] in s
    ensures p[|p| - 1] in s
  {
    if |p| > 1 {
      assert Edge(g, p[0], p[1]);
      ClosedUnderPath(g, s, p[1..]);
    }
  }

  /** Adding edges keeps every walk. */
  lemma ReachesInLarger<T(!new)>(g: Graph<T>, h: Graph<T>, a: T, b: T)
    requires forall x, y | Edge(g, x, y) :: Edge(h, x, y)
    requires Reaches(g, a, b)
    ensures Reaches(h, a, b)
  {
    var p :| Connects(g, p, a, b);
    assert Connects(h, p, a, b);
  }

  lemma CycleInLarger<T(!new)>(g: Graph<T>, h: Graph<T>, a: T)
    requires forall x, y | Edge(g, x, y) :: Edge(h, x, y)
    requires OnCycle(g, a)
    ensures OnCycle(h, a)
  {
    var p :| |p| >= 2 && Connects(g, p, a, a);
    forall i, j | 0 <= i && j == i + 1 && j < |p| ensures Edge(h, p[i], p[j]) {
      assert Edge(g, p[i], p[j]);
    }
    assert Connects(h, p, a, a);
  }

  /** An edge back to a node that the edge's target leads to closes a cycle. */
  lemma EdgeClosesCycle<T(!new)>(g: Graph<T>, a: T, b: T)
    requires Edge(g, a, b) && Reaches(g, b, a)
    ensures OnCycle(g, a)
  {
    var p :| Connects(g, p, b, a);
    assert Connects(g, [a] + p, a, a) && |[a] + p| >= 2;
  }

  /** A cycle walked backwards is a cycle of the reversed edges. */
  lemma CycleReversed<T(!new)>(g: Graph<T>, h: Graph<T>, a: T)
    requires forall x, y | Edge(g, x, y) :: Edge(h, y, x)
    requires OnCycle(g, a)
    ensures OnCycle(h, a)
  {
    var p :| |p| >= 2 && Connects(g, p, a, a);
    var q := seq(|p|, i requires 0 <= i < |p| => p[|p| - 1 - i]);
    forall i, j | 0 <= i && j == i + 1 && j < |q| ensures Edge(h, q[i], q[j]) {
      assert Edge(g, p[|p| - 1 - j], p[|p| - 1 - i]);
    }
    assert Connects(h, q, a, a);
  }

  lemma BackEdgeClosesCycle<T(!new)>(g: Graph<T>, a: T, b: T)
    requires Reaches(g, b, a) && Edge(g, a, b)
    ensures OnCycle(g, b)
  {
    var p :| Connects(g, p, b, a);
    assert Connects(g, p + [b], b, b) && |p + [b]| >= 2;
  }

  lemma CycleGoesThroughAnEdge<T(!new)>(g: Graph<T>, a: T) returns (b: T)
    requires OnCycle(g, a)
    ensures Edge(g, a, b) && Reaches(g, b, a) && OnCycle(g, b)
  {
    var p :| |p| >= 2 && Connects(g, p, a, a);
    b := p[1];
    assert Edge(g, p[0], p[1]);
    assert Connects(g, p[1..], b, a);
    ExtendPath(g, p, 1, b);
    assert Connects(g, p[1..] + [b], b, b);
  }

  /** Pigeonhole: if every node of a non-empty finite set points into the set, the set holds a cycle. */
  lemma StuckSetHasCycle<T(!new)>(g: Graph<T>, s: set<T>) returns (a: T)
    requires s != {}
    requires forall n | n in s :: n in g && g[n] * s != {}
    ensures a in s && OnCycle(g, a)
  {
    var start :| start in s;
    a := WalkUntilRepeat(g, s, [start]);
  }

  lemma ExtendPath<T>(g: Graph<T>, p: seq<T>, i: nat, b: T)
    requires IsPath(g, p) && i < |p| && Edge(g, p[|p| - 1], b)
    ensures IsPath(g, p[i..] + [b])
  {
    var q := p[i..] + [b];
    forall m, n | 0 <= m && n == m + 1 && n < |q| ensures Edge(g, q[m], q[n]) {
      if n < |q| - 1 { assert Edge(g, p[i + m], p[i + n]); }
    }
  }

  lemma RepeatClosesCycle<T(!new)>(g: Graph<T>, p: seq<T>, b: T)
    requires IsPath(g, p) && Edge(g, p[|p| - 1], b) && b in p
    ensures OnCycle(g, b)
  {
    var i :| 0 <= i < |p| && p[i] == b;
    ExtendPath(g, p, i, b);
    assert Connects(g, p[i..] + [b], b, b);
  }

  lemma {:induction false} WalkUntilRepeat<T(!new)>(g: Graph<T>, s: set<T>, p: seq<T>) returns (a: T)
    requires forall n | n in s :: n in g && g[n] * s != {}
    requires IsPath(g, p) && Distinct(p) && Elements(p) <= s
    ensures a in s && OnCycle(g, a)
    decreases |s| - |p|
  {
    assert p[|p| - 1] in Elements(p);
    a :| a in g[p[|p| - 1]] * s;
    if a in p {
      RepeatClosesCycle(g, p, a);
    } else {
      var q := p[0..] + [a];
      ExtendPath(g, p, 0, a);
      DistinctSnoc(p, a);
      assert q == p + [a];
      DistinctSize(q);
      SubsetSize(Elements(q), s);
      a := WalkUntilRepeat(g, s, q);
    }
  }

  lemma DistinctSnoc<T>(s: seq<T>, x: T)
    requires Distinct(s) && x !in s
    ensures Distinct(s + [x])
    ensures Elements(s + [x]) == Elements(s) + {x}
  {
  }

  /** From a node on a cycle there are walks of every length. */
  lemma {:induction false} LongWalk<T(!new)>(g: Graph<T>, a: T, n: nat) returns (p: seq<T>)
    requires OnCycle(g, a) && n > 0
    ensures IsPath(g, p) && p[0] == a && |p| == n
  {
    if n == 1 {
      p := [a];
    } else {
      var b := CycleGoesThroughAnEdge(g, a);
      p := LongWalk(g, b, n - 1);
      p := [a] + p;
    }
  }

  /** Every edge leads from a later to an earlier entry of `order`. */
  ghost predicate TargetsFirst<T(!new)>(g: Graph<T>, order: seq<T>) {
    forall a, b | Edge(g, a, b) :: exists i, j :: 0 <= i < j < |order| && order[i] == b && order[j] == a
  }

  /** A graph whose nodes can be listed targets first has no cycle. */
  lemma TargetsFirstIsAcyclic<T(!new)>(g: Graph<T>, order: seq<T>)
    requires Distinct(order) && TargetsFirst(g, order)
    ensures Acyclic(g)
  {
    forall a ensures !OnCycle(g, a) {
      if OnCycle(g, a) {
        var p :| |p| >= 2 && Connects(g, p, a, a);
        PathDescends(g, order, p);
      }
    }
  }

  lemma {:induction false} PathDescends<T(!new)>(g: Graph<T>, order: seq<T>, p: seq<T>)
    requires Distinct(order) && TargetsFirst(g, order)
    requires IsPath(g, p) && |p| >= 2
    ensures exists i, j :: 0 <= i < j < |order| && order[i] == p[|p| - 1] && order[j] == p[0]
    ensures p[0] != p[|p| - 1]
  {
    assert Edge(g, p[0], p[1]);
    var i, j :| 0 <= i < j < |order| && order[i] == p[1] && order[j] == p[0];
    if |p| > 2 {
      PathDescends(g, order, p[1..]);
      var k, m :| 0 <= k < m < |order| && order[k] == p[|p| - 1] && order[m] == p[1];
      assert m == i;
    }
  }
}
