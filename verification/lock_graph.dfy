/** Directed graphs over lock ids, as `_lock_history` records them: an edge from a lock to every lock
    some thread acquired directly after it. */
module LockGraph {

  type Graph = map<int, set<int>>

  predicate Edge(g: Graph, u: int, v: int) {
    u in g && v in g[u]
  }

  ghost predicate IsWalk(g: Graph, p: seq<int>) {
    forall i :: 0 <= i < |p| - 1 ==> Edge(g, p[i], p[i + 1])
  }

  /** A closed walk with at least one edge. */
  ghost predicate IsCycle(g: Graph, p: seq<int>) {
    |p| >= 2 && p[0] == p[|p| - 1] && IsWalk(g, p)
  }

  ghost predicate HasCycle(g: Graph) {
    exists p :: IsCycle(g, p)
  }

  /** Every edge joins two different ids below `n`. */
  ghost predicate WellFormed(g: Graph, n: nat) {
    forall u, v :: Edge(g, u, v) ==> 0 <= u < n && 0 <= v < n && u != v
  }

  /** A rank that drops along every edge. */
  ghost predicate Ranked(g: Graph, rank: seq<int>) {
    forall u, v :: Edge(g, u, v) ==> 0 <= u < |rank| && 0 <= v < |rank| && rank[v] < rank[u]
  }

  lemma {:induction false} RankDropsAlongWalk(g: Graph, rank: seq<int>, p: seq<int>)
    requires Ranked(g, rank) && IsWalk(g, p) && |p| >= 2
    ensures 0 <= p[0] < |rank| && 0 <= p[|p| - 1] < |rank| && rank[p[|p| - 1]] < rank[p[0]]
  {
    assert Edge(g, p[0], p[0 + 1]);
    if |p| > 2 {
      RankDropsAlongWalk(g, rank, p[1..]);
    }
  }

  lemma RankedMeansAcyclic(g: Graph, rank: seq<int>)
    requires Ranked(g, rank)
    ensures !HasCycle(g)
  {
    forall p ensures !IsCycle(g, p) {
      if IsCycle(g, p) { RankDropsAlongWalk(g, rank, p); }
    }
  }

  /** The lines printed before a crash: the closing edge first, then the parent chain backwards. */
  ghost predicate SpellsCycle(g: Graph, lines: seq<(int, int)>) {
    && |lines| >= 2
    && (forall k :: 0 <= k < |lines| ==> Edge(g, lines[k].0, lines[k].1))
    && (forall k :: 0 <= k < |lines| - 1 ==> lines[k + 1].1 == lines[k].0)
    && lines[|lines| - 1].0 == lines[0].1
  }

  lemma SpelledCycle(g: Graph, lines: seq<(int, int)>)
    requires SpellsCycle(g, lines)
    ensures HasCycle(g)
  {
    var n := |lines|;
    var p := seq(n + 1, k requires 0 <= k <= n => if k < n then lines[n - 1 - k].0 else lines[0].1);
    forall i | 0 <= i < |p| - 1 ensures Edge(g, p[i], p[i + 1]) {
      assert Edge(g, lines[n - 1 - i].0, lines[n - 1 - i].1);
      if i < n - 1 { assert lines[n - 2 - i + 1].1 == lines[n - 2 - i].0; }
    }
    assert IsCycle(g, p);
  }

  ghost predicate IsWalkBetween(g: Graph, p: seq<int>, u: int, v: int) {
    p != [] && p[0] == u && p[|p| - 1] == v && IsWalk(g, p)
  }

  ghost predicate Reaches(g: Graph, u: int, v: int) {
    exists p :: IsWalkBetween(g, p, u, v)
  }

  lemma ReachesEdge(g: Graph, u: int, v: int)
    requires u == v || Edge(g, u, v)
    ensures Reaches(g, u, v)
  {
    if u == v { assert IsWalkBetween(g, [u], u, v); } else { assert IsWalkBetween(g, [u, v], u, v); }
  }

  lemma ReachesTransitive(g: Graph, u: int, v: int, w: int)
    requires Reaches(g, u, v) && Reaches(g, v, w)
    ensures Reaches(g, u, w)
  {
    var p :| IsWalkBetween(g, p, u, v);
    var q :| IsWalkBetween(g, q, v, w);
    var r := p + q[1..];
    forall i | 0 <= i < |r| - 1 ensures Edge(g, r[i], r[i + 1]) {
      if i + 1 < |p| { assert Edge(g, p[i], p[i + 1]); }
      else { assert Edge(g, q[i - |p| + 1], q[i - |p| + 1 + 1]); }
    }
    assert IsWalkBetween(g, r, u, w);
  }

  /** In an acyclic graph two ids that reach each other are the same. */
  lemma MutualReachMeansEqual(g: Graph, u: int, v: int)
    requires !HasCycle(g) && Reaches(g, u, v) && Reaches(g, v, u)
    ensures u == v
  {
    if u != v {
      var p :| IsWalkBetween(g, p, u, v);
      var q :| IsWalkBetween(g, q, v, u);
      var r := p + q[1..];
      forall i | 0 <= i < |r| - 1 ensures Edge(g, r[i], r[i + 1]) {
        if i + 1 < |p| { assert Edge(g, p[i], p[i + 1]); }
        else { assert Edge(g, q[i - |p| + 1], q[i - |p| + 1 + 1]); }
      }
      assert IsCycle(g, r);
    }
  }

  lemma Pick<T>(s: set<T>) returns (x: T)
    requires s != {}
    ensures x in s
  {
    x :| x in s;
  }

  /** A nonempty set of integers has a least element. */
  lemma {:induction false} LeastExists(s: set<int>)
    requires s != {}
    ensures exists x :: x in s && forall y :: y in s ==> x <= y
    decreases |s|
  {
    var x := Pick(s);
    var rest := s - {x};
    if rest != {} {
      LeastExists(rest);
      var m :| m in rest && forall y :: y in rest ==> m <= y;
      var least := if x <= m then x else m;
      forall y | y in s ensures least <= y { assert y == x || y in rest; }
      assert least in s;
    } else {
      forall y | y in s ensures x <= y { assert y == x || y in rest; }
    }
  }
}
