/**
 * Finite directed graphs as successor lists. Reachability is the existence of a path, possibly of one node;
 * two nodes are mutually reachable when each reaches the other, as in a cycle. Nothing here knows of
 * packages or snapshots.
 */
module Digraphs {
  import opened Common

  /** The nodes are the keys; each node carries its successors in visit order. */
  type Graph<T> = map<T, seq<T>>

  ghost predicate Closed<T>(g: Graph<T>) {
    forall v, k | v in g && 0 <= k < |g[v]| :: g[v][k] in g
  }

  ghost predicate Edge<T>(g: Graph<T>, x: T, y: T) {
    x in g && y in g[x]
  }

  ghost predicate IsPath<T>(g: Graph<T>, p: seq<T>) {
    |p| > 0 && forall i, j | 0 <= i < j < |p| && j == i + 1 :: Edge(g, p[i], p[j])
  }

  ghost predicate Joins<T>(g: Graph<T>, p: seq<T>, x: T, y: T) {
    IsPath(g, p) && p[0] == x && p[|p| - 1] == y
  }

  ghost predicate Reaches<T(!new)>(g: Graph<T>, x: T, y: T) {
    exists p :: Joins(g, p, x, y)
  }

  ghost predicate Mutual<T(!new)>(g: Graph<T>, x: T, y: T) {
    Reaches(g, x, y) && Reaches(g, y, x)
  }

  /** A component is one whole class of mutually reachable nodes, listed once each. */
  ghost predicate IsClass<T(!new)>(g: Graph<T>, c: seq<T>) {
    && |c| > 0
    && Distinct(c)
    && (forall x | x in c :: x in g)
    && (forall x, y | x in c :: y in c <==> Mutual(g, x, y))
  }

  /** A set no edge leaves. */
  ghost predicate Stable<T(!new)>(g: Graph<T>, s: set<T>) {
    forall x, y | x in s && Edge(g, x, y) :: y in s
  }

  lemma ReachesSelf<T(!new)>(g: Graph<T>, x: T)
    ensures Reaches(g, x, x)
  {
    assert Joins(g, [x], x, x);
  }

  lemma ReachesAlongEdge<T(!new)>(g: Graph<T>, x: T, y: T)
    requires Edge(g, x, y)
    ensures Reaches(g, x, y)
  {
    assert Joins(g, [x, y], x, y);
  }

  lemma ReachesTrans<T(!new)>(g: Graph<T>, x: T, y: T, z: T)
    requires Reaches(g, x, y) && Reaches(g, y, z)
    ensures Reaches(g, x, z)
  {
    var p :| Joins(g, p, x, y);
    var q :| Joins(g, q, y, z);
    var r := p + q[1..];
    forall i, j | 0 <= i < j < |r| && j == i + 1
      ensures Edge(g, r[i], r[j])
    {
      if i >= |p| - 1 {
        assert r[i] == q[i - (|p| - 1)] && r[j] == q[j - (|p| - 1)];
      }
    }
    assert Joins(g, r, x, z);
  }

  lemma {:induction false} PathStaysIn<T(!new)>(g: Graph<T>, s: set<T>, p: seq<T>, i: nat)
    requires Stable(g, s) && IsPath(g, p) && p[0] in s && i < |p|
    ensures p[i] in s
  {
    if i > 0 {
      PathStaysIn(g, s, p, i - 1);
      assert Edge(g, p[i - 1], p[i]);
    }
  }

  /** What a stable set contains, everything reachable from it also lies in. */
  lemma StableHoldsReachable<T(!new)>(g: Graph<T>, s: set<T>, x: T, y: T)
    requires Stable(g, s) && x in s && Reaches(g, x, y)
    ensures y in s
  {
    var p :| Joins(g, p, x, y);
    PathStaysIn(g, s, p, |p| - 1);
  }

  /** A path that leaves its start has a first edge. */
  lemma FirstStep<T(!new)>(g: Graph<T>, x: T, y: T) returns (z: T)
    requires Reaches(g, x, y) && x != y
    ensures Edge(g, x, z) && Reaches(g, z, y)
  {
    var p :| Joins(g, p, x, y);
    z := p[1];
    assert Edge(g, p[0], p[1]);
    forall i, j | 0 <= i < j < |p| - 1 && j == i + 1
      ensures Edge(g, p[1..][i], p[1..][j])
    {
      assert Edge(g, p[i + 1], p[j + 1]);
    }
    assert Joins(g, p[1..], z, y);
  }

  /** Reachability as a set of pairs. */
  ghost function Reach<T(!new)>(g: Graph<T>): iset<(T, T)> {
    iset x: T, y: T | Reaches(g, x, y) :: (x, y)
  }

  /** A relation that contains every edge, is reflexive and is transitive. */
  ghost predicate Preorder<T(!new)>(g: Graph<T>, r: iset<(T, T)>) {
    && (forall x :: (x, x) in r)
    && (forall x, y | Edge(g, x, y) :: (x, y) in r)
    && (forall x, y, z | (x, y) in r && (y, z) in r :: (x, z) in r)
  }

  ghost predicate Both<T>(r: iset<(T, T)>, x: T, y: T) {
    (x, y) in r && (y, x) in r
  }

  lemma ReachIsPreorder<T(!new)>(g: Graph<T>)
    ensures Preorder(g, Reach(g))
  {
    forall x ensures (x, x) in Reach(g) { ReachesSelf(g, x); }
    forall x, y | Edge(g, x, y) ensures (x, y) in Reach(g) { ReachesAlongEdge(g, x, y); }
    forall x, y, z | (x, y) in Reach(g) && (y, z) in Reach(g) ensures (x, z) in Reach(g) {
      ReachesTrans(g, x, y, z);
    }
  }

  lemma BothIsMutual<T(!new)>(g: Graph<T>, x: T, y: T)
    ensures Both(Reach(g), x, y) <==> Mutual(g, x, y)
  {
  }

  lemma SelfInReach<T(!new)>(g: Graph<T>, x: T)
    ensures (x, x) in Reach(g)
  {
    ReachesSelf(g, x);
  }

  lemma EdgeInReach<T(!new)>(g: Graph<T>, x: T, y: T)
    requires Edge(g, x, y)
    ensures (x, y) in Reach(g)
  {
    ReachesAlongEdge(g, x, y);
  }

  lemma ReachIsTransitive<T(!new)>(g: Graph<T>, x: T, y: T, z: T)
    requires (x, y) in Reach(g) && (y, z) in Reach(g)
    ensures (x, z) in Reach(g)
  {
    ReachesTrans(g, x, y, z);
  }
}
