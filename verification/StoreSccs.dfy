/** The cycles of the platform-union store graph, named by store key. */
module StoreSccs {
  import opened Common
  import opened Metadata
  import opened Digraphs
  import opened StoreEdges
  import Tarjan

  /** A node that can be reached from itself along at least one edge. */
  ghost predicate OnCycle<T(!new)>(g: Graph<T>, x: T) {
    exists y :: Digraphs.Edge(g, x, y) && Reaches(g, y, x)
  }

  /** A class is kept when it has two members, or one member with an edge to itself. */
  predicate Kept<T(==)>(g: Graph<T>, c: seq<T>) {
    |c| > 1 || (|c| == 1 && c[0] in g && c[0] in g[c[0]])
  }

  /** The kept classes are exactly the ones whose nodes lie on a cycle. */
  lemma KeptIffOnCycle<T(!new)>(g: Graph<T>, c: seq<T>, x: T)
    requires IsClass(g, c) && x in c
    ensures Kept(g, c) <==> OnCycle(g, x)
  {
    if |c| > 1 {
      var y := if c[0] == x then c[1] else c[0];
      assert Mutual(g, x, y);
      var z := FirstStep(g, x, y);
      ReachesTrans(g, z, y, x);
    } else if Kept(g, c) {
      assert Digraphs.Edge(g, x, x);
      ReachesSelf(g, x);
    }
    if OnCycle(g, x) {
      var y :| Digraphs.Edge(g, x, y) && Reaches(g, y, x);
      ReachesAlongEdge(g, x, y);
      assert y in c;
    }
  }

  function Renamed(md: Lock, c: seq<string>): seq<string>
    requires forall s | s in c :: s in md.snapshots
  {
    seq(|c|, i requires 0 <= i < |c| => md.snapshots[c[i]].virtualStoreName)
  }

  /** Sorting by repeated insertion; equal names keep their order. */
  method SortKeys(s: seq<string>) returns (r: seq<string>)
    ensures multiset(r) == multiset(s) && Ascending(r)
  {
    r := [];
    for i := 0 to |s|
      invariant multiset(r) == multiset(s[..i]) && Ascending(r)
    {
      var k := |r|;
      while k > 0 && Before(s[i], r[k - 1])
        invariant 0 <= k <= |r|
        invariant forall j | k <= j < |r| :: Before(s[i], r[j])
      {
        k := k - 1;
      }
      InsertAscending(r, k, s[i]);
      assert s[..i + 1] == s[..i] + [s[i]];
      assert r == r[..k] + r[k..];
      r := r[..k] + [s[i]] + r[k..];
    }
    assert s[..|s|] == s;
  }

  /** Each listed component is the sorted store keys of one class; the classes are exactly those on a cycle. */
  ghost predicate Lists(md: Lock, sccs: seq<seq<string>>, classes: seq<seq<string>>) {
    && |sccs| == |classes|
    && (forall i | 0 <= i < |classes| :: classes[i] != [] && forall s | s in classes[i] :: s in md.snapshots)
    && (forall i | 0 <= i < |sccs| :: multiset(sccs[i]) == multiset(Renamed(md, classes[i])) && Ascending(sccs[i]))
    && (forall i | 0 <= i < |sccs| :: sccs[i] != [])
    && (forall i, j | 0 <= i < j < |sccs| :: !Before(sccs[j][0], sccs[i][0]))
  }

  ghost predicate CycleClasses(g: Graph<string>, classes: seq<seq<string>>) {
    && (forall i | 0 <= i < |classes| :: IsClass(g, classes[i]))
    && Disjoint(classes)
    && (forall x {:trigger OnCycle(g, x)} | x in g && OnCycle(g, x) ::
          exists i :: 0 <= i < |classes| && x in classes[i])
    && (forall i, x | 0 <= i < |classes| && x in classes[i] :: x in g && OnCycle(g, x))
  }

  ghost predicate Disjoint<T>(classes: seq<seq<T>>) {
    forall i, j, x | 0 <= i < j < |classes| && x in classes[i] :: x !in classes[j]
  }

  /** The classes are the kept ones among the components. */
  ghost predicate KeptAmong<T>(g: Graph<T>, components: seq<seq<T>>, classes: seq<seq<T>>) {
    && (forall i | 0 <= i < |classes| :: classes[i] in components && Kept(g, classes[i]))
    && (forall c | c in components && Kept(g, c) :: c in classes)
  }

  /** The kept components, renamed and sorted, in the order of their first names. */
  method NameComponents(md: Lock, g: Graph<string>, components: seq<seq<string>>)
    returns (sccs: seq<seq<string>>)
    requires Disjoint(components)
    requires forall i | 0 <= i < |components| ::
      components[i] != [] && forall s | s in components[i] :: s in md.snapshots
    ensures exists classes :: Lists(md, sccs, classes) && Disjoint(classes) && KeptAmong(g, components, classes)
  {
    sccs := [];
    ghost var classes: seq<seq<string>> := [];
    for n := 0 to |components|
      invariant Lists(md, sccs, classes) && Disjoint(classes) && KeptAmong(g, components[..n], classes)
    {
      var component := components[n];
      assert components[..n + 1] == components[..n] + [component];
      if Kept(g, component) {
        ghost var k;
        sccs, k := InsertComponent(md, sccs, classes, component);
        DisjointInsert(components, n, classes, k);
        KeptInsert(g, components[..n], classes, k, component);
        classes := classes[..k] + [component] + classes[k..];
      }
    }
    assert components[..|components|] == components;
  }

  lemma DisjointInsert<T>(components: seq<seq<T>>, n: nat, classes: seq<seq<T>>, k: nat)
    requires Disjoint(components) && Disjoint(classes) && n < |components| && k <= |classes|
    requires forall i | 0 <= i < |classes| :: classes[i] in components[..n]
    ensures Disjoint(classes[..k] + [components[n]] + classes[k..])
  {
    forall i, x | 0 <= i < |classes| && x in classes[i]
      ensures x !in components[n]
    {
      var m :| 0 <= m < n && components[..n][m] == classes[i];
      assert x in components[m];
    }
  }

  lemma KeptInsert<T>(g: Graph<T>, components: seq<seq<T>>, classes: seq<seq<T>>, k: nat, component: seq<T>)
    requires KeptAmong(g, components, classes) && k <= |classes| && Kept(g, component)
    ensures KeptAmong(g, components + [component], classes[..k] + [component] + classes[k..])
  {
    var t := classes[..k] + [component] + classes[k..];
    forall c | c in components + [component] && Kept(g, c)
      ensures c in t
    {
      if c in components {
        assert c in classes;
        var i :| 0 <= i < |classes| && classes[i] == c;
        assert t[if i < k then i else i + 1] == c;
      } else {
        assert t[k] == c;
      }
    }
  }

  method InsertComponent(md: Lock, sccs: seq<seq<string>>, ghost classes: seq<seq<string>>, component: seq<string>)
    returns (sccs': seq<seq<string>>, ghost at: nat)
    requires Lists(md, sccs, classes)
    requires component != [] && forall s | s in component :: s in md.snapshots
    ensures at <= |classes| && Lists(md, sccs', classes[..at] + [component] + classes[at..])
  {
    var keys := SortKeys(Renamed(md, component));
    assert |keys| == |multiset(keys)| == |multiset(Renamed(md, component))| == |component|;
    hide Renamed, Ascending;
    var k := |sccs|;
    while k > 0 && Before(keys[0], sccs[k - 1][0])
      invariant 0 <= k <= |sccs|
      invariant forall j | k <= j < |sccs| :: Before(keys[0], sccs[j][0])
    {
      k := k - 1;
    }
    at := k;
    sccs' := sccs[..k] + [keys] + sccs[k..];
    hide Lists, Before;
    ListsOneMore(md, sccs, classes, k, keys, component);
  }

  lemma ListsOneMore(md: Lock, sccs: seq<seq<string>>, classes: seq<seq<string>>, k: nat, keys: seq<string>,
                     component: seq<string>)
    requires Lists(md, sccs, classes) && k <= |sccs| && keys != []
    requires component != [] && forall s | s in component :: s in md.snapshots
    requires multiset(keys) == multiset(Renamed(md, component)) && Ascending(keys)
    requires k > 0 ==> !Before(keys[0], sccs[k - 1][0])
    requires forall j | k <= j < |sccs| :: Before(keys[0], sccs[j][0])
    ensures Lists(md, sccs[..k] + [keys] + sccs[k..], classes[..k] + [component] + classes[k..])
  {
    hide Renamed, Ascending, Before;
    InsertedHeads(sccs, k, keys);
    var t, d := sccs[..k] + [keys] + sccs[k..], classes[..k] + [component] + classes[k..];
    forall i | 0 <= i < |d|
      ensures d[i] != [] && t[i] != [] && (forall s | s in d[i] :: s in md.snapshots)
      ensures multiset(t[i]) == multiset(Renamed(md, d[i])) && Ascending(t[i])
    {
      if i != k {
        var n := if i < k then i else i - 1;
        assert d[i] == classes[n] && t[i] == sccs[n];
      }
    }
  }

  lemma InsertedHeads(sccs: seq<seq<string>>, k: nat, keys: seq<string>)
    requires k <= |sccs| && keys != []
    requires forall i | 0 <= i < |sccs| :: sccs[i] != []
    requires forall i, j | 0 <= i < j < |sccs| :: !Before(sccs[j][0], sccs[i][0])
    requires k > 0 ==> !Before(keys[0], sccs[k - 1][0])
    requires forall j | k <= j < |sccs| :: Before(keys[0], sccs[j][0])
    ensures var t := sccs[..k] + [keys] + sccs[k..];
      forall i, j | 0 <= i < j < |t| :: !Before(t[j][0], t[i][0])
  {
    var heads := seq(|sccs|, i requires 0 <= i < |sccs| => sccs[i][0]);
    InsertAscending(heads, k, keys[0]);
    var t := sccs[..k] + [keys] + sccs[k..];
    var h := heads[..k] + [keys[0]] + heads[k..];
    assert forall i | 0 <= i < |t| :: h[i] == t[i][0];
  }

  /** The store's cycles, from the union of every platform's edges. */
  method ComputeStoreSccs(md: Lock)
    returns (r: Result<seq<seq<string>>, Failure>,
             ghost companions: map<string, string>, ghost g: Graph<string>, ghost classes: seq<seq<string>>)
    ensures r.Success? <==> PackagesKnown(md) && OneCompanionVersion(md)
    ensures r.Success? ==> IsCompanions(md, companions) && IsUnionGraph(md, companions, g)
    ensures r.Success? ==> CycleClasses(g, classes) && Lists(md, r.value, classes)
  {
    companions, g, classes := map[], map[], [];
    var found := TypesCompanionSnapshots(md);
    if found.Failure? {
      r := Result.Failure(found.error);
      return;
    }
    companions := found.value;
    var nodes, graph := UnionGraph(md, found.value);
    g := graph;
    UnionIsClosed(md, companions, graph);
    var components := Tarjan.StrongComponents(graph, nodes);
    var sccs := NameComponents(md, graph, components);
    classes :| Lists(md, sccs, classes) && Disjoint(classes) && KeptAmong(g, components, classes);
    KeptAreCycles(g, components, classes);
    r := Success(sccs);
  }

  lemma KeptAreCycles(g: Graph<string>, components: seq<seq<string>>, classes: seq<seq<string>>)
    requires Tarjan.Partition(g, components, g.Keys)
    requires Disjoint(classes) && KeptAmong(g, components, classes)
    ensures CycleClasses(g, classes)
  {
    forall x | x in g
      ensures OnCycle(g, x) <==> exists i :: 0 <= i < |classes| && x in classes[i]
    {
      if OnCycle(g, x) {
        var m :| 0 <= m < |components| && x in components[m];
        KeptIffOnCycle(g, components[m], x);
        assert components[m] in classes;
      }
      if i :| 0 <= i < |classes| && x in classes[i] {
        KeptIffOnCycle(g, classes[i], x);
      }
    }
  }
}
