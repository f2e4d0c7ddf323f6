/** Tarjan's algorithm with an explicit work stack. */
module Tarjan {
  import opened Common
  import opened Digraphs
  import opened TarjanInvariant

  /** Pops the stack down to and including node, which sits at position k. */
  method PopComponent<T(==)>(stack: seq<T>, onStack: set<T>, node: T, ghost k: nat)
    returns (stack': seq<T>, onStack': set<T>, component: seq<T>)
    requires k < |stack| && stack[k] == node && Distinct(stack)
    ensures stack' == stack[..k]
    ensures forall x :: x in onStack' <==> x in onStack && x !in stack[k..]
    ensures |component| == |stack| - k
    ensures forall i | 0 <= i < |component| :: component[i] == stack[|stack| - 1 - i]
  {
    stack', onStack', component := stack, onStack, [];
    while true
      invariant k < |stack'| <= |stack| && stack' == stack[..|stack'|]
      invariant forall x :: x in onStack' <==> x in onStack && x !in stack[|stack'|..]
      invariant |component| == |stack| - |stack'|
      invariant forall i | 0 <= i < |component| :: component[i] == stack[|stack| - 1 - i]
      decreases |stack'|
    {
      var member := stack'[|stack'| - 1];
      assert stack[|stack'| - 1..] == [member] + stack[|stack'|..];
      stack' := stack'[..|stack'| - 1];
      onStack' := onStack' - {member};
      component := component + [member];
      if member == node {
        break;
      }
    }
  }

  /** Successors still to be looked at by the open visits. */
  ghost function Remaining<T>(g: Graph<T>, work: seq<Frame<T>>): nat {
    if work == [] then 0
    else
      var f := work[|work| - 1];
      Remaining(g, work[..|work| - 1])
      + if f.node in g && f.next <= |g[f.node]| then |g[f.node]| - f.next else 0
  }

  /** The components are whole classes, and together list each node of done exactly once. */
  ghost predicate Partition<T(!new)>(g: Graph<T>, components: seq<seq<T>>, done: set<T>) {
    && (forall i | 0 <= i < |components| :: IsClass(g, components[i]))
    && (forall i, x | 0 <= i < |components| && x in components[i] :: x in done)
    && (forall x | x in done :: exists i :: 0 <= i < |components| && x in components[i])
    && (forall i, j, x | 0 <= i < j < |components| && x in components[i] :: x !in components[j])
  }

  ghost predicate Agrees<T>(s: State<T>, index: map<T, nat>, low: map<T, nat>, onStack: set<T>, stack: seq<T>,
                            counter: nat, work: seq<Frame<T>>)
  {
    && s.index == index && s.low == low && s.onStack == onStack && s.stack == stack
    && s.counter == counter && s.work == work
  }

  lemma TopFacts<T(!new)>(g: Graph<T>, r: iset<(T, T)>, s: State<T>, v: T)
    requires s.work != [] && v == s.work[|s.work| - 1].node && Inv(g, r, s)
    ensures v in g && s.work[|s.work| - 1].next <= |g[v]|
    ensures v in s.index && v in s.low && s.low[v] <= s.index[v]
    ensures forall x | x in s.onStack :: x in s.index
    ensures forall x | x in s.index :: x in g
  {
    hide Stacked, Owners, Finished, Looks, Links, LowBounds, Stable;
  }

  lemma EmptyHolds<T(!new)>(g: Graph<T>, s: State<T>)
    requires s == State(map[], map[], {}, [], 0, [], {}, map[], map[], map[])
    ensures Inv(g, Reach(g), s) && Partition(g, [], s.done)
  {
  }

  lemma StartVisit<T(!new)>(g: Graph<T>, s: State<T>, w: T)
    requires w in g && w !in s.index && s.work == [] && Inv(g, Reach(g), s)
    ensures Inv(g, Reach(g), Discover(s, w)) && Discover(s, w).done == s.done
    ensures Agrees(Discover(s, w), s.index[w := s.counter], s.low[w := s.counter], s.onStack + {w}, s.stack + [w],
                   s.counter + 1, [Frame(w, 0)])
  {
    hide Inv, Reach;
    SelfInReach(g, w);
    DiscoverKeeps(g, Reach(g), s, w);
  }

  lemma SeeNew<T(!new)>(g: Graph<T>, s: State<T>, v: T, w: T) returns (t: State<T>)
    requires Pending(g, s, v, w) && w in g && w !in s.index && Inv(g, Reach(g), s)
    ensures Inv(g, Reach(g), t) && t.done == s.done
    ensures Agrees(t, s.index[w := s.counter], s.low[w := s.counter], s.onStack + {w}, s.stack + [w], s.counter + 1,
                   Bump(s.work, |s.work| - 1) + [Frame(w, 0)])
  {
    hide Inv, Reach;
    SeeNewKeeps(g, s, v, w);
    t := Advance(Discover(s, w), |s.work| - 1);
    assert Discover(s, w).work == s.work + [Frame(w, 0)];
  }

  lemma SeeStacked<T(!new)>(g: Graph<T>, s: State<T>, v: T, w: T) returns (t: State<T>)
    requires Pending(g, s, v, w) && w in s.onStack && v in s.low && w in s.index && Inv(g, Reach(g), s)
    ensures Inv(g, Reach(g), t) && t.done == s.done
    ensures Agrees(t, s.index, s.low[v := Min(s.low[v], s.index[w])], s.onStack, s.stack, s.counter,
                   Bump(s.work, |s.work| - 1))
  {
    hide Inv, Reach;
    SeeStackedKeeps(g, s, v, w);
    t := Advance(Lower(s, v, w), |s.work| - 1);
    assert s.low[v := s.low[v]] == s.low;
  }

  lemma SeeDone<T(!new)>(g: Graph<T>, s: State<T>, v: T, w: T) returns (t: State<T>)
    requires Pending(g, s, v, w) && w !in s.onStack && w in s.index && v in s.low && Inv(g, Reach(g), s)
    ensures Inv(g, Reach(g), t) && t.done == s.done
    ensures Agrees(t, s.index, s.low, s.onStack, s.stack, s.counter,
                   Bump(s.work, |s.work| - 1))
  {
    hide Inv, Reach;
    SeeDoneKeeps(g, s, v, w);
    t := Advance(s, |s.work| - 1);
  }

  // ----- Closing the top visit -----

  /** The top visit is at node f and has looked at every successor. */
  ghost predicate Closing<T>(g: Graph<T>, s: State<T>, f: T) {
    && s.work != []
    && f == s.work[|s.work| - 1].node
    && f in g && s.work[|s.work| - 1].next == |g[f]|
  }

  lemma RootLinksToItself<T(!new)>(g: Graph<T>, r: iset<(T, T)>, s: State<T>)
    requires |s.work| == 1 && Inv(g, r, s)
    ensures s.work[0].node in s.low && s.work[0].node in s.index
    ensures s.low[s.work[0].node] == s.index[s.work[0].node]
  {
    hide Stacked, Finished, Looks, Links, LowBounds, Stable;
    assert s.low[s.work[0].node] == s.index[s.via[s.work[0].node]];
    assert s.owner[s.via[s.work[0].node]] == 0;
  }

  lemma ParentIsLower<T(!new)>(g: Graph<T>, r: iset<(T, T)>, s: State<T>, f: T, p: T)
    requires |s.work| > 1 && f == s.work[|s.work| - 1].node && p == s.work[|s.work| - 2].node && Inv(g, r, s)
    ensures Edge(g, p, f) && f in s.via && p in s.low && f in s.low && p in s.index && f in s.index && p != f
    ensures s.low[p] <= s.index[p] < s.index[f]
    ensures s.via[f] in s.onStack && s.via[f] in s.index && s.index[s.via[f]] == s.low[f] && (f, s.via[f]) in r
  {
    hide Stacked, Finished, Looks, Links, LowBounds, Stable;
    assert s.owner[p] == |s.work| - 2 && s.owner[f] == |s.work| - 1;
    assert s.low[f] == s.index[s.via[f]];
    assert s.low[p] <= s.index[p];
  }

  /** The top visit hands its low link to its parent. */
  ghost function HandDown<T>(s: State<T>): State<T> {
    if |s.work| > 1 && s.work[|s.work| - 1].node in s.via then
      Lower(s, s.work[|s.work| - 2].node, s.via[s.work[|s.work| - 1].node])
    else s
  }

  lemma HandDownKeeps<T(!new)>(g: Graph<T>, s: State<T>, f: T, p: T)
    requires |s.work| > 1 && f == s.work[|s.work| - 1].node && p == s.work[|s.work| - 2].node && f in s.via
    requires Edge(g, p, f) && s.via[f] in s.onStack && (f, s.via[f]) in Reach(g)
    requires Inv(g, Reach(g), s)
    ensures Inv(g, Reach(g), HandDown(s))
  {
    hide Inv, Reach, Edge;
    EdgeInReach(g, p, f);
    ReachIsTransitive(g, p, f, s.via[f]);
    LowerKeeps(g, Reach(g), s, |s.work| - 2, s.via[f]);
  }

  lemma CanMergeAfterHandDown<T(!new)>(g: Graph<T>, s: State<T>, f: T, p: T)
    requires |s.work| > 1 && Closing(g, s, f) && p == s.work[|s.work| - 2].node && f != p && f in s.via
    requires p in s.low && f in s.low && s.via[f] in s.index && s.index[s.via[f]] == s.low[f]
    requires f in s.index && s.low[f] < s.index[f]
    requires Inv(g, Reach(g), HandDown(s))
    ensures Shape(g, HandDown(s)) && Frames(g, HandDown(s)) && CanMerge(g, HandDown(s))
  {
    hide Shape, Frames, Stacked, Owners, Finished, Looks, Links, LowSound, LowBounds, Stable, Reach;
  }

  lemma CloseChild<T(!new)>(g: Graph<T>, s: State<T>, f: T) returns (t: State<T>)
    requires Closing(g, s, f) && f in s.low && f in s.index && s.low[f] < s.index[f] && Inv(g, Reach(g), s)
    ensures |s.work| > 1 && s.work[|s.work| - 2].node in s.low
    ensures Inv(g, Reach(g), t) && t.done == s.done
    ensures var p := s.work[|s.work| - 2].node;
      Agrees(t, s.index, s.low[p := Min(s.low[p], s.low[f])], s.onStack, s.stack, s.counter, s.work[..|s.work| - 1])
  {
    hide Inv, Reach;
    if |s.work| == 1 {
      RootLinksToItself(g, Reach(g), s);
    }
    var p := s.work[|s.work| - 2].node;
    ParentIsLower(g, Reach(g), s, f, p);
    HandDownKeeps(g, s, f, p);
    CanMergeAfterHandDown(g, s, f, p);
    MergeKeeps(g, HandDown(s));
    t := Merge(HandDown(s));
    assert s.low[p := s.low[p]] == s.low;
  }

  lemma StackFacts<T(!new)>(g: Graph<T>, r: iset<(T, T)>, s: State<T>, f: T) returns (k: nat)
    requires Closing(g, s, f) && Inv(g, r, s)
    ensures k < |s.stack| && s.stack[k] == f && Distinct(s.stack)
    ensures f in s.low && f in s.index && (s.low[f] == s.index[f] ==> CanEmit(g, s, k))
  {
    hide Owners, Finished, Looks, Links, LowBounds, Stable;
    k :| 0 <= k < |s.stack| && s.stack[k] == f;
  }

  lemma ReversedSuffix<T>(stack: seq<T>, k: nat, c: seq<T>)
    requires k <= |stack| && Distinct(stack)
    requires |c| == |stack| - k && forall i | 0 <= i < |c| :: c[i] == stack[|stack| - 1 - i]
    ensures Distinct(c) && forall x :: x in c <==> x in stack[k..]
  {
    forall x
      ensures x in c <==> x in stack[k..]
    {
      if x in c {
        var i :| 0 <= i < |c| && c[i] == x;
        assert stack[k..][|stack| - 1 - i - k] == x;
      }
      if x in stack[k..] {
        var a :| 0 <= a < |stack| - k && stack[k..][a] == x;
        assert c[|stack| - 1 - (a + k)] == x;
      }
    }
  }

  lemma SuffixIsTop<T>(stack: seq<T>, top: set<T>, k: nat)
    requires k <= |stack| && forall a | 0 <= a < |stack| :: stack[a] in top <==> k <= a
    requires forall x | x in top :: x in stack
    ensures forall x :: x in top <==> x in stack[k..]
  {
    forall x | x in top
      ensures x in stack[k..]
    {
      var a :| 0 <= a < |stack| && stack[a] == x;
      assert stack[k..][a - k] == x;
    }
  }

  lemma EmittedNodes<T(!new)>(g: Graph<T>, r: iset<(T, T)>, s: State<T>, f: T, k: nat, c: seq<T>)
    requires Closing(g, s, f) && k < |s.stack| && s.stack[k] == f && Distinct(s.stack)
    requires |c| == |s.stack| - k && forall i | 0 <= i < |c| :: c[i] == s.stack[|s.stack| - 1 - i]
    requires f in s.low && f in s.index && s.low[f] == s.index[f]
    requires Inv(g, r, s)
    ensures Distinct(c) && (forall x :: x in c <==> x in Top(s))
    ensures forall x :: x in c <==> x in s.stack[k..]
    ensures s.onStack !! s.done && Top(s) <= s.onStack
  {
    hide Finished, Looks, Links, LowBounds, LowSound, Stable;
    TopIsSuffix(g, s, k);
    hide Frames, Owners;
    SuffixIsTop(s.stack, Top(s), k);
    ReversedSuffix(s.stack, k, c);
  }

  lemma PartitionGrows<T(!new)>(g: Graph<T>, components: seq<seq<T>>, done: set<T>, c: seq<T>, top: set<T>)
    requires Partition(g, components, done) && IsClass(g, c)
    requires (forall x :: x in c <==> x in top) && top !! done
    ensures Partition(g, components + [c], done + top)
  {
    hide IsClass;
    forall x | x in done + top
      ensures exists i :: 0 <= i < |components + [c]| && x in (components + [c])[i]
    {
      if x in done {
        var i :| 0 <= i < |components| && x in components[i];
        assert (components + [c])[i] == components[i];
      } else {
        assert (components + [c])[|components|] == c;
      }
    }
  }

  lemma EmittedClass<T(!new)>(g: Graph<T>, s: State<T>, k: nat, c: seq<T>)
    requires |c| > 0 && Distinct(c) && s.work != [] && forall x :: x in c <==> x in Top(s)
    requires Inv(g, Reach(g), s)
    requires CanEmit(g, s, k)
    ensures IsClass(g, c)
  {
    hide Shape, Stacked, Frames, Owners, Finished, Looks, Links, LowBounds, LowSound, Stable, CanEmit, IsClass, Reach;
    EmitStable(g, s, k);
    EmittedIsClass(g, s, c);
  }

  lemma CloseComponent<T(!new)>(g: Graph<T>, s: State<T>, f: T, k: nat, c: seq<T>, components: seq<seq<T>>,
                                onStack: set<T>)
    returns (t: State<T>)
    requires Closing(g, s, f) && k < |s.stack| && s.stack[k] == f && Distinct(s.stack)
    requires |c| == |s.stack| - k && forall i | 0 <= i < |c| :: c[i] == s.stack[|s.stack| - 1 - i]
    requires f in s.low && f in s.index && s.low[f] == s.index[f]
    requires forall x :: x in onStack <==> x in s.onStack && x !in s.stack[k..]
    requires Inv(g, Reach(g), s)
    requires CanEmit(g, s, k)
    requires Partition(g, components, s.done)
    ensures Inv(g, Reach(g), t) && Partition(g, components + [c], t.done)
    ensures Agrees(t, s.index, s.low, onStack, s.stack[..k], s.counter, s.work[..|s.work| - 1])
  {
    hide Inv, Reach, CanEmit, Partition, IsClass;
    EmittedNodes(g, Reach(g), s, f, k, c);
    EmittedClass(g, s, k, c);
    PartitionGrows(g, components, s.done, c, Top(s));
    EmitKeeps(g, Reach(g), s, k);
    t := Emit(s, k);
    assert onStack == s.onStack - Top(s);
  }

  // ----- Progress -----

  lemma FewerLeft<T>(all: set<T>, seen: set<T>, w: T)
    requires w in all && w !in seen
    ensures |all - (seen + {w})| < |all - seen|
  {
    assert all - (seen + {w}) == (all - seen) - {w};
  }

  lemma BumpProgress<T>(g: Graph<T>, work: seq<Frame<T>>)
    requires work != [] && work[|work| - 1].node in g && work[|work| - 1].next < |g[work[|work| - 1].node]|
    ensures Remaining(g, Bump(work, |work| - 1)) < Remaining(g, work)
  {
    assert Bump(work, |work| - 1)[..|work| - 1] == work[..|work| - 1];
  }

  lemma AllDone<T(!new)>(g: Graph<T>, r: iset<(T, T)>, s: State<T>, nodes: seq<T>)
    requires s.work == [] && Inv(g, r, s) && forall v :: v in nodes <==> v in g
    requires forall i | 0 <= i < |nodes| :: nodes[i] in s.index
    ensures s.done == g.Keys
  {
    forall v | v in g
      ensures v in s.done
    {
      var i :| 0 <= i < |nodes| && nodes[i] == v;
      if v !in s.done {
        assert false;
      }
    }
  }

  // ----- The algorithm -----

  /** The variables the traversal updates. */
  datatype Walk<T> = Walk(
    index: map<T, nat>,
    low: map<T, nat>,
    onStack: set<T>,
    stack: seq<T>,
    components: seq<seq<T>>,
    counter: nat,
    work: seq<Frame<T>>)

  /** The walk's variables are those of a proof state that satisfies the invariant. */
  ghost predicate Sound<T(!new)>(g: Graph<T>, x: Walk<T>, s: State<T>) {
    && Inv(g, Reach(g), s)
    && Agrees(s, x.index, x.low, x.onStack, x.stack, x.counter, x.work)
    && Partition(g, x.components, s.done)
  }

  /** The top visit looks at its next successor. */
  method Look<T(==,!new)>(g: Graph<T>, x: Walk<T>, ghost s: State<T>) returns (y: Walk<T>, ghost t: State<T>)
    requires Closed(g) && x.work != [] && Sound(g, x, s)
    requires x.work[|x.work| - 1].node in g && x.work[|x.work| - 1].next < |g[x.work[|x.work| - 1].node]|
    ensures Sound(g, y, t)
    ensures x.index.Keys <= y.index.Keys
    ensures |g.Keys - y.index.Keys| < |g.Keys - x.index.Keys|
      || (y.index == x.index && Remaining(g, y.work) < Remaining(g, x.work))
  {
    hide Inv, Reach, Partition;
    var frame := x.work[|x.work| - 1];
    var successor := g[frame.node][frame.next];
    var work := Bump(x.work, |x.work| - 1);
    TopFacts(g, Reach(g), s, frame.node);
    BumpProgress(g, x.work);
    if successor !in x.index {
      t := SeeNew(g, s, frame.node, successor);
      FewerLeft(g.Keys, x.index.Keys, successor);
      y := Walk(x.index[successor := x.counter], x.low[successor := x.counter], x.onStack + {successor},
                x.stack + [successor], x.components, x.counter + 1, work + [Frame(successor, 0)]);
      assert y.index.Keys == x.index.Keys + {successor};
    } else if successor in x.onStack {
      t := SeeStacked(g, s, frame.node, successor);
      y := x.(work := work, low := x.low[frame.node := Min(x.low[frame.node], x.index[successor])]);
    } else {
      t := SeeDone(g, s, frame.node, successor);
      y := x.(work := work);
    }
  }

  /** The top visit, having looked at every successor, ends. */
  method Finish<T(==,!new)>(g: Graph<T>, x: Walk<T>, ghost s: State<T>) returns (y: Walk<T>, ghost t: State<T>)
    requires x.work != [] && Sound(g, x, s)
    requires x.work[|x.work| - 1].node in g && x.work[|x.work| - 1].next == |g[x.work[|x.work| - 1].node]|
    ensures Sound(g, y, t)
    ensures y.index == x.index && y.work == x.work[..|x.work| - 1]
  {
    hide Inv, Reach, Partition, CanEmit;
    var frame := x.work[|x.work| - 1];
    var work := x.work[..|x.work| - 1];
    TopFacts(g, Reach(g), s, frame.node);
    t := s;
    if x.low[frame.node] < x.index[frame.node] {
      t := CloseChild(g, s, frame.node);
    } else if |work| > 0 {
      ParentIsLower(g, Reach(g), s, frame.node, work[|work| - 1].node);
    }
    var low := x.low;
    if |work| > 0 {
      var parent := work[|work| - 1];
      low := low[parent.node := Min(low[parent.node], low[frame.node])];
    }
    y := x.(work := work, low := low);
    if low[frame.node] == x.index[frame.node] {
      assert low == x.low;
      ghost var k := StackFacts(g, Reach(g), s, frame.node);
      var stack, onStack, component := PopComponent(x.stack, x.onStack, frame.node, k);
      t := CloseComponent(g, s, frame.node, k, component, x.components, onStack);
      y := y.(stack := stack, onStack := onStack, components := x.components + [component]);
    }
  }

  /** Visits everything reachable from an unvisited root. */
  method Traverse<T(==,!new)>(g: Graph<T>, x: Walk<T>, root: T, ghost s: State<T>)
    returns (y: Walk<T>, ghost t: State<T>)
    requires Closed(g) && x.work == [] && root in g && root !in x.index && Sound(g, x, s)
    ensures Sound(g, y, t) && y.work == []
    ensures x.index.Keys <= y.index.Keys && root in y.index
  {
    hide Inv, Reach, Partition;
    StartVisit(g, s, root);
    t := Discover(s, root);
    y := Walk(x.index[root := x.counter], x.low[root := x.counter], x.onStack + {root}, x.stack + [root],
              x.components, x.counter + 1, [Frame(root, 0)]);
    while |y.work| > 0
      invariant Sound(g, y, t)
      invariant x.index.Keys <= y.index.Keys && root in y.index
      decreases |g.Keys - y.index.Keys|, Remaining(g, y.work), |y.work|
    {
      var frame := y.work[|y.work| - 1];
      TopFacts(g, Reach(g), t, frame.node);
      if frame.next < |g[frame.node]| {
        y, t := Look(g, y, t);
      } else {
        y, t := Finish(g, y, t);
      }
    }
  }

  /**
   * The strongly connected components of a graph, by one depth-first traversal
   * whose pending visits sit on an explicit work stack.
   */
  method StrongComponents<T(==,!new)>(g: Graph<T>, nodes: seq<T>) returns (components: seq<seq<T>>)
    requires Closed(g) && forall v :: v in nodes <==> v in g
    ensures Partition(g, components, g.Keys)
  {
    hide Inv, Reach, Partition;
    var x: Walk<T> := Walk(map[], map[], {}, [], [], 0, []);
    ghost var s: State<T> := State(map[], map[], {}, [], 0, [], {}, map[], map[], map[]);
    EmptyHolds(g, s);
    for n := 0 to |nodes|
      invariant Sound(g, x, s) && x.work == []
      invariant forall i | 0 <= i < n :: nodes[i] in x.index
    {
      if nodes[n] !in x.index {
        x, s := Traverse(g, x, nodes[n], s);
      }
    }
    AllDone(g, Reach(g), s, nodes);
    components := x.components;
  }
}
