/**
 * The invariant of Tarjan's algorithm and what each change of its variables keeps of it: numbering a node, looking
 * at a successor, lowering a link, and closing a visit either into its parent or as a component of its own.
 */
module TarjanInvariant {
  import opened Common
  import opened Digraphs

  /** One open visit: the node and how many of its successors were already looked at. */
  datatype Frame<T> = Frame(node: T, next: nat)

  /**
   * The algorithm's variables, and four more that only the proof uses: the
   * nodes already emitted, how many successors of each node were looked at, which
   * open visit owns each stacked node, and the stacked node behind each low link.
   */
  datatype State<T> = State(
    index: map<T, nat>,
    low: map<T, nat>,
    onStack: set<T>,
    stack: seq<T>,
    counter: nat,
    work: seq<Frame<T>>,
    done: set<T>,
    looked: map<T, nat>,
    owner: map<T, nat>,
    via: map<T, T>)

  ghost predicate Shape<T>(g: Graph<T>, s: State<T>) {
    && s.index.Keys == s.low.Keys == s.looked.Keys == s.onStack + s.done
    && s.onStack !! s.done
    && s.owner.Keys == s.via.Keys == s.onStack
    && (forall v | v in s.index :: v in g && s.index[v] < s.counter && s.looked[v] <= |g[v]|)
  }

  /** The stack lists the stacked nodes in the order they were numbered. */
  ghost predicate Ordered<T>(index: map<T, nat>, onStack: set<T>, stack: seq<T>) {
    && (forall a | 0 <= a < |stack| :: stack[a] in onStack && stack[a] in index)
    && (forall v | v in onStack :: v in stack)
    && (forall a, b | 0 <= a < b < |stack| :: index[stack[a]] < index[stack[b]])
  }

  ghost predicate Stacked<T>(s: State<T>) {
    Ordered(s.index, s.onStack, s.stack)
  }

  /** Open visits form a path of stacked nodes; each stacked node is owned by one of them. */
  ghost predicate Frames<T>(g: Graph<T>, s: State<T>)
    requires Shape(g, s)
  {
    && (forall i | 0 <= i < |s.work| ::
          s.work[i].node in s.onStack && s.owner[s.work[i].node] == i && s.looked[s.work[i].node] == s.work[i].next)
    && (forall v {:trigger s.owner[v]} | v in s.onStack :: s.owner[v] < |s.work|)
    && (forall i, j | 0 <= i < j < |s.work| && j == i + 1 :: Edge(g, s.work[i].node, s.work[j].node))
  }

  /** The owner of a node is the last open visit numbered no later than it. */
  ghost predicate Owners<T>(g: Graph<T>, s: State<T>)
    requires Shape(g, s) && Frames(g, s)
  {
    forall v, i {:trigger s.owner[v], s.work[i]} | v in s.onStack && 0 <= i < |s.work| ::
      i <= s.owner[v] <==> s.index[s.work[i].node] <= s.index[v]
  }

  /** Every visited node that is not open has had all its successors looked at. */
  ghost predicate Finished<T>(g: Graph<T>, s: State<T>)
    requires Shape(g, s) && Frames(g, s)
  {
    forall v | v in s.index ::
      s.looked[v] == |g[v]| || (v in s.onStack && s.work[s.owner[v]].node == v)
  }

  /** Successors looked at were visited. */
  ghost predicate Looks<T>(g: Graph<T>, s: State<T>)
    requires Shape(g, s)
  {
    forall v, k {:trigger g[v][k]} | v in s.index && 0 <= k < s.looked[v] :: g[v][k] in s.index
  }

  /** Every stacked node and the open visit that owns it reach each other. */
  ghost predicate Links<T>(g: Graph<T>, r: iset<(T, T)>, s: State<T>)
    requires Shape(g, s) && Frames(g, s)
  {
    forall v, i {:trigger s.owner[v], s.work[i]} | v in s.onStack && i == s.owner[v] :: Both(r, v, s.work[i].node)
  }

  /** The low link of an open visit is the number of a stacked node it reaches. */
  ghost predicate LowSound<T(!new)>(g: Graph<T>, r: iset<(T, T)>, s: State<T>)
    requires Shape(g, s) && Frames(g, s)
  {
    forall i {:trigger s.low[s.work[i].node]} | 0 <= i < |s.work| ::
      var v := s.work[i].node;
      s.via[v] in s.onStack && s.index[s.via[v]] == s.low[v] <= s.index[v] && (v, s.via[v]) in r
  }

  /** No edge looked at leads from an owned node to a stacked node below the owner's low link. */
  ghost predicate LowBounds<T>(g: Graph<T>, s: State<T>)
    requires Shape(g, s) && Frames(g, s) && Looks(g, s)
  {
    forall v, k {:trigger g[v][k]} | v in s.onStack && 0 <= k < s.looked[v] && g[v][k] in s.onStack ::
      s.low[s.work[s.owner[v]].node] <= s.index[g[v][k]]
  }

  ghost predicate Inv<T(!new)>(g: Graph<T>, r: iset<(T, T)>, s: State<T>) {
    && Shape(g, s)
    && Stacked(s)
    && Frames(g, s)
    && Owners(g, s)
    && Finished(g, s)
    && Looks(g, s)
    && Links(g, r, s)
    && LowSound(g, r, s)
    && LowBounds(g, s)
    && Stable(g, s.done)
  }

  // ----- The state changes of the loop -----

  /** First sight of a node: number it, stack it and open its visit. */
  ghost function Discover<T>(s: State<T>, w: T): State<T> {
    s.(index := s.index[w := s.counter],
       low := s.low[w := s.counter],
       onStack := s.onStack + {w},
       stack := s.stack + [w],
       counter := s.counter + 1,
       work := s.work + [Frame(w, 0)],
       looked := s.looked[w := 0],
       owner := s.owner[w := |s.work|],
       via := s.via[w := w])
  }

  function Min(a: nat, b: nat): nat { if a < b then a else b }

  function Bump<T>(work: seq<Frame<T>>, i: int): seq<Frame<T>> {
    if 0 <= i < |work| then work[i := Frame(work[i].node, work[i].next + 1)] else work
  }

  /** The i-th open visit has looked at one more successor. */
  ghost function Advance<T>(s: State<T>, i: int): State<T> {
    if 0 <= i < |s.work| then
      s.(work := Bump(s.work, i),
         looked := s.looked[s.work[i].node := s.work[i].next + 1])
    else s
  }

  /** A visit lowers its link to the number of a stacked node it reaches. */
  ghost function Lower<T>(s: State<T>, v: T, w: T): State<T> {
    if v in s.low && w in s.index && s.index[w] < s.low[v] then
      s.(low := s.low[v := s.index[w]], via := s.via[v := w])
    else s
  }

  /** The top visit ends and its parent takes over the nodes it owns. */
  ghost function Merge<T>(s: State<T>): State<T> {
    var n := |s.work|;
    if n > 1 then
      s.(work := s.work[..n - 1], owner := map v | v in s.owner :: Min(s.owner[v], n - 2))
    else s
  }

  /** The nodes owned by the top visit leave the stack. */
  ghost function Emit<T>(s: State<T>, k: nat): State<T> {
    var c := Top(s);
    if |s.work| > 0 && k <= |s.stack| then
      s.(work := s.work[..|s.work| - 1],
         stack := s.stack[..k],
         onStack := s.onStack - c,
         done := s.done + c,
         owner := s.owner - c,
         via := s.via - c)
    else s
  }

  ghost function Top<T>(s: State<T>): set<T> {
    set v | v in s.owner && s.owner[v] == |s.work| - 1
  }

  ghost predicate CanDiscover<T>(g: Graph<T>, s: State<T>, w: T) {
    && w in g && w !in s.index
    && (s.work != [] ==> Edge(g, s.work[|s.work| - 1].node, w))
  }

  lemma DiscoverShape<T>(g: Graph<T>, s: State<T>, w: T)
    requires Shape(g, s) && CanDiscover(g, s, w)
    ensures Shape(g, Discover(s, w))
  {
    var s' := Discover(s, w);
    assert s'.index.Keys == s.index.Keys + {w};
    assert s'.low.Keys == s.low.Keys + {w};
    assert s'.looked.Keys == s.looked.Keys + {w};
    assert s'.owner.Keys == s.owner.Keys + {w};
    assert s'.via.Keys == s.via.Keys + {w};
  }

  lemma PushOrdered<T>(index: map<T, nat>, onStack: set<T>, stack: seq<T>, w: T, n: nat)
    requires Ordered(index, onStack, stack) && w !in index && forall v | v in index :: index[v] < n
    ensures Ordered(index[w := n], onStack + {w}, stack + [w])
  {
    forall v | v in onStack + {w}
      ensures v in stack + [w]
    {
      if v == w { assert (stack + [w])[|stack|] == w; }
    }
  }

  lemma PopOrdered<T>(index: map<T, nat>, onStack: set<T>, stack: seq<T>, top: set<T>, k: nat)
    requires Ordered(index, onStack, stack)
    requires k <= |stack| && forall a | 0 <= a < |stack| :: stack[a] in top <==> k <= a
    ensures Ordered(index, onStack - top, stack[..k])
  {
    forall v | v in onStack - top
      ensures v in stack[..k]
    {
      var a :| 0 <= a < |stack| && stack[a] == v;
      assert stack[..k][a] == v;
    }
  }

  lemma DiscoverStacked<T>(g: Graph<T>, s: State<T>, w: T)
    requires Shape(g, s) && Stacked(s) && CanDiscover(g, s, w)
    ensures Stacked(Discover(s, w))
  {
    hide Ordered;
    PushOrdered(s.index, s.onStack, s.stack, w, s.counter);
  }

  lemma DiscoverFrames<T>(g: Graph<T>, s: State<T>, w: T)
    requires Shape(g, s) && Frames(g, s) && CanDiscover(g, s, w)
    requires Shape(g, Discover(s, w))
    ensures Frames(g, Discover(s, w))
  {
    var s' := Discover(s, w);
    var n := |s.work|;
    assert s'.work[n] == Frame(w, 0);
    forall i | 0 <= i < n
      ensures s'.work[i] == s.work[i] && s.work[i].node != w
    {
    }
  }

  lemma DiscoverOwners<T>(g: Graph<T>, s: State<T>, w: T)
    requires Shape(g, s) && Frames(g, s) && Owners(g, s) && CanDiscover(g, s, w)
    requires Shape(g, Discover(s, w)) && Frames(g, Discover(s, w))
    ensures Owners(g, Discover(s, w))
  {
    var s' := Discover(s, w);
    forall v, i | v in s'.onStack && 0 <= i < |s'.work|
      ensures i <= s'.owner[v] <==> s'.index[s'.work[i].node] <= s'.index[v]
    {
      if v != w && i < |s.work| {
        assert i <= s.owner[v] <==> s.index[s.work[i].node] <= s.index[v];
      }
    }
  }

  lemma DiscoverFinished<T>(g: Graph<T>, s: State<T>, w: T)
    requires Shape(g, s) && Frames(g, s) && Finished(g, s) && CanDiscover(g, s, w)
    requires Shape(g, Discover(s, w)) && Frames(g, Discover(s, w))
    ensures Finished(g, Discover(s, w))
  {
  }

  lemma DiscoverLooks<T>(g: Graph<T>, s: State<T>, w: T)
    requires Shape(g, s) && Looks(g, s) && CanDiscover(g, s, w)
    requires Shape(g, Discover(s, w))
    ensures Looks(g, Discover(s, w))
  {
  }

  lemma DiscoverLinks<T(!new)>(g: Graph<T>, r: iset<(T, T)>, s: State<T>, w: T)
    requires Shape(g, s) && Frames(g, s) && CanDiscover(g, s, w)
    requires Shape(g, Discover(s, w)) && Frames(g, Discover(s, w))
    requires Links(g, r, s)
    requires (w, w) in r
    ensures Links(g, r, Discover(s, w))
  {
  }

  lemma DiscoverLowSound<T(!new)>(g: Graph<T>, r: iset<(T, T)>, s: State<T>, w: T)
    requires Shape(g, s) && Frames(g, s) && CanDiscover(g, s, w)
    requires Shape(g, Discover(s, w)) && Frames(g, Discover(s, w))
    requires LowSound(g, r, s)
    requires (w, w) in r
    ensures LowSound(g, r, Discover(s, w))
  {
  }

  lemma DiscoverLowBounds<T(!new)>(g: Graph<T>, s: State<T>, w: T)
    requires Shape(g, s) && Frames(g, s) && Looks(g, s) && CanDiscover(g, s, w)
    requires Shape(g, Discover(s, w)) && Frames(g, Discover(s, w)) && Looks(g, Discover(s, w))
    requires LowBounds(g, s)
    ensures LowBounds(g, Discover(s, w))
  {
  }

  lemma DiscoverKeeps<T(!new)>(g: Graph<T>, r: iset<(T, T)>, s: State<T>, w: T)
    requires (w, w) in r && Inv(g, r, s) && CanDiscover(g, s, w)
    ensures Inv(g, r, Discover(s, w))
  {
    DiscoverShape(g, s, w);
    DiscoverStacked(g, s, w);
    DiscoverFrames(g, s, w);
    DiscoverOwners(g, s, w);
    DiscoverFinished(g, s, w);
    DiscoverLooks(g, s, w);
    DiscoverLinks(g, r, s, w);
    DiscoverLowSound(g, r, s, w);
    DiscoverLowBounds(g, s, w);
  }

  lemma SameStack<T>(s: State<T>, s': State<T>)
    requires Stacked(s)
    requires s'.index == s.index && s'.onStack == s.onStack && s'.stack == s.stack
    ensures Stacked(s')
  {
  }

  // ----- Looking at a successor -----

  ghost predicate CanAdvance<T>(g: Graph<T>, s: State<T>, i: nat) {
    && i < |s.work|
    && s.work[i].node in g
    && s.work[i].next < |g[s.work[i].node]|
  }

  ghost function Next<T>(g: Graph<T>, s: State<T>, i: nat): T
    requires CanAdvance(g, s, i)
  {
    g[s.work[i].node][s.work[i].next]
  }

  lemma AdvanceShape<T>(g: Graph<T>, s: State<T>, i: nat)
    requires Shape(g, s) && Frames(g, s) && CanAdvance(g, s, i)
    ensures Shape(g, Advance(s, i))
    ensures Advance(s, i).index == s.index && Advance(s, i).onStack == s.onStack && Advance(s, i).stack == s.stack
  {
    assert Advance(s, i).looked.Keys == s.looked.Keys;
  }

  lemma AdvanceFrames<T>(g: Graph<T>, s: State<T>, i: nat)
    requires Shape(g, s) && Frames(g, s) && CanAdvance(g, s, i)
    requires Shape(g, Advance(s, i))
    ensures Frames(g, Advance(s, i))
    ensures forall j | 0 <= j < |s.work| :: Advance(s, i).work[j].node == s.work[j].node
  {
    var s' := Advance(s, i);
    forall j | 0 <= j < |s.work|
      ensures s'.work[j].node == s.work[j].node
      ensures j != i ==> s.work[j].node != s.work[i].node
    {
    }
  }

  lemma AdvanceOwners<T>(g: Graph<T>, s: State<T>, i: nat)
    requires Shape(g, s) && Frames(g, s) && CanAdvance(g, s, i)
    requires Shape(g, Advance(s, i)) && Frames(g, Advance(s, i))
    requires Owners(g, s) && Finished(g, s)
    ensures Owners(g, Advance(s, i)) && Finished(g, Advance(s, i))
  {
    AdvanceFrames(g, s, i);
  }

  lemma AdvanceLooks<T>(g: Graph<T>, s: State<T>, i: nat)
    requires Shape(g, s) && Frames(g, s) && CanAdvance(g, s, i)
    requires Shape(g, Advance(s, i))
    requires Looks(g, s) && Next(g, s, i) in s.index
    ensures Looks(g, Advance(s, i))
  {
  }

  lemma AdvanceLinks<T(!new)>(g: Graph<T>, r: iset<(T, T)>, s: State<T>, i: nat)
    requires Shape(g, s) && Frames(g, s) && CanAdvance(g, s, i)
    requires Shape(g, Advance(s, i)) && Frames(g, Advance(s, i))
    requires Links(g, r, s)
    ensures Links(g, r, Advance(s, i))
  {
    AdvanceFrames(g, s, i);
    forall v | v in s.onStack
      ensures Both(r, v, Advance(s, i).work[Advance(s, i).owner[v]].node)
    {
      assert Both(r, v, s.work[s.owner[v]].node);
    }
  }

  lemma AdvanceLowSound<T(!new)>(g: Graph<T>, r: iset<(T, T)>, s: State<T>, i: nat)
    requires Shape(g, s) && Frames(g, s) && CanAdvance(g, s, i)
    requires Shape(g, Advance(s, i)) && Frames(g, Advance(s, i))
    requires LowSound(g, r, s)
    ensures LowSound(g, r, Advance(s, i))
  {
    AdvanceFrames(g, s, i);
  }

  lemma AdvanceLowBounds<T>(g: Graph<T>, s: State<T>, i: nat)
    requires Shape(g, s) && Frames(g, s) && Looks(g, s) && CanAdvance(g, s, i)
    requires Shape(g, Advance(s, i)) && Frames(g, Advance(s, i)) && Looks(g, Advance(s, i))
    requires Next(g, s, i) in s.onStack ==> s.low[s.work[i].node] <= s.index[Next(g, s, i)]
    requires LowBounds(g, s)
    ensures LowBounds(g, Advance(s, i))
  {
    AdvanceFrames(g, s, i);
  }

  lemma AdvanceKeeps<T(!new)>(g: Graph<T>, r: iset<(T, T)>, s: State<T>, i: nat)
    requires CanSee(g, s, i) && Inv(g, r, s)
    ensures Inv(g, r, Advance(s, i))
  {
    AdvanceShape(g, s, i);
    AdvanceFrames(g, s, i);
    AdvanceOwners(g, s, i);
    AdvanceLooks(g, s, i);
    AdvanceLinks(g, r, s, i);
    AdvanceLowSound(g, r, s, i);
    SameStack(s, Advance(s, i));
    AdvanceLowBounds(g, s, i);
  }

  // ----- Lowering a link -----

  ghost predicate CanLower<T(!new)>(g: Graph<T>, r: iset<(T, T)>, s: State<T>, i: nat, w: T) {
    i < |s.work| && w in s.onStack && (s.work[i].node, w) in r
  }

  lemma LowerKeepsLow<T(!new)>(g: Graph<T>, r: iset<(T, T)>, s: State<T>, i: nat, w: T)
    requires Shape(g, s) && Frames(g, s) && LowSound(g, r, s) && CanLower(g, r, s, i, w)
    requires Shape(g, Lower(s, s.work[i].node, w))
    requires Frames(g, Lower(s, s.work[i].node, w))
    ensures LowSound(g, r, Lower(s, s.work[i].node, w))
  {
    forall j | 0 <= j < |s.work|
      ensures j != i ==> s.work[j].node != s.work[i].node
    {
    }
  }

  lemma LowerKeepsShape<T(!new)>(g: Graph<T>, r: iset<(T, T)>, s: State<T>, i: nat, w: T)
    requires Shape(g, s) && Frames(g, s) && CanLower(g, r, s, i, w)
    ensures
      var s' := Lower(s, s.work[i].node, w);
      && Shape(g, s') && Frames(g, s')
      && s'.index == s.index && s'.onStack == s.onStack && s'.stack == s.stack
      && s'.low[s.work[i].node] <= s.index[w]
  {
    var s' := Lower(s, s.work[i].node, w);
    assert s'.low.Keys == s.low.Keys && s'.via.Keys == s.via.Keys;
  }

  lemma LowerKeepsOwners<T(!new)>(g: Graph<T>, s: State<T>, v: T, w: T)
    requires Shape(g, s) && Frames(g, s) && Owners(g, s) && Finished(g, s) && Looks(g, s)
    requires v in s.low && Shape(g, Lower(s, v, w)) && Frames(g, Lower(s, v, w))
    ensures Owners(g, Lower(s, v, w)) && Finished(g, Lower(s, v, w)) && Looks(g, Lower(s, v, w))
  {
  }

  lemma LowerKeepsLinks<T(!new)>(g: Graph<T>, r: iset<(T, T)>, s: State<T>, v: T, w: T)
    requires Shape(g, s) && Frames(g, s) && Links(g, r, s)
    requires v in s.low && Shape(g, Lower(s, v, w)) && Frames(g, Lower(s, v, w))
    ensures Links(g, r, Lower(s, v, w))
  {
    var s' := Lower(s, v, w);
    forall x | x in s'.onStack
      ensures Both(r, x, s'.work[s'.owner[x]].node)
    {
      assert Both(r, x, s.work[s.owner[x]].node);
    }
  }

  lemma LowerKeepsBounds<T>(g: Graph<T>, s: State<T>, v: T, w: T)
    requires Shape(g, s) && Frames(g, s) && Looks(g, s) && LowBounds(g, s)
    requires v in s.low && Shape(g, Lower(s, v, w)) && Frames(g, Lower(s, v, w)) && Looks(g, Lower(s, v, w))
    ensures LowBounds(g, Lower(s, v, w))
  {
  }

  lemma LowerKeeps<T(!new)>(g: Graph<T>, r: iset<(T, T)>, s: State<T>, i: nat, w: T)
    requires CanLower(g, r, s, i, w) && Inv(g, r, s)
    ensures Inv(g, r, Lower(s, s.work[i].node, w))
  {
    LowerKeepsShape(g, r, s, i, w);
    LowerKeepsOwners(g, s, s.work[i].node, w);
    LowerKeepsLinks(g, r, s, s.work[i].node, w);
    LowerKeepsBounds(g, s, s.work[i].node, w);
    LowerKeepsLow(g, r, s, i, w);
    SameStack(s, Lower(s, s.work[i].node, w));
  }

  // ----- Closing a visit whose node does not begin a component -----

  /** The top visit has looked at everything, its link is below its own number and its parent's link is no higher. */
  ghost predicate CanMerge<T>(g: Graph<T>, s: State<T>)
    requires Shape(g, s) && Frames(g, s)
  {
    var n := |s.work|;
    && n > 1
    && s.work[n - 1].next == |g[s.work[n - 1].node]|
    && s.low[s.work[n - 1].node] < s.index[s.work[n - 1].node]
    && s.low[s.work[n - 2].node] <= s.low[s.work[n - 1].node]
  }

  lemma MergeShape<T>(g: Graph<T>, s: State<T>)
    requires Shape(g, s) && Frames(g, s) && CanMerge(g, s)
    ensures Shape(g, Merge(s))
    ensures Merge(s).index == s.index && Merge(s).onStack == s.onStack && Merge(s).stack == s.stack
    ensures Frames(g, Merge(s))
    ensures forall v | v in s.onStack :: Merge(s).owner[v] == Min(s.owner[v], |s.work| - 2)
    ensures forall i | 0 <= i < |s.work| - 1 :: Merge(s).work[i] == s.work[i]
  {
    var s' := Merge(s);
    var n := |s.work|;
    assert s'.owner.Keys == s.owner.Keys;
    assert forall i | 0 <= i < n - 1 :: s'.work[i] == s.work[i];
  }

  lemma MergeOwners<T>(g: Graph<T>, s: State<T>)
    requires Shape(g, s) && Frames(g, s) && Owners(g, s) && CanMerge(g, s)
    requires Shape(g, Merge(s)) && Frames(g, Merge(s))
    ensures Owners(g, Merge(s))
  {
    MergeShape(g, s);
    var s' := Merge(s);
    forall v, i | v in s'.onStack && 0 <= i < |s'.work|
      ensures i <= s'.owner[v] <==> s'.index[s'.work[i].node] <= s'.index[v]
    {
      assert i <= s.owner[v] <==> s.index[s.work[i].node] <= s.index[v];
    }
  }

  lemma MergeFinished<T>(g: Graph<T>, s: State<T>)
    requires Shape(g, s) && Frames(g, s) && Finished(g, s) && CanMerge(g, s)
    requires Shape(g, Merge(s)) && Frames(g, Merge(s))
    ensures Finished(g, Merge(s))
  {
    MergeShape(g, s);
    var s' := Merge(s);
    forall v | v in s'.index
      ensures s'.looked[v] == |g[v]| || (v in s'.onStack && s'.work[s'.owner[v]].node == v)
    {
      assert s.looked[v] == |g[v]| || (v in s.onStack && s.work[s.owner[v]].node == v);
    }
  }

  /** Open visits reach the ones opened after them. */
  lemma {:induction false} OpenReachesLater<T(!new)>(g: Graph<T>, r: iset<(T, T)>, s: State<T>, i: nat, j: nat)
    requires Preorder(g, r) && Shape(g, s) && Frames(g, s) && i <= j < |s.work|
    ensures (s.work[i].node, s.work[j].node) in r
    decreases j
  {
    if i < j {
      OpenReachesLater(g, r, s, i, j - 1);
      assert (s.work[j - 1].node, s.work[j].node) in r;
    }
  }

  lemma BothTrans<T(!new)>(g: Graph<T>, r: iset<(T, T)>, x: T, y: T, z: T)
    requires Preorder(g, r) && Both(r, x, y) && Both(r, y, z)
    ensures Both(r, x, z)
  {
  }

  lemma ClosedLoop<T(!new)>(g: Graph<T>, r: iset<(T, T)>, f: T, u: T, y: T, p: T)
    requires Preorder(g, r) && (f, u) in r && Both(r, u, y) && (y, p) in r && Edge(g, p, f)
    ensures Both(r, f, p)
  {
    assert (f, y) in r;
  }

  /** The closing node's link leads to a node owned by an earlier visit. */
  lemma LowOwner<T(!new)>(g: Graph<T>, r: iset<(T, T)>, s: State<T>) returns (u: T)
    requires Shape(g, s) && Frames(g, s) && Owners(g, s) && LowSound(g, r, s) && CanMerge(g, s)
    ensures u in s.onStack && s.owner[u] < |s.work| - 1
    ensures (s.work[|s.work| - 1].node, u) in r
  {
    u := s.via[s.work[|s.work| - 1].node];
  }

  /** Through its low link the closing node reaches its parent, so both lie in one class. */
  lemma ParentMutual<T(!new)>(g: Graph<T>, r: iset<(T, T)>, s: State<T>, u: T)
    requires Preorder(g, r) && Shape(g, s) && Frames(g, s) && |s.work| > 1
    requires u in s.onStack && s.owner[u] < |s.work| - 1 && (s.work[|s.work| - 1].node, u) in r
    requires Both(r, u, s.work[s.owner[u]].node)
    ensures Both(r, s.work[|s.work| - 1].node, s.work[|s.work| - 2].node)
  {
    var n := |s.work|;
    var f, p := s.work[n - 1].node, s.work[n - 2].node;
    OpenReachesLater(g, r, s, s.owner[u], n - 2);
    assert Edge(g, p, f);
    ClosedLoop(g, r, f, u, s.work[s.owner[u]].node, p);
  }

  lemma MergeLinks<T(!new)>(g: Graph<T>, r: iset<(T, T)>, s: State<T>)
    requires Shape(g, s) && Frames(g, s) && CanMerge(g, s)
    requires Preorder(g, r) && Both(r, s.work[|s.work| - 1].node, s.work[|s.work| - 2].node)
    requires Shape(g, Merge(s)) && Frames(g, Merge(s)) && Links(g, r, s)
    ensures Links(g, r, Merge(s))
  {
    MergeShape(g, s);
    var s' := Merge(s);
    var n := |s.work|;
    forall v | v in s'.onStack
      ensures Both(r, v, s'.work[s'.owner[v]].node)
    {
      assert Both(r, v, s.work[s.owner[v]].node);
      if s.owner[v] == n - 1 {
        BothTrans(g, r, v, s.work[n - 1].node, s.work[n - 2].node);
      }
    }
  }

  lemma MergeLow<T(!new)>(g: Graph<T>, r: iset<(T, T)>, s: State<T>)
    requires Shape(g, s) && Frames(g, s) && CanMerge(g, s)
    requires Shape(g, Merge(s)) && Frames(g, Merge(s)) && LowSound(g, r, s)
    ensures LowSound(g, r, Merge(s))
  {
    var s' := Merge(s);
    assert forall i | 0 <= i < |s'.work| :: s'.work[i] == s.work[i];
  }

  lemma MergeBounds<T>(g: Graph<T>, s: State<T>)
    requires Shape(g, s) && Frames(g, s) && Looks(g, s) && LowBounds(g, s) && CanMerge(g, s)
    requires Shape(g, Merge(s)) && Frames(g, Merge(s))
    ensures Looks(g, Merge(s)) && LowBounds(g, Merge(s))
  {
    var s' := Merge(s);
    forall v, k | v in s'.onStack && 0 <= k < s'.looked[v] && g[v][k] in s'.onStack
      ensures s'.low[s'.work[s'.owner[v]].node] <= s'.index[g[v][k]]
    {
      assert s.low[s.work[s.owner[v]].node] <= s.index[g[v][k]];
    }
  }

  lemma MergeLinksFully<T(!new)>(g: Graph<T>, r: iset<(T, T)>, s: State<T>)
    requires Preorder(g, r)
    requires Shape(g, s) && Frames(g, s) && Owners(g, s) && Links(g, r, s) && LowSound(g, r, s) && CanMerge(g, s)
    requires Shape(g, Merge(s)) && Frames(g, Merge(s))
    ensures Links(g, r, Merge(s))
  {
    var u := LowOwner(g, r, s);
    assert Both(r, u, s.work[s.owner[u]].node);
    ParentMutual(g, r, s, u);
    MergeLinks(g, r, s);
  }

  lemma MergeKeeps<T(!new)>(g: Graph<T>, s: State<T>)
    requires Inv(g, Reach(g), s) && CanMerge(g, s)
    ensures Inv(g, Reach(g), Merge(s))
  {
    MergeShape(g, s);
    MergeOwners(g, s);
    MergeFinished(g, s);
    ReachIsPreorder(g);
    MergeLinksFully(g, Reach(g), s);
    MergeLow(g, Reach(g), s);
    MergeBounds(g, s);
    SameStack(s, Merge(s));
  }

  // ----- Closing a visit whose node begins a component -----

  /** The top visit's node sits at stack position k, has looked at everything and links to nothing below it. */
  ghost predicate CanEmit<T>(g: Graph<T>, s: State<T>, k: nat)
    requires Shape(g, s) && Frames(g, s)
  {
    var n := |s.work|;
    && n > 0 && k < |s.stack|
    && s.stack[k] == s.work[n - 1].node
    && s.work[n - 1].next == |g[s.work[n - 1].node]|
    && s.low[s.work[n - 1].node] == s.index[s.work[n - 1].node]
  }

  lemma TopIsSuffix<T>(g: Graph<T>, s: State<T>, k: nat)
    requires Shape(g, s) && Stacked(s) && Frames(g, s) && Owners(g, s) && CanEmit(g, s, k)
    ensures forall a | 0 <= a < |s.stack| :: s.stack[a] in Top(s) <==> k <= a
  {
    var n := |s.work|;
    forall a | 0 <= a < |s.stack|
      ensures s.stack[a] in Top(s) <==> k <= a
    {
      var v := s.stack[a];
      assert n - 1 <= s.owner[v] <==> s.index[s.work[n - 1].node] <= s.index[v];
      if a < k { assert s.index[s.stack[a]] < s.index[s.stack[k]]; }
      if k < a { assert s.index[s.stack[k]] < s.index[s.stack[a]]; }
    }
  }

  lemma EmitShape<T>(g: Graph<T>, s: State<T>, k: nat)
    requires Shape(g, s) && Frames(g, s) && CanEmit(g, s, k)
    ensures Shape(g, Emit(s, k))
    ensures Frames(g, Emit(s, k))
    ensures Emit(s, k).done == s.done + Top(s)
  {
    var s' := Emit(s, k);
    var n := |s.work|;
    assert s'.owner.Keys == s.owner.Keys - Top(s);
    assert s'.via.Keys == s.via.Keys - Top(s);
    assert s'.onStack + s'.done == s.onStack + s.done;
    assert forall i | 0 <= i < n - 1 :: s'.work[i] == s.work[i];
  }

  lemma EmitStacked<T>(g: Graph<T>, s: State<T>, k: nat)
    requires Shape(g, s) && Stacked(s) && Frames(g, s) && Owners(g, s) && CanEmit(g, s, k)
    ensures Stacked(Emit(s, k))
  {
    TopIsSuffix(g, s, k);
    hide Frames, Owners, Shape, Ordered;
    PopOrdered(s.index, s.onStack, s.stack, Top(s), k);
  }

  lemma EmitOwners<T>(g: Graph<T>, s: State<T>, k: nat)
    requires Shape(g, s) && Frames(g, s) && Owners(g, s) && Finished(g, s) && CanEmit(g, s, k)
    requires Shape(g, Emit(s, k)) && Frames(g, Emit(s, k))
    ensures Owners(g, Emit(s, k)) && Finished(g, Emit(s, k))
  {
    var s' := Emit(s, k);
    forall v | v in s'.index
      ensures s'.looked[v] == |g[v]| || (v in s'.onStack && s'.work[s'.owner[v]].node == v)
    {
      assert s.looked[v] == |g[v]| || (v in s.onStack && s.work[s.owner[v]].node == v);
    }
  }

  lemma EmitLinks<T(!new)>(g: Graph<T>, r: iset<(T, T)>, s: State<T>, k: nat)
    requires Shape(g, s) && Frames(g, s) && Links(g, r, s) && CanEmit(g, s, k)
    requires Shape(g, Emit(s, k)) && Frames(g, Emit(s, k))
    ensures Links(g, r, Emit(s, k))
  {
    var s' := Emit(s, k);
    forall v | v in s'.onStack
      ensures Both(r, v, s'.work[s'.owner[v]].node)
    {
      assert Both(r, v, s.work[s.owner[v]].node);
    }
  }

  lemma EmitLow<T(!new)>(g: Graph<T>, r: iset<(T, T)>, s: State<T>, k: nat)
    requires Shape(g, s) && Frames(g, s) && Owners(g, s) && LowSound(g, r, s) && CanEmit(g, s, k)
    requires Shape(g, Emit(s, k)) && Frames(g, Emit(s, k))
    ensures LowSound(g, r, Emit(s, k))
  {
    var s' := Emit(s, k);
    var n := |s.work|;
    forall i | 0 <= i < |s'.work|
      ensures s.via[s.work[i].node] in s'.onStack && s'.work[i] == s.work[i]
    {
      var v := s.work[i].node;
      assert i < n - 1 && s.owner[v] == i;
      assert n - 1 <= s.owner[v] <==> s.index[s.work[n - 1].node] <= s.index[v];
      assert n - 1 <= s.owner[s.via[v]] <==> s.index[s.work[n - 1].node] <= s.index[s.via[v]];
    }
  }

  lemma EmitBounds<T>(g: Graph<T>, s: State<T>, k: nat)
    requires Shape(g, s) && Frames(g, s) && Looks(g, s) && LowBounds(g, s) && CanEmit(g, s, k)
    requires Shape(g, Emit(s, k)) && Frames(g, Emit(s, k))
    ensures Looks(g, Emit(s, k)) && LowBounds(g, Emit(s, k))
  {
    var s' := Emit(s, k);
    forall v, j | v in s'.onStack && 0 <= j < s'.looked[v] && g[v][j] in s'.onStack
      ensures s'.low[s'.work[s'.owner[v]].node] <= s'.index[g[v][j]]
    {
      assert s.low[s.work[s.owner[v]].node] <= s.index[g[v][j]];
    }
  }

  /** Nothing leaves the emitted nodes except into nodes emitted before. */
  lemma EmitStable<T(!new)>(g: Graph<T>, s: State<T>, k: nat)
    requires Shape(g, s) && Frames(g, s) && Owners(g, s) && Finished(g, s) && Looks(g, s) && LowBounds(g, s)
    requires Stable(g, s.done) && CanEmit(g, s, k)
    ensures Stable(g, s.done + Top(s)) && Stable(g, Emit(s, k).done)
  {
    var n := |s.work|;
    forall x, y | x in s.done + Top(s) && Edge(g, x, y)
      ensures y in s.done + Top(s)
    {
      if x in Top(s) {
        var j :| 0 <= j < |g[x]| && g[x][j] == y;
        assert s.looked[x] == |g[x]|;
        if y in s.onStack {
          assert s.low[s.work[s.owner[x]].node] <= s.index[g[x][j]];
          assert n - 1 <= s.owner[y] <==> s.index[s.work[n - 1].node] <= s.index[y];
        }
      }
    }
  }

  lemma EmitKeeps<T(!new)>(g: Graph<T>, r: iset<(T, T)>, s: State<T>, k: nat)
    requires Inv(g, r, s) && CanEmit(g, s, k)
    ensures Inv(g, r, Emit(s, k))
  {
    EmitShape(g, s, k);
    EmitStacked(g, s, k);
    EmitOwners(g, s, k);
    EmitLinks(g, r, s, k);
    EmitLow(g, r, s, k);
    EmitBounds(g, s, k);
    EmitStable(g, s, k);
  }

  lemma TopIsMutual<T(!new)>(g: Graph<T>, r: iset<(T, T)>, s: State<T>, x: T, y: T)
    requires Shape(g, s) && Frames(g, s) && Links(g, r, s) && s.work != [] && x in Top(s) && y in Top(s)
    requires Preorder(g, r)
    ensures Both(r, x, y)
  {
    assert Both(r, x, s.work[s.owner[x]].node);
    assert Both(r, y, s.work[s.owner[y]].node);
    BothTrans(g, r, x, s.work[|s.work| - 1].node, y);
  }

  lemma NotMutual<T(!new)>(g: Graph<T>, larger: set<T>, smaller: set<T>, x: T, y: T)
    requires Stable(g, larger) && Stable(g, smaller) && x in larger && x !in smaller
    requires y in larger ==> y in smaller
    ensures !Mutual(g, x, y)
  {
    if Mutual(g, x, y) {
      StableHoldsReachable(g, larger, x, y);
      StableHoldsReachable(g, smaller, y, x);
    }
  }

  /** A listing of the nodes that leave the stack is one whole class. */
  lemma EmittedIsClass<T(!new)>(g: Graph<T>, s: State<T>, c: seq<T>)
    requires Shape(g, s) && Frames(g, s) && Links(g, Reach(g), s) && s.work != []
    requires Stable(g, s.done) && Stable(g, s.done + Top(s))
    requires |c| > 0 && Distinct(c) && forall x :: x in c <==> x in Top(s)
    ensures IsClass(g, c)
  {
    ReachIsPreorder(g);
    forall x, y | x in c
      ensures y in c <==> Mutual(g, x, y)
    {
      if y in c {
        TopIsMutual(g, Reach(g), s, x, y);
        BothIsMutual(g, x, y);
      } else {
        NotMutual(g, s.done + Top(s), s.done, x, y);
      }
    }
  }

  // ----- What one turn of the loop does to the algorithm's variables -----

  /** The i-th open visit's next successor was visited, and the visit's link is no higher than it. */
  ghost predicate CanSee<T>(g: Graph<T>, s: State<T>, i: int) {
    && 0 <= i < |s.work|
    && CanAdvance(g, s, i)
    && s.work[i].node in s.low
    && Next(g, s, i) in s.index
    && (Next(g, s, i) in s.onStack ==> s.low[s.work[i].node] <= s.index[Next(g, s, i)])
  }

  /** The top visit is at node v and looks at its successor w next. */
  ghost predicate Pending<T>(g: Graph<T>, s: State<T>, v: T, w: T) {
    && s.work != []
    && v == s.work[|s.work| - 1].node
    && CanAdvance(g, s, |s.work| - 1)
    && w == Next(g, s, |s.work| - 1)
  }

  lemma DiscoveredIsSeen<T(!new)>(g: Graph<T>, r: iset<(T, T)>, s: State<T>, v: T, w: T)
    requires Shape(g, s) && Frames(g, s) && LowSound(g, r, s) && Pending(g, s, v, w) && CanDiscover(g, s, w)
    ensures CanSee(g, Discover(s, w), |s.work| - 1)
  {
  }

  lemma LoweredIsSeen<T>(g: Graph<T>, s: State<T>, v: T, w: T)
    requires Shape(g, s) && Frames(g, s) && Pending(g, s, v, w) && w in s.onStack
    ensures CanSee(g, Lower(s, v, w), |s.work| - 1)
  {
  }

  lemma AfterDiscover<T(!new)>(g: Graph<T>, r: iset<(T, T)>, s: State<T>, v: T, w: T)
    requires Pending(g, s, v, w) && CanDiscover(g, s, w) && Inv(g, r, s)
    ensures CanSee(g, Discover(s, w), |s.work| - 1)
  {
    hide Shape, Frames, LowSound, Stacked, Owners, Finished, Looks, Links, LowBounds, Stable, CanSee, Discover,
         CanDiscover;
    DiscoveredIsSeen(g, r, s, v, w);
  }

  lemma AfterLower<T(!new)>(g: Graph<T>, r: iset<(T, T)>, s: State<T>, v: T, w: T)
    requires Pending(g, s, v, w) && w in s.onStack && Inv(g, r, s)
    ensures CanSee(g, Lower(s, v, w), |s.work| - 1)
  {
    hide Shape, Frames, LowSound, Stacked, Owners, Finished, Looks, Links, LowBounds, Stable, CanSee, Lower;
    LoweredIsSeen(g, s, v, w);
  }

  lemma SeeNewKeeps<T(!new)>(g: Graph<T>, s: State<T>, v: T, w: T)
    requires Pending(g, s, v, w) && w in g && w !in s.index && Inv(g, Reach(g), s)
    ensures Inv(g, Reach(g), Advance(Discover(s, w), |s.work| - 1))
  {
    hide Inv, Reach, CanSee;
    assert Edge(g, v, w);
    SelfInReach(g, w);
    DiscoverKeeps(g, Reach(g), s, w);
    AfterDiscover(g, Reach(g), s, v, w);
    AdvanceKeeps(g, Reach(g), Discover(s, w), |s.work| - 1);
  }

  lemma SeeStackedKeeps<T(!new)>(g: Graph<T>, s: State<T>, v: T, w: T)
    requires Pending(g, s, v, w) && w in s.onStack && Inv(g, Reach(g), s)
    ensures Inv(g, Reach(g), Advance(Lower(s, v, w), |s.work| - 1))
  {
    hide Inv, Reach, CanSee;
    EdgeInReach(g, v, w);
    AfterLower(g, Reach(g), s, v, w);
    LowerKeeps(g, Reach(g), s, |s.work| - 1, w);
    AdvanceKeeps(g, Reach(g), Lower(s, v, w), |s.work| - 1);
  }

  lemma SeeDoneKeeps<T(!new)>(g: Graph<T>, s: State<T>, v: T, w: T)
    requires Pending(g, s, v, w) && w !in s.onStack && w in s.index && v in s.low && Inv(g, Reach(g), s)
    ensures Inv(g, Reach(g), Advance(s, |s.work| - 1))
  {
    hide Inv, Reach;
    AdvanceKeeps(g, Reach(g), s, |s.work| - 1);
  }
}
