/**
 * Assembling one store tree on disk: its copies and links are laid down in a stage beside the output, which is then
 * renamed into place, or removed when any step fails.
 */
module StoreAssembly {
  import opened Common
  import opened PosixPaths
  import opened StorePaths

  datatype Node = Directory | File(content: string) | Link(target: seq<string>)

  type Nodes = map<Path, Node>

  /** Resolving all links of a path is the file system's; its answers have plain components. */
  type RealPath = (Nodes, Path) -> Option<PlainPath>

  /** A link aims into the tree being assembled, or into a declared tree elsewhere. */
  datatype Aim = Within(rest: seq<string>) | Declared(tree: Path, rest: seq<string>)

  datatype Act = Copy(source: Path, at: PlainPath) | AddLink(at: PlainPath, aim: Aim)

  // ----- What the file system does -----

  function Parent(p: Path): Path
    requires p != []
  {
    p[..|p| - 1]
  }

  predicate IsDirectory(nodes: Nodes, p: Path) {
    p == [] || (p in nodes && nodes[p] == Directory)
  }

  /** Every node stands in a directory. */
  ghost predicate Rooted(nodes: Nodes) {
    forall p | p in nodes :: p != [] && IsDirectory(nodes, Parent(p))
  }

  function MissingDirs(nodes: Nodes, p: Path): Nodes {
    map i | 1 <= i <= |p| && p[..i] !in nodes :: p[..i] := Directory
  }

  predicate CanHoldDirs(nodes: Nodes, p: Path) {
    forall i | 1 <= i <= |p| && p[..i] in nodes :: nodes[p[..i]] == Directory
  }

  /** The subtree at one path as it would stand at another. */
  function Subtree(nodes: Nodes, from: Path, to: Path): Nodes {
    var paths := set p | p in nodes && from <= p :: to + p[|from|..];
    map q | q in paths && to <= q && from + q[|to|..] in nodes :: nodes[from + q[|to|..]]
  }

  lemma SubtreeIs(nodes: Nodes, from: Path, to: Path, q: Path)
    ensures q in Subtree(nodes, from, to) <==> to <= q && from + q[|to|..] in nodes
    ensures q in Subtree(nodes, from, to) ==> Subtree(nodes, from, to)[q] == nodes[from + q[|to|..]]
  {
    if to <= q && from + q[|to|..] in nodes {
      var p := from + q[|to|..];
      assert from <= p && to + p[|from|..] == q;
    }
  }

  function Without(nodes: Nodes, root: Path): Nodes {
    map p | p in nodes && !(root <= p) :: nodes[p]
  }

  predicate Vacant(nodes: Nodes, root: Path) {
    forall p | p in nodes :: !(root <= p)
  }

  /** Nothing has changed but below the root. */
  ghost predicate SameOutside(a: Nodes, b: Nodes, root: Path) {
    Without(a, root) == Without(b, root)
  }

  /** A link leads into the tree, by its own text and with all links on the way resolved. */
  predicate LinkStays(resolve: RealPath, nodes: Nodes, root: Path, p: Path)
    requires p != [] && p in nodes && nodes[p].Link?
  {
    && IsInside(root, Walk(Parent(p), nodes[p].target))
    && resolve(nodes, p).Some? && IsInside(root, resolve(nodes, p).value)
  }

  /** The links at or below a place all lead into the tree. */
  predicate LinksBelow(resolve: RealPath, nodes: Nodes, root: Path, from: Path) {
    forall p | p in nodes && from <= p && p != [] && nodes[p].Link? :: LinkStays(resolve, nodes, root, p)
  }

  predicate LinksContained(resolve: RealPath, nodes: Nodes, root: Path) {
    LinksBelow(resolve, nodes, root, root)
  }

  // ----- What each step comes to -----

  predicate CanCopy(resolve: RealPath, nodes: Nodes, source: Path, destination: Path)
    requires destination != []
  {
    var root := resolve(nodes, source);
    && root.Some? && IsDirectory(nodes, root.value) && LinksContained(resolve, nodes, root.value)
    && CanHoldDirs(nodes, Parent(destination))
  }

  /** What copying the node at one place of a tree, with all below it, to another place comes to. */
  function Laid(nodes: Nodes, tree: Nodes, from: Path, to: Path): Nodes
    requires to != []
  {
    nodes + MissingDirs(nodes, if IsDirectory(tree, from) then to else Parent(to)) + Subtree(tree, from, to)
  }

  function Copied(nodes: Nodes, root: Path, destination: Path): Nodes
    requires destination != []
  {
    Laid(nodes, nodes, root, destination)
  }

  function DeclaredTree(resolve: RealPath, nodes: Nodes, tree: Path): Option<PlainPath> {
    if IsDirectory(nodes, tree) then resolve(nodes, tree) else None
  }

  predicate CanLink(resolve: RealPath, nodes: Nodes, containedIn: Option<Path>, link: PlainPath, target: PlainPath,
                    targetRoot: Path)
    requires link != []
  {
    && (containedIn.None? || (IsInside(containedIn.value, link) && IsInside(containedIn.value, target)))
    && resolve(nodes, target).Some? && resolve(nodes, targetRoot).Some?
    && IsInside(resolve(nodes, targetRoot).value, resolve(nodes, target).value)
    && |Relative(Parent(link), target)| > 0
    && CanHoldDirs(nodes, Parent(link)) && link !in nodes
  }

  function Linked(nodes: Nodes, link: PlainPath, target: PlainPath): Nodes
    requires link != []
  {
    (nodes + MissingDirs(nodes, Parent(link)))[link := Link(Relative(Parent(link), target))]
  }

  /** Where a link aims, and the tree it must stay in. */
  function AimAt(resolve: RealPath, nodes: Nodes, stage: PlainPath, aim: Aim): Option<(PlainPath, PlainPath)> {
    match aim
    case Within(rest) =>
      PlainWalk(stage, rest);
      Some((Walk(stage, rest), stage))
    case Declared(tree, rest) =>
      match DeclaredTree(resolve, nodes, tree)
      case None => None
      case Some(dir) =>
        PlainWalk(dir, rest);
        Some((Walk(dir, rest), dir))
  }

  function Apply(resolve: RealPath, nodes: Nodes, stage: PlainPath, act: Act): Option<Nodes> {
    if act.at == [] then None
    else
      PlainConcat(stage, act.at);
      var here: PlainPath := stage + act.at;
      match act
      case Copy(source, _) =>
        if CanCopy(resolve, nodes, source, here) then Some(Copied(nodes, resolve(nodes, source).value, here)) else None
      case AddLink(_, aim) =>
        match AimAt(resolve, nodes, stage, aim)
        case None => None
        case Some(found) =>
          var containedIn := if aim.Within? then Some(stage) else None;
          if CanLink(resolve, nodes, containedIn, here, found.0, found.1) then Some(Linked(nodes, here, found.0))
          else None
  }

  function Build(resolve: RealPath, nodes: Nodes, stage: PlainPath, acts: seq<Act>): Option<Nodes> {
    if acts == [] then Some(nodes)
    else
      match Build(resolve, nodes, stage, acts[..|acts| - 1])
      case None => None
      case Some(built) => Apply(resolve, built, stage, acts[|acts| - 1])
  }

  predicate CanRename(nodes: Nodes, from: Path, to: Path)
    requires from != [] && to != []
  {
    && from in nodes && nodes[from] == Directory && IsDirectory(nodes, Parent(to))
    && (to in nodes ==> nodes[to] == Directory && forall p | p in nodes && to <= p :: p == to)
  }

  function Staged(nodes: Nodes, stage: Path): Nodes {
    nodes[stage := Directory]
  }

  predicate Assembles(resolve: RealPath, nodes: Nodes, parent: PlainPath, output: string, stageName: string,
                      acts: seq<Act>)
    requires IsName(output) && IsName(stageName)
  {
    PlainConcat(parent, [stageName]);
    var stage: PlainPath := parent + [stageName];
    && stage !in nodes && IsDirectory(nodes, parent)
    && var built := Build(resolve, Staged(nodes, stage), stage, acts);
       built.Some? && CanRename(built.value, stage, parent + [output])
  }

  function Assembled(resolve: RealPath, nodes: Nodes, parent: PlainPath, output: string, stageName: string,
                     acts: seq<Act>): Nodes
    requires IsName(output) && IsName(stageName) && Assembles(resolve, nodes, parent, output, stageName, acts)
  {
    PlainConcat(parent, [stageName]);
    var stage: PlainPath := parent + [stageName];
    Without(nodes, parent + [output])
    + Subtree(Build(resolve, Staged(nodes, stage), stage, acts).value, stage, parent + [output])
  }

  // ----- Steps inside the stage -----

  lemma PlainConcat(p: Path, q: Path)
    ensures Clean(p) && Clean(q) <==> Clean(p + q)
  {
    if Clean(p + q) {
      forall i | 0 <= i < |p| ensures IsName(p[i]) { assert IsName((p + q)[i]); }
      forall i | 0 <= i < |q| ensures IsName(q[i]) { assert IsName((p + q)[|p| + i]); }
    }
  }

  lemma {:induction false} PlainWalk(from: Path, rest: seq<string>)
    requires Clean(from)
    ensures Clean(Walk(from, rest))
  {
    if rest != [] {
      PlainWalk(from, rest[..|rest| - 1]);
    }
  }

  /** The stage and all directories above it exist. */
  ghost predicate StageStands(nodes: Nodes, stage: Path) {
    forall i | 1 <= i <= |stage| :: stage[..i] in nodes && nodes[stage[..i]] == Directory
  }

  lemma DirsMade(nodes: Nodes, p: Path)
    ensures CanHoldDirs(nodes, p) ==> IsDirectory(nodes + MissingDirs(nodes, p), p)
  {
    assert p == p[..|p|];
  }

  lemma NotItsParent(nodes: Nodes, link: Path)
    requires link != []
    ensures link in nodes + MissingDirs(nodes, Parent(link)) <==> link in nodes
  {
    forall i | 1 <= i <= |Parent(link)| ensures Parent(link)[..i] != link { assert |Parent(link)[..i]| == i; }
  }

  lemma SamePrefixes(stage: Path, p: Path)
    requires stage <= p
    ensures forall i | 0 <= i <= |stage| :: p[..i] == stage[..i]
  {
  }

  lemma DirsInside(nodes: Nodes, stage: Path, p: Path)
    requires StageStands(nodes, stage) && stage <= p
    ensures SameOutside(nodes, nodes + MissingDirs(nodes, p), stage)
    ensures StageStands(nodes + MissingDirs(nodes, p), stage)
  {
    var more := nodes + MissingDirs(nodes, p);
    SamePrefixes(stage, p);
    assert forall j | 1 <= j <= |stage| :: p[..j] in nodes;
    forall i | 1 <= i <= |p| && p[..i] !in nodes
      ensures stage <= p[..i]
    {
      assert i > |stage|;
    }
    forall i | 1 <= i <= |stage|
      ensures stage[..i] in more && more[stage[..i]] == Directory
    {
      assert stage[..i] in nodes;
    }
    assert Without(nodes, stage) == Without(more, stage);
  }

  lemma BelowStage(stage: Path, at: Path)
    requires at != []
    ensures stage + at != [] && Parent(stage + at) == stage + Parent(at) && stage <= stage + at
    ensures stage <= Parent(stage + at)
  {
    assert Parent(stage + at) == stage + Parent(at);
  }

  lemma AddInside(nodes: Nodes, more: Nodes, stage: Path)
    requires StageStands(nodes, stage) && forall p | p in more :: stage <= p && p !in nodes
    ensures SameOutside(nodes, nodes + more, stage) && StageStands(nodes + more, stage)
  {
    assert Without(nodes, stage) == Without(nodes + more, stage);
  }

  lemma LinkedInside(nodes: Nodes, stage: PlainPath, at: PlainPath, target: PlainPath)
    requires at != [] && Clean(stage + at) && StageStands(nodes, stage) && stage + at !in nodes
    ensures SameOutside(nodes, Linked(nodes, stage + at, target), stage)
    ensures StageStands(Linked(nodes, stage + at, target), stage)
  {
    hide MissingDirs, Relative;
    BelowStage(stage, at);
    DirsInside(nodes, stage, Parent(stage + at));
    NotItsParent(nodes, stage + at);
    var dirs := nodes + MissingDirs(nodes, Parent(stage + at));
    var added: Nodes := map[stage + at := Link(Relative(Parent(stage + at), target))];
    AddInside(dirs, added, stage);
    assert Linked(nodes, stage + at, target) == dirs + added;
  }

  lemma SameAsBefore(nodes: Nodes, stage: Path)
    ensures SameOutside(nodes, nodes, stage)
  {
  }

  lemma LinkNeedsRoom(resolve: RealPath, nodes: Nodes, containedIn: Option<Path>, link: PlainPath, target: PlainPath,
                      targetRoot: Path)
    requires link != [] && CanLink(resolve, nodes, containedIn, link, target, targetRoot)
    ensures link !in nodes && CanHoldDirs(nodes, Parent(link))
  {
    hide IsInside, Relative, CanHoldDirs;
  }

  lemma CopyStaysRooted(resolve: RealPath, nodes: Nodes, source: Path, destination: Path)
    requires destination != [] && CanCopy(resolve, nodes, source, destination) && Rooted(nodes)
    requires Vacant(nodes, destination)
    ensures resolve(nodes, source).Some? && Rooted(Copied(nodes, resolve(nodes, source).value, destination))
  {
    hide LinksContained, CanHoldDirs, Copied;
    CopiedRooted(nodes, resolve(nodes, source).value, destination);
  }

  /** A failed step fails the whole. */
  lemma {:induction false} BuildFails(resolve: RealPath, nodes: Nodes, stage: PlainPath, acts: seq<Act>, i: nat)
    requires i <= |acts| && Build(resolve, nodes, stage, acts[..i]).None?
    ensures Build(resolve, nodes, stage, acts).None?
    decreases |acts|
  {
    hide Apply;
    if i == |acts| {
      assert acts[..i] == acts;
    } else {
      assert acts[..|acts| - 1][..i] == acts[..i];
      BuildFails(resolve, nodes, stage, acts[..|acts| - 1], i);
    }
  }

  lemma StageMade(nodes: Nodes, parent: Path, name: string)
    requires Rooted(nodes) && Vacant(nodes, parent + [name]) && IsDirectory(nodes, parent)
    ensures SameOutside(nodes, Staged(nodes, parent + [name]), parent + [name])
    ensures StageStands(Staged(nodes, parent + [name]), parent + [name]) && Rooted(Staged(nodes, parent + [name]))
  {
    var stage := parent + [name];
    assert Without(nodes, stage) == Without(Staged(nodes, stage), stage);
    forall i | 1 <= i <= |stage|
      ensures stage[..i] in Staged(nodes, stage) && Staged(nodes, stage)[stage[..i]] == Directory
    {
      if i <= |parent| {
        DirectoryAbove(nodes, parent, i);
        assert stage[..i] == parent[..i];
      } else {
        assert stage[..i] == stage;
      }
    }
  }

  lemma {:induction false} DirectoryAbove(nodes: Nodes, p: Path, i: nat)
    requires Rooted(nodes) && IsDirectory(nodes, p) && 1 <= i <= |p|
    ensures p[..i] in nodes && nodes[p[..i]] == Directory
  {
    if i < |p| {
      assert Parent(p)[..i] == p[..i];
      DirectoryAbove(nodes, Parent(p), i);
    } else {
      assert p[..i] == p;
    }
  }

  lemma VacantIsSame(before: Nodes, nodes: Nodes, stage: Path)
    requires SameOutside(before, nodes, stage) && Vacant(before, stage)
    ensures Without(nodes, stage) == before
  {
    assert Without(before, stage) == before;
  }

  // ----- Copying node by node -----

  /** Everything that was there stays; what is new lies below the place, or is a directory above it. */
  ghost predicate Grown(a: Nodes, b: Nodes, to: Path) {
    && (forall p | p in a :: p in b && b[p] == a[p])
    && (forall p | p in b && p !in a :: p != [] && (to <= p || (p <= to && b[p] == Directory)))
  }

  lemma GrownTrans(a: Nodes, b: Nodes, c: Nodes, to: Path, name: string)
    requires Grown(a, b, to) && Grown(b, c, to + [name])
    ensures Grown(a, c, to)
  {
    forall p | p in c && p !in a && !(to <= p)
      ensures p != [] && p <= to && c[p] == Directory
    {
      if p !in b {
        assert p <= to + [name];
        assert |p| <= |to| ==> p == (to + [name])[..|p|] == to[..|p|];
      }
    }
  }

  lemma GrownByDirs(nodes: Nodes, p: Path, to: Path)
    requires p <= to
    ensures Grown(nodes, nodes + MissingDirs(nodes, p), to)
  {
  }

  /** Growing below the stage changes nothing outside it. */
  lemma GrownInside(a: Nodes, b: Nodes, stage: Path, to: Path)
    requires Grown(a, b, to) && stage <= to && StageStands(a, stage)
    ensures SameOutside(a, b, stage) && StageStands(b, stage)
  {
    forall p: Path | p <= to && |p| <= |stage| ensures p == stage[..|p|] {}
    assert forall p | p in b && p !in a :: stage <= p;
    assert Without(a, stage) == Without(b, stage);
  }

  lemma {:induction false} PrefixIn(nodes: Nodes, p: Path, i: nat)
    requires Rooted(nodes) && p in nodes && 1 <= i <= |p|
    ensures p[..i] in nodes
  {
    if i == |p| {
      assert p[..i] == p;
    } else {
      DirectoryAbove(nodes, Parent(p), i);
      assert Parent(p)[..i] == p[..i];
    }
  }

  /** The names in one directory of a tree. */
  function NamesIn(tree: Nodes, from: Path): set<string> {
    set p | p in tree && |p| == |from| + 1 && from <= p :: p[|from|]
  }

  lemma NamesInIs(tree: Nodes, from: Path, name: string)
    ensures name in NamesIn(tree, from) <==> from + [name] in tree
  {
    if from + [name] in tree { assert from <= from + [name]; }
    if name in NamesIn(tree, from) {
      var p :| p in tree && |p| == |from| + 1 && from <= p && p[|from|] == name;
      assert p == from + [name];
    }
  }

  /** The part of a copied directory that lies under these of its names. */
  ghost function Part(tree: Nodes, from: Path, to: Path, names: seq<string>): Nodes {
    map q | q in Subtree(tree, from, to) && |q| > |to| && q[|to|] in names :: Subtree(tree, from, to)[q]
  }

  lemma PartNothing(tree: Nodes, from: Path, to: Path)
    ensures Part(tree, from, to, []) == map[]
  {
  }

  lemma PartOneMore(tree: Nodes, from: Path, to: Path, names: seq<string>, name: string)
    ensures Part(tree, from, to, names + [name])
         == Part(tree, from, to, names) + Subtree(tree, from + [name], to + [name])
  {
    hide Subtree;
    forall q
      ensures q in Subtree(tree, from + [name], to + [name]) <==>
        q in Subtree(tree, from, to) && |q| > |to| && q[|to|] == name
      ensures q in Subtree(tree, from + [name], to + [name]) ==>
        Subtree(tree, from + [name], to + [name])[q] == Subtree(tree, from, to)[q]
    {
      SubtreeIs(tree, from + [name], to + [name], q);
      SubtreeIs(tree, from, to, q);
      ChildPath(from, to, name, q);
    }
  }

  lemma ChildPath(from: Path, to: Path, name: string, q: Path)
    ensures to + [name] <= q <==> to <= q && |q| > |to| && q[|to|] == name
    ensures to + [name] <= q ==> from + [name] + q[|to + [name]|..] == from + q[|to|..]
  {
    if to <= q && |q| > |to| && q[|to|] == name { assert q == to + [name] + q[|to| + 1..]; }
  }

  /** With all its names copied, a directory is copied. */
  lemma PartAll(dirs: Nodes, tree: Nodes, from: Path, to: Path, names: seq<string>)
    requires Rooted(tree) && IsDirectory(tree, from) && to in dirs && dirs[to] == Directory
    requires forall name :: name in names <==> name in NamesIn(tree, from)
    ensures dirs + Part(tree, from, to, names) == dirs + Subtree(tree, from, to)
  {
    hide Subtree, NamesIn;
    var part, all := dirs + Part(tree, from, to, names), dirs + Subtree(tree, from, to);
    forall q
      ensures q in part <==> q in all
      ensures q in part ==> part[q] == all[q]
    {
      SubtreeIs(tree, from, to, q);
      if q in Subtree(tree, from, to) {
        if q == to {
          assert from + q[|to|..] == from;
        } else {
          var p := from + q[|to|..];
          assert |q| > |to| && p[|from|] == q[|to|];
          PrefixIn(tree, p, |from| + 1);
          assert p[..|from| + 1] == from + [q[|to|]];
          NamesInIs(tree, from, q[|to|]);
        }
      }
    }
  }

  /** Where the directory it goes into exists, copying a node adds exactly the node and what is below it. */
  lemma LaidInPlace(nodes: Nodes, tree: Nodes, from: Path, to: Path)
    requires to != [] && from != [] && from in tree && forall i | 1 <= i < |to| :: to[..i] in nodes
    ensures Laid(nodes, tree, from, to) == nodes + Subtree(tree, from, to)
  {
    hide Subtree;
    SubtreeIs(tree, from, to, to);
    assert to[|to|..] == [] && from + [] == from;
    forall i | 1 <= i <= |Parent(to)| ensures Parent(to)[..i] in nodes { assert Parent(to)[..i] == to[..i]; }
    forall p | p in MissingDirs(nodes, to)
      ensures p == to
    {
      var i :| 1 <= i <= |to| && to[..i] !in nodes && p == to[..i];
      assert i == |to|;
    }
  }

  /** A node that is no directory has nothing below it. */
  lemma LeafAlone(tree: Nodes, from: Path, to: Path)
    requires Rooted(tree) && from in tree && !IsDirectory(tree, from)
    ensures Subtree(tree, from, to) == map[to := tree[from]]
  {
    hide Subtree;
    var leaf: Nodes := map[to := tree[from]];
    forall q
      ensures q in Subtree(tree, from, to) <==> q == to
      ensures q == to ==> Subtree(tree, from, to)[q] == tree[from]
    {
      SubtreeIs(tree, from, to, q);
      assert to[|to|..] == [] && from + [] == from;
      if q in Subtree(tree, from, to) { OnlyDirectoriesHold(tree, from, from + q[|to|..]); }
    }
    assert Subtree(tree, from, to).Keys == leaf.Keys;
  }

  lemma OnlyDirectoriesHold(tree: Nodes, from: Path, p: Path)
    requires Rooted(tree) && from != [] && from <= p && p in tree
    ensures p == from || IsDirectory(tree, from)
  {
    if p != from {
      DirectoryAbove(tree, Parent(p), |from|);
      assert Parent(p)[..|from|] == from;
    }
  }

  lemma LinksBelowAll(resolve: RealPath, tree: Nodes, root: Path, from: Path, names: seq<string>)
    requires Rooted(tree) && IsDirectory(tree, from) && forall name :: name in names <==> name in NamesIn(tree, from)
    ensures LinksBelow(resolve, tree, root, from) <==>
      forall i | 0 <= i < |names| :: LinksBelow(resolve, tree, root, from + [names[i]])
  {
    hide LinkStays, NamesIn;
    if forall i | 0 <= i < |names| :: LinksBelow(resolve, tree, root, from + [names[i]]) {
      forall p | p in tree && from <= p && p != [] && tree[p].Link?
        ensures LinkStays(resolve, tree, root, p)
      {
        assert p != from;
        var name := p[|from|];
        PrefixIn(tree, p, |from| + 1);
        assert p[..|from| + 1] == from + [name];
        NamesInIs(tree, from, name);
        assert name in names;
        assert from + [name] <= p;
      }
    }
  }

  lemma LeafLinks(resolve: RealPath, tree: Nodes, root: Path, from: Path)
    requires Rooted(tree) && from in tree && !IsDirectory(tree, from)
    ensures LinksBelow(resolve, tree, root, from) <==>
      tree[from].Link? ==> LinkStays(resolve, tree, root, from)
  {
    hide LinkStays;
    forall p | p in tree && from <= p ensures p == from { OnlyDirectoriesHold(tree, from, p); }
  }

  /** The places at or below one place of a tree. */
  ghost function PlacesFrom(tree: Nodes, from: Path): set<Path> {
    set p | p in tree.Keys + {[]} && from <= p
  }

  lemma FewerBelow(tree: Nodes, from: Path, name: string)
    requires from == [] || from in tree
    ensures |PlacesFrom(tree, from + [name])| < |PlacesFrom(tree, from)|
  {
    var a, b := PlacesFrom(tree, from + [name]), PlacesFrom(tree, from);
    assert from in b && from !in a;
    assert a <= b - {from};
    SubsetSize(a, b - {from});
  }

  lemma DirsRooted(nodes: Nodes, p: Path)
    requires Rooted(nodes) && CanHoldDirs(nodes, p)
    ensures Rooted(nodes + MissingDirs(nodes, p))
  {
    var more := nodes + MissingDirs(nodes, p);
    forall q | q in more
      ensures q != [] && IsDirectory(more, Parent(q))
    {
      if q !in nodes {
        var i :| 1 <= i <= |p| && q == p[..i];
        assert Parent(q) == p[..i - 1];
        if i > 1 { assert p[..i - 1] in nodes || p[..i - 1] in MissingDirs(nodes, p); }
      }
    }
  }

  lemma LinkedRooted(nodes: Nodes, link: PlainPath, target: PlainPath)
    requires link != [] && Rooted(nodes) && CanHoldDirs(nodes, Parent(link)) && link !in nodes
    ensures Rooted(Linked(nodes, link, target))
  {
    hide MissingDirs, Relative;
    DirsRooted(nodes, Parent(link));
    DirsMade(nodes, Parent(link));
    NotItsParent(nodes, link);
  }

  lemma CopiedGrown(nodes: Nodes, root: Path, destination: Path)
    requires destination != [] && Vacant(nodes, destination)
    ensures Grown(nodes, Copied(nodes, root, destination), destination)
  {
    hide Subtree;
    var after := Copied(nodes, root, destination);
    forall p
      ensures p in Subtree(nodes, root, destination) ==> destination <= p
    {
      SubtreeIs(nodes, root, destination, p);
    }
  }

  lemma CopiedRooted(nodes: Nodes, root: Path, destination: Path)
    requires destination != [] && Rooted(nodes) && IsDirectory(nodes, root)
    requires Vacant(nodes, destination) && CanHoldDirs(nodes, Parent(destination))
    ensures Rooted(Copied(nodes, root, destination))
  {
    hide MissingDirs, Subtree, CanHoldDirs;
    VacantRoom(nodes, destination);
    DirsRooted(nodes, destination);
    DirsMade(nodes, destination);
    CopyKeepsDirs(nodes, root, destination);
    var dirs, subtree := nodes + MissingDirs(nodes, destination), Subtree(nodes, root, destination);
    forall q | q in dirs + subtree
      ensures q != [] && IsDirectory(dirs + subtree, Parent(q))
    {
      if q !in dirs {
        SubtreeIs(nodes, root, destination, q);
        CopiedParent(nodes, root, destination, q);
      }
    }
  }

  /** The directories above the copy, and its own, stay directories. */
  lemma CopyKeepsDirs(nodes: Nodes, root: Path, destination: Path)
    requires destination != [] && Rooted(nodes) && IsDirectory(nodes, root) && Vacant(nodes, destination)
    ensures var dirs := nodes + MissingDirs(nodes, destination);
      forall q | q in dirs :: (dirs + Subtree(nodes, root, destination))[q] == dirs[q]
  {
    hide Subtree;
    var dirs := nodes + MissingDirs(nodes, destination);
    forall q | q in dirs && q in Subtree(nodes, root, destination)
      ensures Subtree(nodes, root, destination)[q] == dirs[q]
    {
      SubtreeIs(nodes, root, destination, q);
      assert root + destination[|destination|..] == root;
      assert q == destination == destination[..|destination|];
    }
  }

  lemma CopiedParent(nodes: Nodes, root: Path, destination: Path, q: Path)
    requires destination != [] && Rooted(nodes) && destination <= q && q != destination
    requires root + q[|destination|..] in nodes
    ensures Parent(q) == destination
      || (Parent(q) in Subtree(nodes, root, destination) && Subtree(nodes, root, destination)[Parent(q)] == Directory)
  {
    hide Subtree;
    SubtreeIs(nodes, root, destination, Parent(q));
    var p := root + q[|destination|..];
    assert Parent(p) == root + Parent(q)[|destination|..];
  }

  lemma VacantRoom(nodes: Nodes, to: Path)
    requires to != [] && Vacant(nodes, to)
    ensures CanHoldDirs(nodes, to) <==> CanHoldDirs(nodes, Parent(to))
  {
    forall i | 1 <= i < |to| ensures Parent(to)[..i] == to[..i] {}
    assert to[..|to|] == to;
  }

  lemma GrownSelf(nodes: Nodes, to: Path)
    ensures Grown(nodes, nodes, to)
  {
  }

  lemma MadeStands(nodes: Nodes, p: Path)
    requires CanHoldDirs(nodes, p)
    ensures StageStands(nodes + MissingDirs(nodes, p), p)
  {
  }

  lemma NameAt(to: Path, name: string, p: Path)
    ensures to + [name] <= p ==> to <= p && |p| > |to| && p[|to|] == name
  {
    ChildPath(to, to, name, p);
  }

  lemma VacantNames(nodes: Nodes, to: Path)
    requires Vacant(nodes, to)
    ensures forall name :: Vacant(nodes + MissingDirs(nodes, to), to + [name])
  {
    forall name, p | p in nodes + MissingDirs(nodes, to)
      ensures !(to + [name] <= p)
    {
      NameAt(to, name, p);
    }
  }

  /** A name whose turn has come: it is in the tree, fewer places lie below it, and its directory exists. */
  lemma ReadyFor(dirs: Nodes, tree: Nodes, from: Path, to: Path, done: seq<string>, name: string)
    requires StageStands(dirs, to) && IsDirectory(tree, from) && name in NamesIn(tree, from)
    ensures from + [name] in tree && from + [name] != [] && to + [name] != [] && Parent(to + [name]) == to
    ensures |PlacesFrom(tree, from + [name])| < |PlacesFrom(tree, from)|
    ensures CanHoldDirs(dirs + Part(tree, from, to, done), to)
    ensures Laid(dirs + Part(tree, from, to, done), tree, from + [name], to + [name])
         == dirs + Part(tree, from, to, done) + Subtree(tree, from + [name], to + [name])
  {
    hide Subtree, Laid, PlacesFrom, NamesIn;
    NamesInIs(tree, from, name);
    FewerBelow(tree, from, name);
    var nodes := dirs + Part(tree, from, to, done);
    forall i | 1 <= i <= |to|
      ensures to[..i] in nodes && nodes[to[..i]] == Directory && (to + [name])[..i] == to[..i]
    {
      assert to[..i] !in Part(tree, from, to, done);
    }
    LaidInPlace(nodes, tree, from + [name], to + [name]);
  }

  lemma StillVacant(nodes: Nodes, tree: Nodes, from: Path, to: Path, names: seq<string>, i: nat)
    requires Sorted(names) && i < |names| && forall j | i <= j < |names| :: Vacant(nodes, to + [names[j]])
    ensures forall j | i < j < |names| ::
      Vacant(nodes + Subtree(tree, from + [names[i]], to + [names[i]]), to + [names[j]])
  {
    hide Subtree, Before;
    BeforeIrreflexive(names[i]);
    forall j, p | i < j < |names| && p in nodes + Subtree(tree, from + [names[i]], to + [names[i]])
      ensures !(to + [names[j]] <= p)
    {
      SubtreeIs(tree, from + [names[i]], to + [names[i]], p);
      assert Before(names[i], names[j]);
      NameAt(to, names[i], p);
      NameAt(to, names[j], p);
    }
  }

  lemma DirectoryLaid(before: Nodes, tree: Nodes, from: Path, to: Path, names: seq<string>)
    requires to != [] && Rooted(tree) && IsDirectory(tree, from) && CanHoldDirs(before, to)
    requires forall name :: name in names <==> name in NamesIn(tree, from)
    ensures before + MissingDirs(before, to) + Part(tree, from, to, names) == Laid(before, tree, from, to)
  {
    hide Subtree, MissingDirs, NamesIn, Part, Rooted;
    DirsMade(before, to);
    PartAll(before + MissingDirs(before, to), tree, from, to, names);
  }

  // ----- Room for the copies -----

  /** Neither lies at or below the other. */
  predicate Apart(a: Path, b: Path) {
    !(a <= b) && !(b <= a)
  }

  /** Copies come before links and go to places apart from each other. */
  ghost predicate CopiesApart(acts: seq<Act>) {
    forall j | 0 <= j < |acts| && acts[j].Copy? ::
      acts[j].at != [] && forall i | 0 <= i < j :: acts[i].Copy? && Apart(acts[i].at, acts[j].at)
  }

  ghost predicate Room(nodes: Nodes, stage: Path, acts: seq<Act>, k: nat) {
    forall j | k <= j < |acts| && acts[j].Copy? :: Vacant(nodes, stage + acts[j].at)
  }

  lemma StageHasRoom(nodes: Nodes, stage: Path, acts: seq<Act>)
    requires Vacant(nodes, stage) && CopiesApart(acts)
    ensures Room(Staged(nodes, stage), stage, acts, 0)
  {
    forall j, p | 0 <= j < |acts| && acts[j].Copy? && p in Staged(nodes, stage)
      ensures !(stage + acts[j].at <= p)
    {
      assert stage <= stage + acts[j].at && |stage + acts[j].at| > |stage|;
    }
  }

  lemma GrownLeavesRoom(a: Nodes, b: Nodes, to: Path, other: Path)
    requires Grown(a, b, to) && Vacant(a, other) && Apart(to, other)
    ensures Vacant(b, other)
  {
    forall p | p in b
      ensures !(other <= p)
    {
      Comparable(other, to, p);
    }
  }

  lemma Comparable(a: Path, b: Path, p: Path)
    ensures a <= p && b <= p ==> a <= b || b <= a
    ensures a <= p && p <= b ==> a <= b
  {
  }

  lemma CopyLeavesRoom(nodes: Nodes, root: Path, stage: Path, at: Path, other: Path)
    requires stage + at != [] && Vacant(nodes, stage + at) && Vacant(nodes, stage + other) && Apart(at, other)
    ensures Vacant(Copied(nodes, root, stage + at), stage + other)
  {
    hide Copied, Vacant, Grown;
    CopiedGrown(nodes, root, stage + at);
    BelowMoved(stage, at, other);
    BelowMoved(stage, other, at);
    GrownLeavesRoom(nodes, Copied(nodes, root, stage + at), stage + at, stage + other);
  }

  /** However far an assembly has come, the places of the copies still to be made are free. */
  lemma {:induction false} RoomToCopy(resolve: RealPath, nodes: Nodes, stage: PlainPath, acts: seq<Act>, k: nat)
    requires CopiesApart(acts) && Room(nodes, stage, acts, 0) && k <= |acts|
    ensures Build(resolve, nodes, stage, acts[..k]).Some? ==>
      Room(Build(resolve, nodes, stage, acts[..k]).value, stage, acts, k)
  {
    hide LinksContained, CanHoldDirs, CanLink, Copied, Linked, Vacant, AimAt;
    if k > 0 && Build(resolve, nodes, stage, acts[..k]).Some? {
      assert acts[..k][..k - 1] == acts[..k - 1];
      RoomToCopy(resolve, nodes, stage, acts, k - 1);
      var here := Build(resolve, nodes, stage, acts[..k - 1]).value;
      forall j | k <= j < |acts| && acts[j].Copy?
        ensures Vacant(Build(resolve, nodes, stage, acts[..k]).value, stage + acts[j].at)
      {
        CopyLeavesRoom(here, resolve(here, acts[k - 1].source).value, stage, acts[k - 1].at, acts[j].at);
      }
    }
  }

  lemma RoomNow(nodes: Nodes, stage: Path, acts: seq<Act>, k: nat)
    requires Room(nodes, stage, acts, k) && k < |acts|
    ensures acts[k].Copy? ==> Vacant(nodes, stage + acts[k].at)
  {
  }

  class Disk {
    var nodes: Nodes

    constructor (nodes: Nodes)
      ensures this.nodes == nodes
    {
      this.nodes := nodes;
    }

    method MakeDirs(p: Path) returns (ok: bool)
      modifies this
      ensures ok == CanHoldDirs(old(nodes), p)
      ensures nodes == if ok then old(nodes) + MissingDirs(old(nodes), p) else old(nodes)
    {
      ok := CanHoldDirs(nodes, p);
      if ok { nodes := nodes + MissingDirs(nodes, p); }
    }

    method MakeDir(p: Path) returns (ok: bool)
      requires p != []
      modifies this
      ensures ok == (p !in old(nodes) && IsDirectory(old(nodes), Parent(p)))
      ensures nodes == if ok then old(nodes)[p := Directory] else old(nodes)
    {
      ok := p !in nodes && IsDirectory(nodes, Parent(p));
      if ok { nodes := nodes[p := Directory]; }
    }

    method Symlink(p: Path, target: seq<string>) returns (ok: bool)
      requires p != []
      modifies this
      ensures ok == (p !in old(nodes) && IsDirectory(old(nodes), Parent(p)))
      ensures nodes == if ok then old(nodes)[p := Link(target)] else old(nodes)
    {
      ok := p !in nodes && IsDirectory(nodes, Parent(p));
      if ok { nodes := nodes[p := Link(target)]; }
    }

    /** Moves a directory; only an empty directory may be in its place. */
    method Rename(from: Path, to: Path) returns (ok: bool)
      requires from != [] && to != []
      modifies this
      ensures ok == CanRename(old(nodes), from, to)
      ensures nodes == if ok then Without(Without(old(nodes), from), to) + Subtree(old(nodes), from, to) else old(nodes)
    {
      ok := CanRename(nodes, from, to);
      if ok { nodes := Without(Without(nodes, from), to) + Subtree(nodes, from, to); }
    }

    method Remove(root: Path)
      modifies this
      ensures nodes == Without(old(nodes), root)
    {
      nodes := Without(nodes, root);
    }

    // ----- The assembly's steps -----

    method CopyFile(p: Path, content: string) returns (ok: bool)
      requires p != []
      modifies this
      ensures ok == (!IsDirectory(old(nodes), p) && IsDirectory(old(nodes), Parent(p)))
      ensures nodes == if ok then old(nodes)[p := File(content)] else old(nodes)
    {
      ok := !IsDirectory(nodes, p) && IsDirectory(nodes, Parent(p));
      if ok { nodes := nodes[p := File(content)]; }
    }

    /** Copies one node of a tree and all below it; a link that leads out of the tree fails. */
    method Visit(resolve: RealPath, tree: Nodes, root: Path, from: Path, to: Path) returns (ok: bool)
      requires to != [] && Rooted(tree) && (from == [] || from in tree) && Vacant(nodes, to)
      modifies this
      ensures ok == (LinksBelow(resolve, tree, root, from) && CanHoldDirs(old(nodes), Parent(to)))
      ensures ok ==> nodes == Laid(old(nodes), tree, from, to)
      ensures Grown(old(nodes), nodes, to)
      decreases |PlacesFrom(tree, from)|, 1
    {
      if IsDirectory(tree, from) {
        ok := VisitDirectory(resolve, tree, root, from, to);
      } else {
        ok := VisitLeaf(resolve, tree, root, from, to);
      }
    }

    method VisitLeaf(resolve: RealPath, tree: Nodes, root: Path, from: Path, to: Path) returns (ok: bool)
      requires to != [] && Rooted(tree) && from in tree && !IsDirectory(tree, from) && Vacant(nodes, to)
      modifies this
      ensures ok == (LinksBelow(resolve, tree, root, from) && CanHoldDirs(old(nodes), Parent(to)))
      ensures ok ==> nodes == Laid(old(nodes), tree, from, to)
      ensures Grown(old(nodes), nodes, to)
    {
      hide LinksBelow, Subtree, MissingDirs, CanHoldDirs, Rooted, IsInside, Walk;
      ghost var before := nodes;
      GrownByDirs(before, Parent(to), to);
      LeafLinks(resolve, tree, root, from);
      LeafAlone(tree, from, to);
      ok := MakeDirs(Parent(to));
      if ok {
        DirsMade(before, Parent(to));
        NotItsParent(before, to);
        match tree[from]
        case File(content) => ok := CopyFile(to, content);
        case Link(target) =>
          if !IsInside(root, Walk(Parent(from), target)) { return false; }
          var canonical := resolve(tree, from);
          if canonical.None? || !IsInside(root, canonical.value) { return false; }
          ok := Symlink(to, target);
      }
    }

    /** Makes the directory and copies what it holds, in the order of the names. */
    method VisitDirectory(resolve: RealPath, tree: Nodes, root: Path, from: Path, to: Path) returns (ok: bool)
      requires to != [] && Rooted(tree) && IsDirectory(tree, from) && Vacant(nodes, to)
      modifies this
      ensures ok == (LinksBelow(resolve, tree, root, from) && CanHoldDirs(old(nodes), Parent(to)))
      ensures ok ==> nodes == Laid(old(nodes), tree, from, to)
      ensures Grown(old(nodes), nodes, to)
      decreases |PlacesFrom(tree, from)|, 0
    {
      hide LinksBelow, Subtree, MissingDirs, CanHoldDirs, Rooted, Grown, NamesIn, PlacesFrom, Part, StageStands, Vacant,
           Laid;
      ghost var before := nodes;
      VacantRoom(before, to);
      GrownByDirs(before, to, to);
      GrownSelf(before, to);
      ok := MakeDirs(to);
      if !ok { return; }
      var names := SortedNames(NamesIn(tree, from));
      ghost var dirs := nodes;
      MadeStands(before, to);
      PartNothing(tree, from, to);
      VacantNames(before, to);
      for i := 0 to |names|
        invariant ok ==> nodes == dirs + Part(tree, from, to, names[..i])
        invariant ok ==> forall j | 0 <= j < i :: LinksBelow(resolve, tree, root, from + [names[j]])
        invariant !ok ==> exists j :: 0 <= j < |names| && !LinksBelow(resolve, tree, root, from + [names[j]])
        invariant ok ==> forall j | i <= j < |names| :: Vacant(nodes, to + [names[j]])
        invariant Grown(before, nodes, to)
      {
        if ok {
          ghost var here := nodes;
          TakeOneMore(names, i);
          ReadyFor(dirs, tree, from, to, names[..i], names[i]);
          ok := Visit(resolve, tree, root, from + [names[i]], to + [names[i]]);
          GrownTrans(before, here, nodes, to, names[i]);
          if ok {
            PartOneMore(tree, from, to, names[..i], names[i]);
            StillVacant(here, tree, from, to, names, i);
          }
        }
      }
      assert names[..|names|] == names;
      LinksBelowAll(resolve, tree, root, from, names);
      if ok { DirectoryLaid(before, tree, from, to, names); }
    }

    /** Copies a declared tree whose links stay inside it, to a place that is free. */
    method MaterializeTree(resolve: RealPath, source: Path, destination: Path) returns (ok: bool)
      requires destination != [] && Rooted(nodes) && Vacant(nodes, destination)
      modifies this
      ensures ok == CanCopy(resolve, old(nodes), source, destination)
      ensures ok ==> nodes == Copied(old(nodes), resolve(old(nodes), source).value, destination)
      ensures Grown(old(nodes), nodes, destination)
    {
      hide LinksBelow, Subtree, MissingDirs, CanHoldDirs, Rooted;
      var root := resolve(nodes, source);
      if root.None? || !IsDirectory(nodes, root.value) {
        return false;
      }
      ok := Visit(resolve, nodes, root.value, root.value, destination);
    }

    method RequireDeclaredTree(resolve: RealPath, tree: Path) returns (found: Option<PlainPath>)
      ensures found == DeclaredTree(resolve, nodes, tree)
    {
      if !IsDirectory(nodes, tree) { return None; }
      return resolve(nodes, tree);
    }

    method AddRelativeLink(resolve: RealPath, containedIn: Option<Path>, link: PlainPath, target: PlainPath,
                           targetRoot: Path)
      returns (ok: bool)
      requires link != []
      modifies this
      ensures ok == CanLink(resolve, old(nodes), containedIn, link, target, targetRoot)
      ensures ok ==> nodes == Linked(old(nodes), link, target)
      ensures !ok ==> nodes == old(nodes) || nodes == old(nodes) + MissingDirs(old(nodes), Parent(link))
    {
      if containedIn.Some? && (!IsInside(containedIn.value, link) || !IsInside(containedIn.value, target)) {
        return false;
      }
      var canonicalTarget, canonicalRoot := resolve(nodes, target), resolve(nodes, targetRoot);
      if canonicalTarget.None? || canonicalRoot.None? || !IsInside(canonicalRoot.value, canonicalTarget.value) {
        return false;
      }
      var text := Relative(Parent(link), target);
      if |text| == 0 {
        return false;
      }
      DirsMade(nodes, Parent(link));
      NotItsParent(nodes, link);
      ok := MakeDirs(Parent(link));
      if ok { ok := Symlink(link, text); }
    }

    method Perform(resolve: RealPath, stage: PlainPath, act: Act) returns (ok: bool)
      requires StageStands(nodes, stage) && Rooted(nodes)
      requires act.Copy? ==> Vacant(nodes, stage + act.at)
      modifies this
      ensures ok == Apply(resolve, old(nodes), stage, act).Some?
      ensures ok ==> nodes == Apply(resolve, old(nodes), stage, act).value
      ensures SameOutside(old(nodes), nodes, stage) && StageStands(nodes, stage)
      ensures ok ==> Rooted(nodes)
    {
      hide SameOutside, StageStands, CanLink, CanCopy, Linked, Copied, MissingDirs, Walk, Rooted, Grown;
      ghost var before := nodes;
      SameAsBefore(before, stage);
      if act.at == [] { return false; }
      BelowStage(stage, act.at);
      DirsInside(before, stage, Parent(stage + act.at));
      PlainConcat(stage, act.at);
      match act
      case Copy(source, at) =>
        ok := MaterializeTree(resolve, source, stage + at);
        GrownInside(before, nodes, stage, stage + at);
        if ok { CopyStaysRooted(resolve, before, source, stage + at); }
      case AddLink(at, aim) =>
        match aim {
          case Within(rest) =>
            PlainWalk(stage, rest);
            ok := AddRelativeLink(resolve, Some(stage), stage + at, Walk(stage, rest), stage);
            if ok {
              LinkNeedsRoom(resolve, before, Some(stage), stage + at, Walk(stage, rest), stage);
              LinkedInside(before, stage, at, Walk(stage, rest));
              LinkedRooted(before, stage + at, Walk(stage, rest));
            }
          case Declared(tree, rest) =>
            var dir := RequireDeclaredTree(resolve, tree);
            if dir.None? { return false; }
            PlainWalk(dir.value, rest);
            ok := AddRelativeLink(resolve, None, stage + at, Walk(dir.value, rest), dir.value);
            if ok {
              LinkNeedsRoom(resolve, before, None, stage + at, Walk(dir.value, rest), dir.value);
              LinkedInside(before, stage, at, Walk(dir.value, rest));
              LinkedRooted(before, stage + at, Walk(dir.value, rest));
            }
        }
    }

    /** Builds the tree beside its output and renames it into place; a failure leaves nothing behind. */
    method WithStaging(resolve: RealPath, parent: PlainPath, output: string, stageName: string, acts: seq<Act>)
      returns (ok: bool)
      requires IsName(output) && IsName(stageName) && output != stageName
      requires Rooted(nodes) && Vacant(nodes, parent + [stageName]) && CopiesApart(acts)
      modifies this
      ensures ok == Assembles(resolve, old(nodes), parent, output, stageName, acts)
      ensures nodes == if ok then Assembled(resolve, old(nodes), parent, output, stageName, acts) else old(nodes)
    {
      hide Build, SameOutside, StageStands, Rooted, Subtree, Without, Vacant, CanRename, CopiesApart, Room;
      PlainConcat(parent, [stageName]);
      var target, stage: PlainPath := parent + [output], parent + [stageName];
      assert Parent(stage) == parent;
      ghost var before := nodes;
      SameAsBefore(before, stage);
      ok := MakeDir(stage);
      if ok {
        StageMade(before, parent, stageName);
        ghost var staged := nodes;
        BuildNothing(resolve, staged, stage);
        StageHasRoom(before, stage, acts);
        for i := 0 to |acts|
          invariant ok ==> Build(resolve, staged, stage, acts[..i]) == Some(nodes)
          invariant !ok ==> Build(resolve, staged, stage, acts).None?
          invariant SameOutside(before, nodes, stage) && StageStands(nodes, stage) && (ok ==> Rooted(nodes))
        {
          if ok {
            ghost var here := nodes;
            BuildOneMore(resolve, staged, stage, acts, i);
            RoomToCopy(resolve, staged, stage, acts, i);
            RoomNow(nodes, stage, acts, i);
            ok := Perform(resolve, stage, acts[i]);
            SameOutsideTrans(before, here, nodes, stage);
            if !ok { BuildFails(resolve, staged, stage, acts, i + 1); }
          }
        }
        assert acts[..|acts|] == acts;
      }
      VacantIsSame(before, nodes, stage);
      if ok { ok := Rename(stage, target); }
      if !ok { Remove(stage); }
    }
  }

  lemma BuildNothing(resolve: RealPath, nodes: Nodes, stage: PlainPath)
    ensures forall acts: seq<Act> :: Build(resolve, nodes, stage, acts[..0]) == Some(nodes)
  {
  }

  lemma BuildOneMore(resolve: RealPath, nodes: Nodes, stage: PlainPath, acts: seq<Act>, i: nat)
    requires i < |acts| && Build(resolve, nodes, stage, acts[..i]).Some?
    ensures Build(resolve, nodes, stage, acts[..i + 1])
        == Apply(resolve, Build(resolve, nodes, stage, acts[..i]).value, stage, acts[i])
  {
    hide Apply;
    assert acts[..i + 1][..i] == acts[..i];
  }

  lemma SameOutsideTrans(a: Nodes, b: Nodes, c: Nodes, root: Path)
    requires SameOutside(a, b, root) && SameOutside(b, c, root)
    ensures SameOutside(a, c, root)
  {
  }

  // ----- What an assembled tree holds -----

  ghost predicate Kept(a: Nodes, b: Nodes) {
    forall p | p in a :: p in b && b[p] == a[p]
  }

  lemma ApplyKeeps(resolve: RealPath, nodes: Nodes, stage: PlainPath, act: Act)
    requires Apply(resolve, nodes, stage, act).Some? && (act.Copy? ==> Vacant(nodes, stage + act.at))
    ensures Kept(nodes, Apply(resolve, nodes, stage, act).value)
  {
    hide MissingDirs, Relative, LinksContained, IsInside, Subtree, CanHoldDirs, Walk;
    var here := stage + act.at;
    if act.Copy? {
      CopiedGrown(nodes, resolve(nodes, act.source).value, here);
    }
    MissingIsMissing(nodes, Parent(here));
  }

  lemma MissingIsMissing(nodes: Nodes, p: Path)
    ensures forall q | q in MissingDirs(nodes, p) :: q !in nodes && MissingDirs(nodes, p)[q] == Directory
  {
  }

  /** No copy comes from this position on. */
  ghost predicate LinksFrom(acts: seq<Act>, i: nat) {
    forall j | i <= j < |acts| :: acts[j].AddLink?
  }

  lemma LinksFollowLinks(acts: seq<Act>, i: nat)
    requires CopiesApart(acts) && i < |acts| && acts[i].AddLink?
    ensures LinksFrom(acts, i)
  {
  }

  lemma RoomInFront(nodes: Nodes, stage: Path, acts: seq<Act>, n: nat)
    requires n <= |acts|
    ensures CopiesApart(acts) && Room(nodes, stage, acts, 0) ==>
      CopiesApart(acts[..n]) && Room(nodes, stage, acts[..n], 0)
  {
    hide Vacant, Apart;
  }

  lemma {:induction false} BuildKeeps(resolve: RealPath, nodes: Nodes, stage: PlainPath, acts: seq<Act>, i: nat)
    requires i <= |acts| && Build(resolve, nodes, stage, acts).Some?
    requires LinksFrom(acts, i) || (CopiesApart(acts) && Room(nodes, stage, acts, 0))
    ensures Build(resolve, nodes, stage, acts[..i]).Some?
    ensures Kept(Build(resolve, nodes, stage, acts[..i]).value, Build(resolve, nodes, stage, acts).value)
    decreases |acts|
  {
    hide Apply, Vacant, CopiesApart, Room;
    if i == |acts| {
      assert acts[..i] == acts;
    } else {
      var n := |acts| - 1;
      RoomInFront(nodes, stage, acts, n);
      assert acts[..n][..i] == acts[..i];
      BuildKeeps(resolve, nodes, stage, acts[..n], i);
      if !LinksFrom(acts, i) {
        RoomToCopy(resolve, nodes, stage, acts, n);
        RoomNow(Build(resolve, nodes, stage, acts[..n]).value, stage, acts, n);
      }
      ApplyKeeps(resolve, Build(resolve, nodes, stage, acts[..n]).value, stage, acts[n]);
    }
  }

  /** The target a link act finds when its turn comes. */
  ghost function TargetOf(resolve: RealPath, nodes: Nodes, stage: PlainPath, acts: seq<Act>, i: nat): Option<PlainPath>
    requires i < |acts| && acts[i].AddLink?
  {
    match Build(resolve, nodes, stage, acts[..i])
    case None => None
    case Some(built) =>
      match AimAt(resolve, built, stage, acts[i].aim)
      case None => None
      case Some(found) => Some(found.0)
  }

  /** Every link act leaves its link in the built tree, and a link aiming inside stays inside. */
  lemma LinkIsLaid(resolve: RealPath, nodes: Nodes, stage: PlainPath, acts: seq<Act>, i: nat)
    requires i < |acts| && acts[i].AddLink? && Build(resolve, nodes, stage, acts).Some? && CopiesApart(acts)
    ensures acts[i].at != [] && TargetOf(resolve, nodes, stage, acts, i).Some?
    ensures var built, target := Build(resolve, nodes, stage, acts).value,
                        TargetOf(resolve, nodes, stage, acts, i).value;
      && stage + acts[i].at in built
      && built[stage + acts[i].at] == Link(Relative(stage + Parent(acts[i].at), target))
      && (acts[i].aim.Within? ==> stage <= target)
  {
    hide MissingDirs, Relative, LinksContained, CanHoldDirs, Walk, Build, IsInside;
    var before := acts[..i];
    LinksFollowLinks(acts, i);
    BuildKeeps(resolve, nodes, stage, acts, i);
    BuildKeeps(resolve, nodes, stage, acts, i + 1);
    BuildOneMore(resolve, nodes, stage, acts, i);
    var built := Build(resolve, nodes, stage, before).value;
    assert Apply(resolve, built, stage, acts[i]).Some?;
    BelowStage(stage, acts[i].at);
    var target := AimAt(resolve, built, stage, acts[i].aim).value.0;
    InsideIsPrefix(stage, target);
    assert Apply(resolve, built, stage, acts[i]).value == Linked(built, stage + acts[i].at, target);
  }

  /**
   * In the renamed tree each link leads from its own directory to its target: the same place when the target is outside
   * the stage, and the moved counterpart when it was inside.
   */
  lemma AssembledLinkLeads(resolve: RealPath, nodes: Nodes, parent: PlainPath, output: string, stageName: string,
                           acts: seq<Act>, i: nat)
    requires IsName(output) && IsName(stageName) && Assembles(resolve, nodes, parent, output, stageName, acts)
    requires i < |acts| && acts[i].AddLink? && Clean(parent + [stageName]) && CopiesApart(acts)
    ensures acts[i].at != []
    ensures TargetOf(resolve, Staged(nodes, parent + [stageName]), parent + [stageName], acts, i).Some?
    ensures
      var stage := parent + [stageName];
      var link := parent + [output] + acts[i].at;
      var after := Assembled(resolve, nodes, parent, output, stageName, acts);
      var target := TargetOf(resolve, Staged(nodes, stage), stage, acts, i).value;
      && link in after && after[link] == Link(Relative(stage + Parent(acts[i].at), target))
      && (stage <= target ==> Walk(Parent(link), after[link].target) == parent + [output] + target[|stage|..])
      && (!(stage <= target) ==> Walk(Parent(link), after[link].target) == target)
      && (acts[i].aim.Within? ==> stage <= target)
  {
    hide Build, Relative, Walk, Subtree, Without, CanRename, TargetOf, IsInside;
    var stage: PlainPath := parent + [stageName];
    var staged := Staged(nodes, stage);
    LinkIsLaid(resolve, staged, stage, acts, i);
    var built := Build(resolve, staged, stage, acts).value;
    var at := acts[i].at;
    var target := TargetOf(resolve, staged, stage, acts, i).value;
    var link := parent + [output] + at;
    BelowStage(parent + [output], at);
    SubtreeIs(built, stage, parent + [output], link);
    assert link[|parent + [output]|..] == at;
    if stage <= target {
      var rest := target[|stage|..];
      assert target == stage + rest;
      PlainConcat(stage, rest);
      PlainConcat(parent, [output]);
      PlainConcat(parent + [output], rest);
      InnerLinkMoves(stage, parent + [output], Parent(at), rest);
    } else {
      OuterLinkStays(parent, stageName, output, Parent(at), target);
    }
  }

  /**
   * When a root above the output is moved with everything below it, each assembled link whose target lies below that
   * root leads to the moved target: the moved place in the output for a target in the stage, the moved tree for one
   * outside.
   */
  lemma AssembledLinkMoves(resolve: RealPath, nodes: Nodes, root: Path, below: Path, moved: Path, output: string,
                           stageName: string, acts: seq<Act>, i: nat)
    requires Clean(root + below) && Clean(root + below + [stageName]) && Clean(moved) && IsName(output)
    requires IsName(stageName)
    requires Assembles(resolve, nodes, root + below, output, stageName, acts) && i < |acts| && acts[i].AddLink?
    requires CopiesApart(acts)
    ensures acts[i].at != []
    ensures TargetOf(resolve, Staged(nodes, root + below + [stageName]), root + below + [stageName], acts, i).Some?
    ensures
      var stage := root + below + [stageName];
      var link := root + below + [output] + acts[i].at;
      var after := Assembled(resolve, nodes, root + below, output, stageName, acts);
      var target := TargetOf(resolve, Staged(nodes, stage), stage, acts, i).value;
      var movedLink := moved + below + [output] + acts[i].at;
      && link in after && after[link].Link?
      && (stage <= target ==>
          Walk(Parent(movedLink), after[link].target) == moved + below + [output] + target[|stage|..])
      && (!(stage <= target) && root <= target ==>
          Walk(Parent(movedLink), after[link].target) == moved + target[|root|..])
  {
    hide Build, Relative, Walk, Subtree, Without, CanRename, TargetOf, IsInside, Assembles, Assembled, Clean;
    PlainConcat(root + below, [stageName]);
    var stage: PlainPath := root + below + [stageName];
    var at := acts[i].at;
    AssembledLinkLeads(resolve, nodes, root + below, output, stageName, acts, i);
    var target := TargetOf(resolve, Staged(nodes, stage), stage, acts, i).value;
    BelowStage(moved + below + [output], at);
    if stage <= target {
      var rest := target[|stage|..];
      assert target == stage + rest;
      PlainConcat(stage, rest);
      PlainOutput(root, below, moved, output, rest);
      InnerLinkMoves(stage, moved + below + [output], Parent(at), rest);
    } else if root <= target {
      var rest := target[|root|..];
      assert target == root + rest;
      PlainConcat(root, rest);
      PlainConcat(moved, rest);
      assert root + (below + [stageName]) == stage;
      BelowMoved(root, below + [stageName], rest);
      OuterLinkMoves(root, moved, below, stageName, output, Parent(at), rest);
    }
  }

  lemma PlainOutput(root: Path, below: Path, moved: Path, output: string, rest: Path)
    requires Clean(root + below) && Clean(moved) && IsName(output) && Clean(rest)
    ensures Clean(moved + below + [output] + rest)
  {
    hide IsName;
    PlainConcat(root, below);
    PlainConcat(moved, below);
    PlainConcat(moved + below, [output]);
    PlainConcat(moved + below + [output], rest);
  }

  ghost predicate OnlyDirectoriesAndLinks(nodes: Nodes, root: Path) {
    forall p | p in nodes && root <= p :: nodes[p].Directory? || nodes[p].Link?
  }

  lemma {:induction false} LinksOnlyBuild(resolve: RealPath, nodes: Nodes, stage: PlainPath, acts: seq<Act>)
    requires (forall i | 0 <= i < |acts| :: acts[i].AddLink?) && Build(resolve, nodes, stage, acts).Some?
    requires OnlyDirectoriesAndLinks(nodes, stage)
    ensures OnlyDirectoriesAndLinks(Build(resolve, nodes, stage, acts).value, stage)
  {
    hide MissingDirs, Relative, CanHoldDirs, Walk, IsInside;
    if acts != [] {
      var n := |acts| - 1;
      LinksOnlyBuild(resolve, nodes, stage, acts[..n]);
      assert acts[n].AddLink?;
      var built := Build(resolve, nodes, stage, acts[..n]).value;
      MissingIsMissing(built, Parent(stage + acts[n].at));
    }
  }

  /** A tree assembled from links alone holds no file. */
  lemma ViewHoldsNoFiles(resolve: RealPath, nodes: Nodes, parent: PlainPath, output: string, stageName: string,
                         acts: seq<Act>)
    requires IsName(output) && IsName(stageName) && Assembles(resolve, nodes, parent, output, stageName, acts)
    requires Vacant(nodes, parent + [stageName]) && forall i | 0 <= i < |acts| :: acts[i].AddLink?
    ensures OnlyDirectoriesAndLinks(Assembled(resolve, nodes, parent, output, stageName, acts), parent + [output])
  {
    hide Build, Subtree, CanRename;
    PlainConcat(parent, [stageName]);
    var stage: PlainPath := parent + [stageName];
    LinksOnlyBuild(resolve, Staged(nodes, stage), stage, acts);
    var built := Build(resolve, Staged(nodes, stage), stage, acts).value;
    forall p | p in Subtree(built, stage, parent + [output])
      ensures Subtree(built, stage, parent + [output])[p].Directory?
        || Subtree(built, stage, parent + [output])[p].Link?
    {
      SubtreeIs(built, stage, parent + [output], p);
      assert stage <= stage + p[|parent + [output]|..];
    }
  }

  /** Nothing outside the output changes. */
  lemma OnlyOutputChanges(resolve: RealPath, nodes: Nodes, parent: PlainPath, output: string, stageName: string,
                          acts: seq<Act>)
    requires IsName(output) && IsName(stageName) && Assembles(resolve, nodes, parent, output, stageName, acts)
    ensures SameOutside(nodes, Assembled(resolve, nodes, parent, output, stageName, acts), parent + [output])
  {
    hide Build, Subtree, CanRename;
    PlainConcat(parent, [stageName]);
    var stage: PlainPath := parent + [stageName];
    var target := parent + [output];
    var built := Build(resolve, Staged(nodes, stage), stage, acts).value;
    forall p ensures p in Subtree(built, stage, target) ==> target <= p { SubtreeIs(built, stage, target, p); }
    var after := Without(nodes, target) + Subtree(built, stage, target);
    assert Without(after, target) == Without(nodes, target);
  }

  /** A copied tree stands in the output node for node. */
  lemma CopyStands(resolve: RealPath, nodes: Nodes, stage: PlainPath, acts: seq<Act>, i: nat, rest: Path)
    requires i < |acts| && acts[i].Copy? && Build(resolve, nodes, stage, acts).Some?
    requires CopiesApart(acts) && Room(nodes, stage, acts, 0)
    ensures Build(resolve, nodes, stage, acts[..i]).Some?
    ensures var before := Build(resolve, nodes, stage, acts[..i]).value;
      && resolve(before, acts[i].source).Some?
      && var from := resolve(before, acts[i].source).value + rest;
         from in before ==>
           var to := stage + acts[i].at + rest;
           to in Build(resolve, nodes, stage, acts).value
           && Build(resolve, nodes, stage, acts).value[to] == before[from]
  {
    hide MissingDirs, LinksContained, CanHoldDirs, Build, Subtree, AimAt;
    BuildKeeps(resolve, nodes, stage, acts, i);
    BuildKeeps(resolve, nodes, stage, acts, i + 1);
    BuildOneMore(resolve, nodes, stage, acts, i);
    var before := Build(resolve, nodes, stage, acts[..i]).value;
    var root := resolve(before, acts[i].source).value;
    var to := stage + acts[i].at + rest;
    SubtreeIs(before, root, stage + acts[i].at, to);
    assert to[|stage + acts[i].at|..] == rest;
  }

  // ----- What stands in the output -----

  /** A link stands at the place, and following its text from its directory ends at the target. */
  ghost predicate LinkLeads(nodes: Nodes, link: Path, target: Path) {
    link != [] && link in nodes && nodes[link].Link? && Walk(Parent(link), nodes[link].target) == target
  }

  /** Where a place is after the stage has become the root. */
  function Moved(stage: Path, root: Path, p: Path): Path {
    if stage <= p then root + p[|stage|..] else p
  }

  /** The target exists and, all links resolved, lies in the directory. */
  ghost predicate Backed(resolve: RealPath, nodes: Nodes, dir: Path, target: Path) {
    && resolve(nodes, target).Some? && resolve(nodes, dir).Some?
    && resolve(nodes, dir).value <= resolve(nodes, target).value
  }

  /** On some disk that differs at most in the stage, the tree is declared and resolves to dir, which has the target. */
  ghost predicate DeclaredAt(resolve: RealPath, nodes: Nodes, stage: Path, tree: Path, dir: Path, target: Path) {
    exists b :: SameOutside(nodes, b, stage) && IsDirectory(b, tree) && resolve(b, tree) == Some(dir)
      && Backed(resolve, b, dir, target)
  }

  /** A link stands at the place that leads to the rest of the way from a declared tree, to something the tree has. */
  ghost predicate LeadsInto(resolve: RealPath, before: Nodes, stage: Path, root: Path, after: Nodes, link: Path,
                            tree: Path, rest: Path) {
    exists dir :: DeclaredAt(resolve, before, stage, tree, dir, Walk(dir, rest))
      && LinkLeads(after, link, Moved(stage, root, Walk(dir, rest)))
  }

  /** A link stands at the place that leads to the rest of the way from the output, to something the stage had. */
  ghost predicate LeadsWithin(resolve: RealPath, before: Nodes, stage: Path, root: Path, after: Nodes, link: Path,
                              rest: Path) {
    && LinkLeads(after, link, root + rest)
    && exists b :: SameOutside(before, b, stage) && Backed(resolve, b, stage, stage + rest)
  }

  /** The tree the source resolves to stands at the place, node for node. */
  ghost predicate StandsAt(nodes: Nodes, from: Path, after: Nodes, place: Path) {
    && IsDirectory(after, place)
    && forall p | p in nodes && from <= p :: place + p[|from|..] in after && after[place + p[|from|..]] == nodes[p]
  }

  /** Every link of the tree leads into it, by its own text and with all links resolved. */
  ghost predicate ClosedTree(resolve: RealPath, nodes: Nodes, root: Path) {
    forall p | p in nodes && root <= p && p != [] && nodes[p].Link? ::
      && IsInside(root, Walk(Parent(p), nodes[p].target))
      && resolve(nodes, p).Some? && root <= resolve(nodes, p).value
  }

  ghost predicate CopiedFrom(resolve: RealPath, before: Nodes, stage: Path, source: Path, after: Nodes, place: Path) {
    exists b, from: PlainPath ::
      && SameOutside(before, b, stage) && resolve(b, source) == Some(from) && ClosedTree(resolve, b, from)
      && StandsAt(before, from, after, place)
  }

  lemma ApplyInside(resolve: RealPath, nodes: Nodes, stage: PlainPath, act: Act)
    requires StageStands(nodes, stage) && Rooted(nodes) && Apply(resolve, nodes, stage, act).Some?
    requires act.Copy? ==> Vacant(nodes, stage + act.at)
    ensures SameOutside(nodes, Apply(resolve, nodes, stage, act).value, stage)
    ensures StageStands(Apply(resolve, nodes, stage, act).value, stage)
    ensures Rooted(Apply(resolve, nodes, stage, act).value)
  {
    hide SameOutside, StageStands, CanLink, LinksContained, CanHoldDirs, IsDirectory, Linked, Copied, MissingDirs, Walk,
         Grown, Vacant, Rooted;
    BelowStage(stage, act.at);
    PlainConcat(stage, act.at);
    if act.Copy? {
      var root := resolve(nodes, act.source).value;
      CopiedGrown(nodes, root, stage + act.at);
      GrownInside(nodes, Copied(nodes, root, stage + act.at), stage, stage + act.at);
      CopyStaysRooted(resolve, nodes, act.source, stage + act.at);
    } else {
      var found := AimAt(resolve, nodes, stage, act.aim).value;
      LinkNeedsRoom(resolve, nodes, if act.aim.Within? then Some(stage) else None, stage + act.at, found.0, found.1);
      LinkedInside(nodes, stage, act.at, found.0);
      LinkedRooted(nodes, stage + act.at, found.0);
    }
  }

  /** However far an assembly has come, nothing outside the stage has changed. */
  lemma {:induction false} BuildInside(resolve: RealPath, nodes: Nodes, stage: PlainPath, acts: seq<Act>, k: nat)
    requires CopiesApart(acts) && Room(nodes, stage, acts, 0) && StageStands(nodes, stage) && k <= |acts|
    requires Rooted(nodes)
    ensures Build(resolve, nodes, stage, acts[..k]).Some? ==>
      var built := Build(resolve, nodes, stage, acts[..k]).value;
      SameOutside(nodes, built, stage) && StageStands(built, stage) && Rooted(built)
  {
    hide Apply, SameOutside, StageStands, Vacant, Rooted;
    SameAsBefore(nodes, stage);
    if k > 0 && Build(resolve, nodes, stage, acts[..k]).Some? {
      assert acts[..k][..k - 1] == acts[..k - 1];
      BuildInside(resolve, nodes, stage, acts, k - 1);
      RoomToCopy(resolve, nodes, stage, acts, k - 1);
      var here := Build(resolve, nodes, stage, acts[..k - 1]).value;
      ApplyInside(resolve, here, stage, acts[k - 1]);
      SameOutsideTrans(nodes, here, Apply(resolve, here, stage, acts[k - 1]).value, stage);
    }
  }

  /** The disk a step of an assembly finds differs from the first one in the stage only. */
  lemma FoundOutside(resolve: RealPath, nodes: Nodes, parent: PlainPath, output: string, stageName: string,
                     acts: seq<Act>, i: nat)
    requires IsName(output) && IsName(stageName) && Assembles(resolve, nodes, parent, output, stageName, acts)
    requires Rooted(nodes) && Vacant(nodes, parent + [stageName]) && CopiesApart(acts) && i < |acts|
    ensures Clean(parent + [stageName]) && Room(Staged(nodes, parent + [stageName]), parent + [stageName], acts, 0)
    ensures Build(resolve, Staged(nodes, parent + [stageName]), parent + [stageName], acts).Some?
    ensures var found := Build(resolve, Staged(nodes, parent + [stageName]), parent + [stageName], acts[..i]);
      found.Some? && SameOutside(nodes, found.value, parent + [stageName]) && Rooted(found.value)
  {
    hide Build, SameOutside, StageStands, Rooted, Vacant, CanRename, CopiesApart, Room;
    PlainConcat(parent, [stageName]);
    var stage: PlainPath := parent + [stageName];
    StageMade(nodes, parent, stageName);
    StageHasRoom(nodes, stage, acts);
    var staged := Staged(nodes, stage);
    BuildInside(resolve, staged, stage, acts, i);
    BuildKeeps(resolve, staged, stage, acts, i);
    SameOutsideTrans(nodes, staged, Build(resolve, staged, stage, acts[..i]).value, stage);
  }

  /** An assembly replaces nothing but an empty directory: anything else at the output, or below it, makes it fail. */
  lemma OccupiedOutputStays(resolve: RealPath, nodes: Nodes, parent: PlainPath, output: string, stageName: string,
                            acts: seq<Act>, p: Path)
    requires IsName(output) && IsName(stageName) && output != stageName
    requires Rooted(nodes) && Vacant(nodes, parent + [stageName]) && CopiesApart(acts)
    requires p in nodes && parent + [output] <= p && (p == parent + [output] ==> nodes[p] != Directory)
    ensures !Assembles(resolve, nodes, parent, output, stageName, acts)
  {
    hide Build, StageStands, Rooted, Vacant, CopiesApart, Room;
    PlainConcat(parent, [stageName]);
    var stage: PlainPath := parent + [stageName];
    if Assembles(resolve, nodes, parent, output, stageName, acts) {
      StageMade(nodes, parent, stageName);
      StageHasRoom(nodes, stage, acts);
      var staged := Staged(nodes, stage);
      assert acts[..|acts|] == acts;
      BuildInside(resolve, staged, stage, acts, |acts|);
      var built := Build(resolve, staged, stage, acts).value;
      SameOutsideTrans(nodes, staged, built, stage);
      assert p[|parent|] == output;
      assert p in Without(nodes, stage) && p in Without(built, stage);
      assert p[..|parent| + 1] == parent + [output];
      PrefixIn(built, p, |parent| + 1);
    }
  }

  /** A link aimed inside the tree leads, in the output, to the place it was aimed at. */
  lemma WithinLeads(resolve: RealPath, nodes: Nodes, parent: PlainPath, output: string, stageName: string,
                    acts: seq<Act>, at: PlainPath, rest: PlainPath)
    requires IsName(output) && IsName(stageName) && Assembles(resolve, nodes, parent, output, stageName, acts)
    requires Rooted(nodes) && Vacant(nodes, parent + [stageName])
    requires CopiesApart(acts) && AddLink(at, Within(rest)) in acts
    ensures LeadsWithin(resolve, nodes, parent + [stageName], parent + [output],
                        Assembled(resolve, nodes, parent, output, stageName, acts), parent + [output] + at, rest)
  {
    hide Build, Relative, Walk, Assembles, Assembled, CopiesApart, SameOutside, Rooted, Vacant;
    PlainConcat(parent, [stageName]);
    var stage: PlainPath := parent + [stageName];
    var i: nat :| i < |acts| && acts[i] == AddLink(at, Within(rest));
    AssembledLinkLeads(resolve, nodes, parent, output, stageName, acts, i);
    WalkNames(stage, rest);
    assert (stage + rest)[|stage|..] == rest;
    FoundOutside(resolve, nodes, parent, output, stageName, acts, i);
    StepSucceeds(resolve, Staged(nodes, stage), stage, acts, i);
    var found := Build(resolve, Staged(nodes, stage), stage, acts[..i]).value;
    TargetBacked(resolve, found, stage, acts[i]);
  }

  /** Each step of an assembly that succeeds finds what it needs. */
  lemma StepSucceeds(resolve: RealPath, nodes: Nodes, stage: PlainPath, acts: seq<Act>, i: nat)
    requires i < |acts| && Build(resolve, nodes, stage, acts).Some? && Build(resolve, nodes, stage, acts[..i]).Some?
    ensures Apply(resolve, Build(resolve, nodes, stage, acts[..i]).value, stage, acts[i]).Some?
  {
    hide Apply;
    if Build(resolve, nodes, stage, acts[..i + 1]).None? { BuildFails(resolve, nodes, stage, acts, i + 1); }
    BuildOneMore(resolve, nodes, stage, acts, i);
  }

  /** The target of a link that is made exists, in the tree it must stay in. */
  lemma TargetBacked(resolve: RealPath, nodes: Nodes, stage: PlainPath, act: Act)
    requires act.AddLink? && Apply(resolve, nodes, stage, act).Some?
    ensures AimAt(resolve, nodes, stage, act.aim).Some?
    ensures var found := AimAt(resolve, nodes, stage, act.aim).value; Backed(resolve, nodes, found.1, found.0)
  {
    hide Walk, Relative, CanHoldDirs, IsInside;
    var found := AimAt(resolve, nodes, stage, act.aim).value;
    InsideIsPrefix(resolve(nodes, found.1).value, resolve(nodes, found.0).value);
  }

  /** A link aimed into a declared tree leads, in the output, where it was aimed, moved if that was in the stage. */
  lemma DeclaredLeads(resolve: RealPath, nodes: Nodes, parent: PlainPath, output: string, stageName: string,
                      acts: seq<Act>, at: PlainPath, tree: Path, rest: Path)
    requires IsName(output) && IsName(stageName) && Assembles(resolve, nodes, parent, output, stageName, acts)
    requires Rooted(nodes) && Vacant(nodes, parent + [stageName])
    requires CopiesApart(acts) && AddLink(at, Declared(tree, rest)) in acts
    ensures LeadsInto(resolve, nodes, parent + [stageName], parent + [output],
                      Assembled(resolve, nodes, parent, output, stageName, acts), parent + [output] + at, tree, rest)
  {
    hide Build, Relative, Walk, Assembles, Assembled, CopiesApart, SameOutside, Rooted, Vacant, IsDirectory;
    PlainConcat(parent, [stageName]);
    var stage: PlainPath := parent + [stageName];
    var i: nat :| i < |acts| && acts[i] == AddLink(at, Declared(tree, rest));
    AssembledLinkLeads(resolve, nodes, parent, output, stageName, acts, i);
    FoundOutside(resolve, nodes, parent, output, stageName, acts, i);
    var found := Build(resolve, Staged(nodes, stage), stage, acts[..i]).value;
    StepSucceeds(resolve, Staged(nodes, stage), stage, acts, i);
    TargetBacked(resolve, found, stage, acts[i]);
    var dir := DeclaredTree(resolve, found, tree).value;
    assert DeclaredAt(resolve, nodes, stage, tree, dir, Walk(dir, rest));
  }

  lemma SourceClosed(resolve: RealPath, nodes: Nodes, stage: PlainPath, act: Act)
    requires act.Copy? && Apply(resolve, nodes, stage, act).Some?
    ensures resolve(nodes, act.source).Some? && ClosedTree(resolve, nodes, resolve(nodes, act.source).value)
  {
    hide CanHoldDirs, Copied, Walk;
    var root := resolve(nodes, act.source).value;
    forall p: Path | p in nodes && root <= p && p != [] && nodes[p].Link?
      ensures IsInside(root, Walk(Parent(p), nodes[p].target))
      ensures resolve(nodes, p).Some? && root <= resolve(nodes, p).value
    {
      assert LinkStays(resolve, nodes, root, p);
      InsideIsPrefix(root, resolve(nodes, p).value);
    }
  }

  lemma CopyIsDirectory(nodes: Nodes, root: Path, destination: Path)
    requires destination != [] && Rooted(nodes) && IsDirectory(nodes, root) && Vacant(nodes, destination)
    ensures IsDirectory(Copied(nodes, root, destination), destination)
  {
    hide Subtree;
    assert [] !in nodes;
    SubtreeIs(nodes, root, destination, destination);
    assert destination[|destination|..] == [] && root + [] == root && destination[..|destination|] == destination;
  }

  /** A copy stands in the output as the source stood before the assembly. */
  lemma CopyStandsIn(resolve: RealPath, nodes: Nodes, parent: PlainPath, output: string, stageName: string,
                     acts: seq<Act>, source: Path, at: PlainPath)
    requires IsName(output) && IsName(stageName) && Assembles(resolve, nodes, parent, output, stageName, acts)
    requires Rooted(nodes) && Vacant(nodes, parent + [stageName])
    requires CopiesApart(acts) && Copy(source, at) in acts
    ensures CopiedFrom(resolve, nodes, parent + [stageName], source,
                       Assembled(resolve, nodes, parent, output, stageName, acts), parent + [output] + at)
  {
    hide Build, Assembles, CopiesApart, Rooted, Room, SameOutside, Vacant, IsDirectory, Copied, Subtree, Without,
         CanRename, CanHoldDirs, LinksContained;
    PlainConcat(parent, [stageName]);
    var stage: PlainPath := parent + [stageName];
    var staged := Staged(nodes, stage);
    var i: nat :| i < |acts| && acts[i] == Copy(source, at);
    FoundOutside(resolve, nodes, parent, output, stageName, acts, i);
    var found := Build(resolve, staged, stage, acts[..i]).value;
    var built := Build(resolve, staged, stage, acts).value;
    var after := Assembled(resolve, nodes, parent, output, stageName, acts);
    CopyStands(resolve, staged, stage, acts, i, []);
    var from := resolve(found, source).value;
    CopyMade(resolve, staged, stage, acts, i);
    StepSucceeds(resolve, staged, stage, acts, i);
    SourceClosed(resolve, found, stage, acts[i]);
    InOutput(resolve, nodes, parent, output, stageName, acts, at);
    SameNodes(nodes, found, stage);
    var place := parent + [output] + at;
    forall p: Path | p in nodes && from <= p
      ensures place + p[|from|..] in after && after[place + p[|from|..]] == nodes[p]
    {
      var rest := p[|from|..];
      assert p == from + rest;
      CopyStands(resolve, staged, stage, acts, i, rest);
      InOutput(resolve, nodes, parent, output, stageName, acts, at + rest);
      Regrouped(stage, at, rest);
      Regrouped(parent + [output], at, rest);
    }
    PlaceIsDirectory(built, after, stage + at, place);
    assert StandsAt(nodes, from, after, place);
  }

  lemma Regrouped(a: Path, b: Path, c: Path)
    ensures a + (b + c) == a + b + c
  {
  }

  lemma PlaceIsDirectory(built: Nodes, after: Nodes, p: Path, q: Path)
    requires IsDirectory(built, p) && p != []
    requires p in built ==> q in after && after[q] == built[p]
    ensures IsDirectory(after, q)
  {
  }

  /** What stands in the stage stands in the output. */
  lemma InOutput(resolve: RealPath, nodes: Nodes, parent: PlainPath, output: string, stageName: string, acts: seq<Act>,
                 rest: Path)
    requires IsName(output) && IsName(stageName) && Assembles(resolve, nodes, parent, output, stageName, acts)
    requires Clean(parent + [stageName])
    ensures Build(resolve, Staged(nodes, parent + [stageName]), parent + [stageName], acts).Some?
    ensures var built := Build(resolve, Staged(nodes, parent + [stageName]), parent + [stageName], acts).value;
      var after := Assembled(resolve, nodes, parent, output, stageName, acts);
      && (parent + [output] + rest in after <==> parent + [stageName] + rest in built)
      && (parent + [output] + rest in after ==> after[parent + [output] + rest] == built[parent + [stageName] + rest])
  {
    hide Build, Subtree, CanRename;
    var place := parent + [output] + rest;
    SubtreeIs(Build(resolve, Staged(nodes, parent + [stageName]), parent + [stageName], acts).value,
              parent + [stageName], parent + [output], place);
    assert place[|parent + [output]|..] == rest;
  }

  /** Outside the stage the disks agree. */
  lemma SameNodes(nodes: Nodes, found: Nodes, stage: Path)
    requires Vacant(nodes, stage) && SameOutside(nodes, found, stage)
    ensures forall p | p in nodes :: p in found && found[p] == nodes[p]
  {
    forall p | p in nodes
      ensures p in found && found[p] == nodes[p]
    {
      assert p in Without(nodes, stage) && Without(nodes, stage)[p] == nodes[p];
      assert p in Without(found, stage) && Without(found, stage)[p] == found[p];
    }
  }

  lemma CopyMade(resolve: RealPath, nodes: Nodes, stage: PlainPath, acts: seq<Act>, i: nat)
    requires i < |acts| && acts[i].Copy? && Build(resolve, nodes, stage, acts).Some?
    requires CopiesApart(acts) && Room(nodes, stage, acts, 0)
    requires Build(resolve, nodes, stage, acts[..i]).Some? && Rooted(Build(resolve, nodes, stage, acts[..i]).value)
    ensures IsDirectory(Build(resolve, nodes, stage, acts).value, stage + acts[i].at) && stage + acts[i].at != []
  {
    hide MissingDirs, LinksContained, CanHoldDirs, Build, Subtree, AimAt, Vacant, Room, CopiesApart, Copied, Rooted;
    BuildKeeps(resolve, nodes, stage, acts, i);
    BuildKeeps(resolve, nodes, stage, acts, i + 1);
    BuildOneMore(resolve, nodes, stage, acts, i);
    RoomToCopy(resolve, nodes, stage, acts, i);
    var before := Build(resolve, nodes, stage, acts[..i]).value;
    RoomNow(before, stage, acts, i);
    CopyIsDirectory(before, resolve(before, acts[i].source).value, stage + acts[i].at);
  }

  // ----- Nothing else stands there -----

  /** The node is the step's link, or lies in its copy. */
  predicate PlacedBy(act: Act, root: Path, p: Path) {
    if act.Copy? then root + act.at <= p else p == root + act.at
  }

  ghost predicate Accounted(nodes: Nodes, root: Path, acts: seq<Act>) {
    forall p | p in nodes && root <= p :: nodes[p] == Directory || exists act :: act in acts && PlacedBy(act, root, p)
  }

  lemma {:induction false} BuildAccounted(resolve: RealPath, nodes: Nodes, stage: PlainPath, acts: seq<Act>)
    requires Build(resolve, nodes, stage, acts).Some? && Accounted(nodes, stage, [])
    ensures Accounted(Build(resolve, nodes, stage, acts).value, stage, acts)
  {
    hide Apply, PlacedBy;
    if acts != [] {
      var n := |acts| - 1;
      BuildAccounted(resolve, nodes, stage, acts[..n]);
      var built := Build(resolve, nodes, stage, acts[..n]).value;
      var after := Build(resolve, nodes, stage, acts).value;
      assert acts == acts[..n] + [acts[n]];
      forall p | p in after && stage <= p && after[p] != Directory
        ensures exists act :: act in acts && PlacedBy(act, stage, p)
      {
        OneStepPlaces(resolve, built, stage, acts[n], p);
        if p in built && built[p] == after[p] {
          var act :| act in acts[..n] && PlacedBy(act, stage, p);
        } else {
          assert acts[n] in acts;
        }
      }
    }
  }

  lemma OneStepPlaces(resolve: RealPath, nodes: Nodes, stage: PlainPath, act: Act, p: Path)
    requires Apply(resolve, nodes, stage, act).Some? && p in Apply(resolve, nodes, stage, act).value
    ensures var after := Apply(resolve, nodes, stage, act).value;
      (p in nodes && nodes[p] == after[p]) || after[p] == Directory || PlacedBy(act, stage, p)
  {
    hide LinksContained, CanHoldDirs, CanLink, AimAt, Subtree, Relative, IsInside, Walk;
    var here := stage + act.at;
    if act.Copy? { SubtreeIs(nodes, resolve(nodes, act.source).value, here, p); }
  }

  /** Every node of the output is a directory, a link of some step, or part of some step's copy. */
  lemma OutputAccounted(resolve: RealPath, nodes: Nodes, parent: PlainPath, output: string, stageName: string,
                        acts: seq<Act>)
    requires IsName(output) && IsName(stageName) && Assembles(resolve, nodes, parent, output, stageName, acts)
    requires Vacant(nodes, parent + [stageName])
    ensures Accounted(Assembled(resolve, nodes, parent, output, stageName, acts), parent + [output], acts)
  {
    hide Build, Assembles, Assembled;
    PlainConcat(parent, [stageName]);
    var stage: PlainPath := parent + [stageName];
    InOutput(resolve, nodes, parent, output, stageName, acts, []);
    var built := Build(resolve, Staged(nodes, stage), stage, acts).value;
    var after := Assembled(resolve, nodes, parent, output, stageName, acts);
    BuildAccounted(resolve, Staged(nodes, stage), stage, acts);
    forall p | p in after && parent + [output] <= p && after[p] != Directory
      ensures exists act :: act in acts && PlacedBy(act, parent + [output], p)
    {
      var rest := p[|parent + [output]|..];
      assert p == parent + [output] + rest;
      InOutput(resolve, nodes, parent, output, stageName, acts, rest);
      var act :| act in acts && PlacedBy(act, stage, stage + rest);
      SamePlace(stage, parent + [output], act.at, rest);
      assert PlacedBy(act, parent + [output], p);
    }
  }

  lemma SamePlace(stage: Path, root: Path, at: Path, rest: Path)
    ensures stage + at <= stage + rest <==> root + at <= root + rest
    ensures stage + rest == stage + at <==> root + rest == root + at
  {
    forall base: Path
      ensures base + at <= base + rest <==> at <= rest
      ensures base + rest == base + at <==> rest == at
    {
      assert (base + rest)[|base|..] == rest && (base + at)[|base|..] == at;
      if base + at <= base + rest { assert (base + rest)[..|base + at|] == base + at && at == rest[..|at|]; }
    }
  }
}
