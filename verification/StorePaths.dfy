/** Absolute paths as component lists, the relative links between them, and what moving a tree does to a link. */
module StorePaths {
  import opened PosixPaths

  type Path = seq<string>

  /** Plain names only. */
  predicate Clean(p: Path) {
    forall i | 0 <= i < |p| :: IsName(p[i])
  }

  predicate IsName(c: string) {
    c != "" && c != "." && c != ".."
  }

  type PlainPath = p: Path | Clean(p) witness []

  /** How many leading components two paths share. */
  function Shared(a: Path, b: Path): (n: nat)
    ensures n <= |a| && n <= |b|
  {
    if a == [] || b == [] || a[0] != b[0] then 0 else 1 + Shared(a[1..], b[1..])
  }

  function Ups(n: nat): seq<string> {
    seq(n, _ => "..")
  }

  /** Up to the deepest shared directory, then down. */
  function Relative(from: Path, to: Path): seq<string> {
    var n := Shared(from, to);
    Ups(|from| - n) + to[n..]
  }

  predicate IsInside(root: Path, candidate: Path) {
    var fromRoot := Relative(root, candidate);
    fromRoot == [] || fromRoot[0] != ".."
  }

  lemma {:induction false} SharedIsPrefix(a: Path, b: Path)
    ensures a[..Shared(a, b)] == b[..Shared(a, b)]
    ensures forall r | r <= a && r <= b :: |r| <= Shared(a, b)
  {
    if a != [] && b != [] && a[0] == b[0] {
      SharedIsPrefix(a[1..], b[1..]);
      var n := Shared(a[1..], b[1..]);
      assert a[..n + 1] == [a[0]] + a[1..][..n] && b[..n + 1] == [b[0]] + b[1..][..n];
      forall r | r <= a && r <= b
        ensures |r| <= n + 1
      {
        if r != [] { assert r[1..] <= a[1..] && r[1..] <= b[1..]; }
      }
    }
  }

  /** The containment test accepts exactly the paths below the root, and the root. */
  lemma InsideIsPrefix(root: Path, candidate: Path)
    requires Clean(candidate)
    ensures IsInside(root, candidate) <==> root <= candidate
  {
    SharedIsPrefix(root, candidate);
    var n := Shared(root, candidate);
    if n == |root| {
      assert Relative(root, candidate) == candidate[n..];
      if candidate[n..] != [] { assert IsName(candidate[n]); }
      assert root[..n] == root;
    }
  }

  lemma {:induction false} WalkUps(from: Path, n: nat)
    ensures Walk(from, Ups(n)) == if n <= |from| then from[..|from| - n] else []
  {
    if n > 0 {
      assert Ups(n)[..n - 1] == Ups(n - 1);
      WalkUps(from, n - 1);
    }
  }

  lemma {:induction false} WalkNames(from: Path, names: Path)
    requires Clean(names)
    ensures Walk(from, names) == from + names
  {
    if names != [] {
      var n := |names| - 1;
      assert names == names[..n] + [names[n]];
      WalkNames(from, names[..n]);
    }
  }

  lemma WalkRelative(here: Path, ups: nat, names: Path)
    requires Clean(names) && ups <= |here|
    ensures Walk(here, Ups(ups) + names) == here[..|here| - ups] + names
  {
    WalkConcat(here, Ups(ups), names);
    WalkUps(here, ups);
    WalkNames(here[..|here| - ups], names);
  }

  lemma CleanPart(p: Path, n: nat)
    requires Clean(p) && n <= |p|
    ensures Clean(p[n..]) && Clean(p[..n])
  {
  }

  lemma UpThenDown(from: Path, n: nat, to: Path)
    requires Clean(to) && n <= |from| && n <= |to| && from[..n] == to[..n]
    ensures Walk(from, Ups(|from| - n) + to[n..]) == to
  {
    hide Walk, Clean, Ups;
    var ups := |from| - n;
    CleanPart(to, n);
    WalkRelative(from, ups, to[n..]);
    assert |from| - ups == n;
    TakeAndDrop(to, n);
  }

  lemma TakeAndDrop(p: Path, n: nat)
    requires n <= |p|
    ensures p == p[..n] + p[n..]
  {
  }

  /** A relative link leads from its directory to its target. */
  lemma RelativeLeads(from: Path, to: Path)
    requires Clean(to)
    ensures Walk(from, Relative(from, to)) == to
  {
    hide Walk, Shared, Clean;
    SharedIsPrefix(from, to);
    UpThenDown(from, Shared(from, to), to);
  }

  lemma SharedBeyond(root: Path, from: Path, to: Path)
    ensures Shared(root + from, to) >= |root| ==> root <= to
  {
    SharedIsPrefix(root + from, to);
    var n := Shared(root + from, to);
    if n >= |root| {
      assert (root + from)[..n][..|root|] == root && to[..n][..|root|] == to[..|root|];
    }
  }

  // ----- Moving trees -----

  lemma {:induction false} SharedBelow(root: Path, a: Path, b: Path)
    ensures Shared(root + a, root + b) == |root| + Shared(a, b)
  {
    if root == [] {
      assert root + a == a && root + b == b;
    } else {
      assert (root + a)[1..] == root[1..] + a && (root + b)[1..] == root[1..] + b;
      SharedBelow(root[1..], a, b);
    }
  }

  /** A link between two places of one tree does not mention where the tree is. */
  lemma RelativeBelow(root: Path, from: Path, to: Path)
    ensures Relative(root + from, root + to) == Relative(from, to)
  {
    SharedBelow(root, from, to);
    var n := Shared(from, to);
    assert (root + to)[|root| + n..] == to[n..];
  }

  /** So after the tree is moved it leads to the moved counterpart. */
  lemma InnerLinkMoves(root: Path, moved: Path, from: Path, to: Path)
    requires Clean(moved + to)
    ensures Walk(moved + from, Relative(root + from, root + to)) == moved + to
  {
    RelativeBelow(root, from, to);
    RelativeBelow(moved, from, to);
    RelativeLeads(moved + from, moved + to);
  }

  /** A link out of a directory, to anything not below it, leads to the same place after the directory is renamed. */
  lemma OuterLinkStays(parent: Path, stage: string, output: string, from: Path, to: Path)
    requires Clean(to) && !(parent + [stage] <= to)
    ensures Walk(parent + [output] + from, Relative(parent + [stage] + from, to)) == to
  {
    hide Walk, Shared, Clean;
    var here := parent + [stage] + from;
    var n := Shared(here, to);
    SharedIsPrefix(here, to);
    SharedBeyond(parent + [stage], from, to);
    SameStart(parent, stage, output, from, n);
    UpThenDown(parent + [output] + from, n, to);
  }

  lemma SameStart(parent: Path, stage: string, output: string, from: Path, n: nat)
    requires n <= |parent|
    ensures (parent + [stage] + from)[..n] == (parent + [output] + from)[..n]
    ensures |parent + [stage] + from| == |parent + [output] + from|
  {
  }

  /**
   * A link formed in a stage below a root, to a target below that root but outside the stage, leads to the moved target
   * once the stage has been renamed beside itself and the root has been moved.
   */
  lemma OuterLinkMoves(root: Path, moved: Path, parent: Path, stage: string, output: string, from: Path, to: Path)
    requires Clean(moved + to) && !(parent + [stage] <= to)
    ensures Walk(moved + parent + [output] + from, Relative(root + parent + [stage] + from, root + to)) == moved + to
  {
    hide Walk, Shared, Relative, Clean;
    var here := parent + [stage] + from;
    assert root + parent + [stage] + from == root + here && moved + parent + [stage] + from == moved + here;
    RelativeBelow(root, here, to);
    RelativeBelow(moved, here, to);
    assert (moved + parent) + [stage] == moved + (parent + [stage]);
    BelowMoved(moved, parent + [stage], to);
    OuterLinkStays(moved + parent, stage, output, from, moved + to);
  }

  lemma BelowMoved(root: Path, a: Path, b: Path)
    ensures root + a <= root + b <==> a <= b
  {
    if root + a <= root + b {
      assert forall i | 0 <= i < |a| :: a[i] == (root + a)[|root| + i] == (root + b)[|root| + i] == b[i];
    }
  }

  // ----- Links inside a copied tree -----

  lemma {:induction false} WalkLength(from: Path, parts: seq<string>)
    requires !Leaves(parts)
    ensures |Walk(from, parts)| == |from| + Level(parts) && Level(parts) >= 0
    ensures from <= Walk(from, parts)
  {
    assert parts[..|parts|] == parts;
    assert Level(parts[..|parts|]) >= 0;
    if parts != [] {
      var n := |parts| - 1;
      LeavesStep(parts);
      WalkLength(from, parts[..n]);
    }
  }

  lemma {:induction false} WalkIsBelow(root: Path, parts: seq<string>)
    requires !Leaves(parts)
    ensures Walk(root, parts) == root + Walk([], parts)
  {
    if parts != [] {
      var n := |parts| - 1;
      LeavesStep(parts);
      WalkIsBelow(root, parts[..n]);
      WalkLength([], parts[..n]);
      WalkLength([], parts);
      var here := Walk([], parts[..n]);
      if here != [] { assert (root + here)[..|root + here| - 1] == root + here[..|here| - 1]; }
    }
  }

  /**
   * A link of a copied tree leads to the copied counterpart when following it from the tree's root never leaves the
   * tree.
   */
  lemma CopiedLinkLeads(source: Path, copy: Path, at: Path, link: seq<string>)
    requires Clean(at) && !Leaves(at + link)
    ensures exists to ::
      Walk(source + at, link) == source + to && Walk(copy + at, link) == copy + to
  {
    var to := Walk([], at + link);
    WalkNames(source, at);
    WalkNames(copy, at);
    WalkConcat(source, at, link);
    WalkConcat(copy, at, link);
    WalkIsBelow(source, at + link);
    WalkIsBelow(copy, at + link);
    assert Walk(source + at, link) == source + to && Walk(copy + at, link) == copy + to;
  }

  // ----- Which contained links a copy preserves -----

  /** How many steps up a path starts with. */
  function LeadingUps(parts: seq<string>): (n: nat)
    ensures n <= |parts|
  {
    if parts == [] || parts[0] != ".." then 0 else 1 + LeadingUps(parts[1..])
  }

  /** The last n components, or all of them. */
  function Last(p: Path, n: nat): Path {
    if n <= |p| then p[|p| - n..] else p
  }

  function Dropped(p: Path, n: nat): Path {
    if n <= |p| then p[..|p| - n] else []
  }

  ghost predicate UpsThenNames(parts: seq<string>, ups: nat) {
    && ups <= |parts| && (forall i | 0 <= i < ups :: parts[i] == "..")
    && forall i | ups <= i < |parts| :: IsName(parts[i])
  }

  lemma {:induction false} LeadingUpsIs(parts: seq<string>, ups: nat)
    requires UpsThenNames(parts, ups)
    ensures LeadingUps(parts) == ups
  {
    if ups > 0 { LeadingUpsIs(parts[1..], ups - 1); }
  }

  /** A normal form consists of steps up and then names. */
  lemma {:induction false} NormalShape(parts: seq<string>)
    ensures UpsThenNames(NormalParts(parts, true), LeadingUps(NormalParts(parts, true)))
  {
    if parts != [] {
      var n := |parts| - 1;
      NormalShape(parts[..n]);
      var stack := NormalParts(parts[..n], true);
      var ups := LeadingUps(stack);
      var next := NormalParts(parts, true);
      if stack != [] && stack[|stack| - 1] != ".." { assert ups < |stack|; }
      if parts[n] == ".." && ups == |stack| {
        LeadingUpsIs(next, ups + 1);
      } else {
        LeadingUpsIs(next, ups);
      }
    }
  }

  lemma WalkDown(here: Path, ups: nat, names: Path)
    requires Clean(names)
    ensures Walk(here, Ups(ups) + names) == Dropped(here, ups) + names
  {
    WalkConcat(here, Ups(ups), names);
    WalkUps(here, ups);
    WalkNames(Dropped(here, ups), names);
  }

  /** Where a link of a tree leads depends on the tree's place only through its last components. */
  lemma LeadsFromTree(tree: Path, at: Path, link: seq<string>) returns (names: Path)
    requires Clean(at)
    ensures names == NormalParts(at + link, true)[LeadingUps(NormalParts(at + link, true))..]
    ensures Walk(tree + at, link) == Dropped(tree, LeadingUps(NormalParts(at + link, true))) + names
  {
    hide Walk, NormalParts;
    var normal := NormalParts(at + link, true);
    var ups := LeadingUps(normal);
    NormalShape(at + link);
    names := normal[ups..];
    assert Clean(names) && normal == Ups(ups) + names;
    WalkNames(tree, at);
    WalkConcat(tree, at, link);
    NormalLeadsThere(tree, at + link, true);
    WalkDown(tree, ups, names);
  }

  /**
   * A link the containment test accepts leads to the copied counterpart exactly when the components it climbs out of
   * the tree by, and comes back by, are the same for both trees.
   */
  lemma CopyPreservesIff(source: Path, copy: Path, at: Path, link: seq<string>, to: Path)
    requires Clean(at) && Walk(source + at, link) == source + to
    ensures var ups := LeadingUps(NormalParts(at + link, true));
      Walk(copy + at, link) == copy + to <==> Last(source, ups) == Last(copy, ups)
  {
    hide Walk, NormalParts, Clean;
    var ups := LeadingUps(NormalParts(at + link, true));
    var names := LeadsFromTree(source, at, link);
    var same := LeadsFromTree(copy, at, link);
    DroppedAndLast(source, ups, names, to);
    DroppedAndLast(copy, ups, names, to);
    SameFront(Last(source, ups), Last(copy, ups), to);
  }

  lemma DroppedAndLast(tree: Path, ups: nat, names: Path, to: Path)
    ensures Dropped(tree, ups) + names == tree + to <==> names == Last(tree, ups) + to
  {
    var front, back := Dropped(tree, ups), Last(tree, ups);
    assert tree == front + back;
    assert tree + to == front + (back + to);
    assert (front + names)[|front|..] == names && (front + (back + to))[|front|..] == back + to;
  }

  lemma SameFront(a: Path, b: Path, c: Path)
    ensures a + c == b + c <==> a == b
  {
    if a + c == b + c { assert (a + c)[..|a|] == a && (b + c)[..|b|] == b; }
  }

  /**
   * So it is preserved wherever the tree is copied exactly when following it from the tree's root never leaves the
   * tree.
   */
  lemma EveryCopyPreservesIff(source: Path, at: Path, link: seq<string>, to: Path)
    requires Clean(at) && Walk(source + at, link) == source + to
    ensures (forall copy: Path | Clean(copy) :: Walk(copy + at, link) == copy + to) <==> !Leaves(at + link)
  {
    hide Walk, NormalParts, Leaves;
    var normal := NormalParts(at + link, true);
    LeavesIff(at + link);
    forall copy: Path
      ensures Walk(copy + at, link) == copy + to <==> Last(source, LeadingUps(normal)) == Last(copy, LeadingUps(normal))
    {
      CopyPreservesIff(source, copy, at, link, to);
    }
    if LeadingUps(normal) > 0 {
      assert Clean(["a"]) && Clean(["b"]) && "a" != "b";
      assert Last(["a"], LeadingUps(normal)) == ["a"] && Last(["b"], LeadingUps(normal)) == ["b"];
    }
  }

  /** The containment test alone does not ensure it: a link may leave the tree and come back by the tree's own name. */
  lemma ReturningLinkIsLost(parent: Path, name: string, other: string, file: string)
    requires Clean(parent + [name, other, file]) && name != other
    ensures var link := ["..", name, file];
      && IsInside(parent + [name], Walk(parent + [name], link))
      && Walk(parent + [other], link) == parent + [name, file]
      && !IsInside(parent + [other], Walk(parent + [other], link))
  {
    var link := ["..", name, file];
    assert parent + [name, file] == parent + [name] + [file];
    var all := parent + [name, other, file];
    assert IsName(all[|parent|]) && IsName(all[|parent| + 1]) && IsName(all[|parent| + 2]);
    assert forall i | 0 <= i < |parent| :: IsName(all[i]) && all[i] == parent[i];
    assert link == Ups(1) + [name, file];
    WalkRelative(parent + [name], 1, [name, file]);
    WalkRelative(parent + [other], 1, [name, file]);
    assert (parent + [name])[..|parent|] == parent && (parent + [other])[..|parent|] == parent;
    InsideIsPrefix(parent + [name], parent + [name, file]);
    InsideIsPrefix(parent + [other], parent + [name, file]);
    assert (parent + [name, file])[|parent|] == name && (parent + [other])[|parent|] == other;
  }
}
