/** How the dependencies one platform sees relate to those another sees, the portable platform above all. */
module PortableStore {
  import opened Common
  import opened Metadata
  import opened Digraphs
  import opened StoreEdges
  import opened RootBins
  import opened StoreProjection
  import opened PnpmStore
  import opened StoreBuck
  import opened StoreTargets
  import StoreSccs

  /** Dependency groups in the order they are merged, with whether a group's members are optional. */
  datatype DependencyGroup = DependencyGroup(optional: bool, references: References)

  type Groups = seq<DependencyGroup>

  ghost function Layered(c: Config, groups: Groups): EdgeSet {
    if groups == [] then map[]
    else
      var last := groups[|groups| - 1];
      Layered(c, groups[..|groups| - 1]) + GroupEdges(c, last.optional, last.references)
  }

  function SnapshotGroups(s: Snapshot): Groups {
    [DependencyGroup(false, s.dependencies), DependencyGroup(true, s.optionalDependencies)]
  }

  function ImporterGroups(importer: Importer): Groups {
    [DependencyGroup(false, importer.dependencies), DependencyGroup(false, importer.devDependencies),
     DependencyGroup(true, importer.optionalDependencies)]
  }

  ghost function AllSnapshotGroups(companions: map<string, string>, s: Snapshot): Groups {
    SnapshotGroups(s) + [DependencyGroup(true, PeerTypeCompanionsOf(companions, s))]
  }

  lemma LayeredThree(c: Config, a: DependencyGroup, b: DependencyGroup, d: DependencyGroup)
    ensures Layered(c, [a, b, d]) ==
      GroupEdges(c, a.optional, a.references) + GroupEdges(c, b.optional, b.references)
      + GroupEdges(c, d.optional, d.references)
  {
    hide GroupEdges;
    assert [a, b, d][..2] == [a, b] && [a, b][..1] == [a] && [a][..0] == [];
    assert Layered(c, [a]) == map[] + GroupEdges(c, a.optional, a.references);
  }

  lemma SnapshotLayers(c: Config, companions: map<string, string>, s: Snapshot)
    ensures SnapshotEdgesOf(c, companions, s) == Layered(c, AllSnapshotGroups(companions, s))
  {
    hide GroupEdges, PeerTypeCompanionsOf;
    LayeredThree(c, DependencyGroup(false, s.dependencies), DependencyGroup(true, s.optionalDependencies),
                 DependencyGroup(true, PeerTypeCompanionsOf(companions, s)));
    assert AllSnapshotGroups(companions, s) ==
      [DependencyGroup(false, s.dependencies), DependencyGroup(true, s.optionalDependencies),
                                                DependencyGroup(true, PeerTypeCompanionsOf(companions, s))];
  }

  lemma ImporterLayers(c: Config, importer: Importer)
    ensures ImporterEdgesOf(c, importer) == Layered(c, ImporterGroups(importer))
  {
    hide GroupEdges;
    LayeredThree(c, DependencyGroup(false, importer.dependencies), DependencyGroup(false, importer.devDependencies),
                 DependencyGroup(true, importer.optionalDependencies));
  }

  // ----- Which group decides a name -----

  /** A group's listing of a name leads somewhere on the platform. */
  ghost predicate Lists(c: Config, group: DependencyGroup, n: string) {
    n in group.references && HasEdge(c, group.optional, group.references[n])
  }

  /** The last group whose listing of the name leads somewhere. */
  ghost predicate Wins(c: Config, groups: Groups, i: int, n: string) {
    0 <= i < |groups| && Lists(c, groups[i], n) && forall j | i < j < |groups| :: !Lists(c, groups[j], n)
  }

  ghost function EdgeOf(c: Config, group: DependencyGroup, n: string): Edge
    requires Lists(c, group, n)
  {
    ResolveEdge(c, group.optional, group.references[n]).value.value
  }

  lemma {:induction false} NamesDecided(c: Config, groups: Groups, n: string)
    ensures n in Layered(c, groups) <==> exists i :: Wins(c, groups, i, n)
    ensures forall i | Wins(c, groups, i, n) :: Layered(c, groups)[n] == EdgeOf(c, groups[i], n)
  {
    hide HasEdge, ResolveEdge;
    if groups != [] {
      var last := |groups| - 1;
      NamesDecided(c, groups[..last], n);
      if Lists(c, groups[last], n) {
        assert Wins(c, groups, last, n);
      } else {
        forall i
          ensures Wins(c, groups, i, n) <==> Wins(c, groups[..last], i, n)
        {
        }
      }
    }
  }

  // ----- From the portable platform to any other -----

  function On(c: Config, p: Platform): Config {
    c.(platform := p)
  }

  ghost predicate Within(a: EdgeSet, b: EdgeSet) {
    forall n | n in a :: n in b && b[n] == a[n]
  }

  /** What leads somewhere on the portable platform leads to the same place on every platform. */
  lemma PortableListing(c: Config, p: Platform, group: DependencyGroup, n: string)
    requires Lists(On(c, JavascriptPortable), group, n)
    ensures Lists(On(c, p), group, n) && EdgeOf(On(c, p), group, n) == EdgeOf(On(c, JavascriptPortable), group, n)
  {
    var reference := group.references[n];
    if reference.PackageRef? {
      var snapshot := c.md.snapshots[reference.snapshot];
      if c.md.packages[snapshot.package].resolution.Registry? {
        PortableIsAllowedEverywhere(c.md.packages[snapshot.package], p);
      }
    }
  }

  /** On p, a later group gives the name another edge than the one the portable platform has. */
  ghost predicate Overridden(c: Config, p: Platform, groups: Groups, n: string) {
    exists i, j :: Wins(On(c, JavascriptPortable), groups, i, n) && Wins(On(c, p), groups, j, n) && i < j
      && EdgeOf(On(c, JavascriptPortable), groups[i], n) != EdgeOf(On(c, p), groups[j], n)
  }

  /** The portable edges are edges of p exactly when no name is overridden there. */
  lemma PortableWithinIff(c: Config, p: Platform, groups: Groups)
    ensures Within(Layered(On(c, JavascriptPortable), groups), Layered(On(c, p), groups))
        <==> forall n :: !Overridden(c, p, groups, n)
  {
    hide Layered, HasEdge, ResolveEdge;
    var a, b := Layered(On(c, JavascriptPortable), groups), Layered(On(c, p), groups);
    forall n
      ensures n in a && (n !in b || b[n] != a[n]) <==> Overridden(c, p, groups, n)
    {
      NamesDecided(On(c, JavascriptPortable), groups, n);
      NamesDecided(On(c, p), groups, n);
      if i :| Wins(On(c, JavascriptPortable), groups, i, n) {
        PortableListing(c, p, groups[i], n);
        var j := LastListing(On(c, p), groups, i, n);
      }
    }
  }

  lemma {:induction false} LastListing(c: Config, groups: Groups, i: int, n: string) returns (j: int)
    requires 0 <= i < |groups| && Lists(c, groups[i], n)
    ensures i <= j && Wins(c, groups, j, n)
    decreases |groups| - i
  {
    hide HasEdge;
    if k :| i < k < |groups| && Lists(c, groups[k], n) {
      j := LastListing(c, groups, k, n);
    } else {
      j := i;
    }
  }

  /** No name is listed by two groups. */
  ghost predicate NamesDisjoint(groups: Groups) {
    forall i, j, n | 0 <= i < j < |groups| && n in groups[i].references :: n !in groups[j].references
  }

  lemma DisjointNamesDecideOnce(c: Config, p: Platform, groups: Groups, n: string)
    requires NamesDisjoint(groups)
    ensures !Overridden(c, p, groups, n)
  {
    hide HasEdge, ResolveEdge;
  }

  // ----- Portable closures -----

  lemma {:induction false} MoreEdgesReachMore<T(!new)>(g: Graph<T>, h: Graph<T>, path: seq<T>)
    requires IsPath(g, path) && forall x, y | Digraphs.Edge(g, x, y) :: Digraphs.Edge(h, x, y)
    ensures IsPath(h, path)
  {
  }

  /** No snapshot of the store and no importer lists a name in two groups. */
  ghost predicate StoreNamesDisjoint(st: Store) {
    && (forall s | IsStorePackage(st.md, s) :: NamesDisjoint(SnapshotGroups(st.md.snapshots[s])))
    && (forall name | name in st.md.importers :: NamesDisjoint(ImporterGroups(st.md.importers[name])))
  }

  /** On p, no name of a store snapshot or an importer has its portable edge replaced. */
  ghost predicate NothingOverridden(st: Store, p: Platform) {
    var c := Config(st.md, p, st.workspaceKey);
    && (forall s, n | IsStorePackage(st.md, s) ::
          !Overridden(c, p, AllSnapshotGroups(st.companions, st.md.snapshots[s]), n))
    && (forall name, n | name in st.md.importers :: !Overridden(c, p, ImporterGroups(st.md.importers[name]), n))
  }

  lemma DisjointNamesOverrideNothing(st: Store, p: Platform)
    requires StoreNamesDisjoint(st)
    ensures NothingOverridden(st, p)
  {
    hide NamesDisjoint, AllSnapshotGroups, SnapshotGroups, ImporterGroups, Overridden;
    var c := Config(st.md, p, st.workspaceKey);
    forall s, n | IsStorePackage(st.md, s)
      ensures !Overridden(c, p, AllSnapshotGroups(st.companions, st.md.snapshots[s]), n)
    {
      CompanionsAddNewNames(st.companions, st.md.snapshots[s]);
      DisjointNamesDecideOnce(c, p, AllSnapshotGroups(st.companions, st.md.snapshots[s]), n);
    }
    forall name, n | name in st.md.importers
      ensures !Overridden(c, p, ImporterGroups(st.md.importers[name]), n)
    {
      DisjointNamesDecideOnce(c, p, ImporterGroups(st.md.importers[name]), n);
    }
  }

  /** Companions never repeat a name the snapshot declares. */
  lemma CompanionsAddNewNames(companions: map<string, string>, s: Snapshot)
    requires NamesDisjoint(SnapshotGroups(s))
    ensures NamesDisjoint(AllSnapshotGroups(companions, s))
  {
    hide PeerCompanionNames;
    var declared, groups := SnapshotGroups(s), AllSnapshotGroups(companions, s);
    forall i, j, n | 0 <= i < j < |groups| && n in groups[i].references
      ensures n !in groups[j].references
    {
      if j < 2 { assert groups[i] == declared[i] && groups[j] == declared[j]; }
    }
  }

  lemma WithinKeys(a: EdgeSet, b: EdgeSet)
    requires Within(a, b)
    ensures EntryKeys(a) <= EntryKeys(b)
  {
    forall k | k in EntryKeys(a)
      ensures k in EntryKeys(b)
    {
      var n :| n in a && a[n].EntryEdge? && a[n].storeKey == k;
      assert n in b && b[n] == a[n];
    }
  }

  lemma SnapshotEdgesPortable(st: Store, s: string, p: Platform)
    requires IsStorePackage(st.md, s) && NothingOverridden(st, p)
    ensures Within(EdgesAt(st, s, JavascriptPortable), EdgesAt(st, s, p))
  {
    hide Layered, Overridden, SnapshotEdgesOf, AllSnapshotGroups, Within;
    var c := Config(st.md, p, st.workspaceKey);
    PortableWithinIff(c, p, AllSnapshotGroups(st.companions, st.md.snapshots[s]));
    SnapshotLayers(On(c, JavascriptPortable), st.companions, st.md.snapshots[s]);
    SnapshotLayers(On(c, p), st.companions, st.md.snapshots[s]);
  }

  lemma ImporterEdgesPortable(st: Store, name: string, p: Platform)
    requires name in st.md.importers && NothingOverridden(st, p)
    ensures Within(ImporterEdgesOf(Config(st.md, JavascriptPortable, st.workspaceKey), st.md.importers[name]),
                   ImporterEdgesOf(Config(st.md, p, st.workspaceKey), st.md.importers[name]))
  {
    hide Layered, Overridden, ImporterEdgesOf, ImporterGroups, Within;
    var c := Config(st.md, p, st.workspaceKey);
    PortableWithinIff(c, p, ImporterGroups(st.md.importers[name]));
    ImporterLayers(On(c, JavascriptPortable), st.md.importers[name]);
    ImporterLayers(On(c, p), st.md.importers[name]);
  }

  /** An entry leads on p to everything it leads to on the portable platform. */
  lemma KeyEdgePortable(st: Store, byKey: map<string, Entry>, g: Graph<string>, p: Platform, k: string, l: string)
    requires Indexed(st, byKey) && IsUnionGraph(st.md, st.companions, g) && NothingOverridden(st, p)
    requires Digraphs.Edge(KeyGraph(byKey, JavascriptPortable), k, l)
    ensures Digraphs.Edge(KeyGraph(byKey, p), k, l)
  {
    hide Indexed, Present, EntryFor, EdgeIdentity, PackageAllowed, IsUnionGraph, EntryKeys, DeclaredEdges, KeyGraph,
         EdgesAt, Within,
         NothingOverridden;
    KeyEdgeIff(byKey, JavascriptPortable, k, l);
    DeclaredStep(st, byKey, g, JavascriptPortable, k, l);
    PortablePresent(st, byKey, p, k);
    PresentEntry(st, byKey, JavascriptPortable, k);
    PresentEntry(st, byKey, p, k);
    var s := byKey[k].snapshot;
    SnapshotEdgesPortable(st, s, p);
    SameIdentitySameKeys(DeclaredEdges(byKey[k], JavascriptPortable), EdgesAt(st, s, JavascriptPortable));
    SameIdentitySameKeys(DeclaredEdges(byKey[k], p), EdgesAt(st, s, p));
    WithinKeys(EdgesAt(st, s, JavascriptPortable), EdgesAt(st, s, p));
    KeyEdgeIff(byKey, p, k, l);
  }

  lemma PortablePresent(st: Store, byKey: map<string, Entry>, p: Platform, k: string)
    requires Indexed(st, byKey) && Present(byKey, JavascriptPortable, k)
    ensures k in byKey && Present(byKey, p, k)
  {
    hide Indexed, EntryFor, PackageAllowed;
    EntryOf(st, byKey, k);
    PortableIsAllowedEverywhere(PackageOf(st.md, byKey[k].snapshot), p);
  }

  /** An importer's portable closure lies within its closure on every platform. */
  lemma PortableClosureWithin(md: Lock, sidecar: map<string, Bins>, collate: Collation, pr: Projection, ev: Evidence,
                              p: Platform, i: nat, k: string)
    requires IsProjection(md, sidecar, collate, pr, ev) && NothingOverridden(ev.store, p)
    requires i < |pr.views|
    ensures k in Variant(pr.views[i], JavascriptPortable).closure ==> k in Variant(pr.views[i], p).closure
  {
    hide IsUnionGraph, IsCompanions, KeysDistinct, Indexed, ViewFor, NumbersOf, Listed, StoreSccs.Lists,
         StoreSccs.CycleClasses,
         KeyGraph, EntryKeys, ImporterEdgesOf, Within, NothingOverridden, Variant, HasVariant,
         EntryRecord, WorkspaceRecord;
    var st, view := ev.store, pr.views[i];
    VariantIs(st, collate, ev.byKey, view, JavascriptPortable);
    VariantIs(st, collate, ev.byKey, view, p);
    var a := ImporterEdgesOf(Config(md, JavascriptPortable, st.workspaceKey), md.importers[view.importer]);
    var b := ImporterEdgesOf(Config(md, p, st.workspaceKey), md.importers[view.importer]);
    ImporterEdgesPortable(st, view.importer, p);
    WithinKeys(a, b);
    if k in Variant(view, JavascriptPortable).closure {
      var r :| r in EntryKeys(a) && Reaches(KeyGraph(ev.byKey, JavascriptPortable), r, k);
      var path :| Joins(KeyGraph(ev.byKey, JavascriptPortable), path, r, k);
      forall x, y | Digraphs.Edge(KeyGraph(ev.byKey, JavascriptPortable), x, y)
        ensures Digraphs.Edge(KeyGraph(ev.byKey, p), x, y)
      {
        KeyEdgePortable(st, ev.byKey, ev.graph, p, x, y);
      }
      MoreEdgesReachMore(KeyGraph(ev.byKey, JavascriptPortable), KeyGraph(ev.byKey, p), path);
      assert Joins(KeyGraph(ev.byKey, p), path, r, k);
    }
  }

  const ANYWHERE := Package([], false, None, [], "a", [], None, Registry, None, "1", None)

  const X64_ONLY := ANYWHERE.(cpu := ["x64"], name := "b")

  lemma X64OnLinux()
    ensures PackageAllowed(X64_ONLY, LinuxX86_64) && !PackageAllowed(X64_ONLY, JavascriptPortable)
  {
    assert "x64"[0] != "!"[0];
    assert "x64" in X64_ONLY.cpu;
    assert forall s | s in X64_ONLY.cpu :: s == "x64";
    assert |("!" + "x64")| == 4;
  }

  /** A name listed twice loses its portable edge where an optional listing the portable platform skips is admitted. */
  lemma OverriddenNameIsNotPortable(c: Config, p: Platform, importer: Importer, n: string, s: string, t: string)
    requires n in importer.dependencies && importer.dependencies[n] == PackageRef(s) && n !in importer.devDependencies
    requires n in importer.optionalDependencies && importer.optionalDependencies[n] == PackageRef(t)
    requires IsStorePackage(c.md, s) && PackageAllowed(PackageOf(c.md, s), JavascriptPortable)
    requires IsStorePackage(c.md, t) && PackageAllowed(PackageOf(c.md, t), p)
    requires !PackageAllowed(PackageOf(c.md, t), JavascriptPortable)
    requires c.md.snapshots[s].virtualStoreName != c.md.snapshots[t].virtualStoreName
    ensures !Within(ImporterEdgesOf(On(c, JavascriptPortable), importer), ImporterEdgesOf(On(c, p), importer))
  {
    hide PackageAllowed;
    var a, b := ImporterEdgesOf(On(c, JavascriptPortable), importer), ImporterEdgesOf(On(c, p), importer);
    assert n in GroupEdges(On(c, JavascriptPortable), false, importer.dependencies);
    assert n !in GroupEdges(On(c, JavascriptPortable), true, importer.optionalDependencies);
    assert n in GroupEdges(On(c, p), true, importer.optionalDependencies);
    assert a[n] == EntryEdge(c.md.snapshots[s].virtualStoreName);
    assert b[n] == EntryEdge(c.md.snapshots[t].virtualStoreName);
  }

  /** An importer that lists one name as a dependency and, for another package, as an optional dependency. */
  const TWICE := Importer(map["x" := PackageRef("a")], map[], map["x" := PackageRef("b")])

  function Alone(key: string): Snapshot {
    Snapshot(map[], false, map[], key, [], key)
  }

  const LISTED_TWICE :=
    Lock(map["." := TWICE], map["a" := ANYWHERE, "b" := X64_ONLY], map["a" := Alone("a"), "b" := Alone("b")])

  /** There are lockfiles that project and whose portable edges are not those of another platform. */
  lemma OverriddenNamesExist(workspaceKey: string -> string)
    ensures exists md, name, p ::
      && Projectable(md, workspaceKey) && name in md.importers
      && !Within(ImporterEdgesOf(Config(md, JavascriptPortable, workspaceKey), md.importers[name]),
                 ImporterEdgesOf(Config(md, p, workspaceKey), md.importers[name]))
  {
    hide PackageAllowed, Projectable, ImporterEdgesOf;
    var md := LISTED_TWICE;
    ListedTwiceProjects(workspaceKey);
    X64OnLinux();
    AnywhereIsAllowed(JavascriptPortable);
    DifferentNames();
    OverriddenNameIsNotPortable(Config(md, JavascriptPortable, workspaceKey), LinuxX86_64, TWICE, "x", "a", "b");
    assert "." in md.importers && md.importers["."] == TWICE;
  }

  lemma DifferentNames()
    ensures "a" != "b" && !("@types/" <= "a") && !("@types/" <= "b")
  {
    assert "a"[0] != "b"[0];
  }

  lemma AnywhereIsAllowed(p: Platform)
    ensures PackageAllowed(ANYWHERE, p)
  {
    AnywhereIsPortable();
    PortableIsAllowedEverywhere(ANYWHERE, p);
  }

  lemma AnywhereIsPortable()
    ensures PackageAllowed(ANYWHERE, JavascriptPortable)
  {
  }

  lemma ListedTwiceProjects(workspaceKey: string -> string)
    ensures Projectable(LISTED_TWICE, workspaceKey)
  {
    hide PackageAllowed, Candidate, AllResolve, ImporterResolves;
    var md := LISTED_TWICE;
    NoCandidates();
    DifferentNames();
    forall companions | IsCompanions(md, companions)
      ensures AllResolve(Store(md, workspaceKey, companions))
    {
      AloneResolves(Store(md, workspaceKey, companions));
    }
    forall p
      ensures ImporterResolves(Config(md, p, workspaceKey), TWICE)
    {
      TwiceResolves(Config(md, p, workspaceKey));
    }
  }

  lemma NoCandidates()
    ensures forall name, key :: !Candidate(LISTED_TWICE, name, key)
  {
    DifferentNames();
  }

  lemma AloneResolves(st: Store)
    requires st.md == LISTED_TWICE
    ensures AllResolve(st)
  {
    hide PackageAllowed;
  }

  lemma TwiceResolves(c: Config)
    requires c.md == LISTED_TWICE
    ensures ImporterResolves(c, TWICE)
  {
    hide PackageAllowed;
    AnywhereIsAllowed(c.platform);
    DifferentNames();
  }

  // ----- Workspaces across platforms -----

  /** The listing names a workspace; no platform decides this. */
  ghost predicate NamesWorkspace(c: Config, group: DependencyGroup, n: string) {
    Lists(c, group, n) && EdgeOf(c, group, n).WorkspaceEdge?
  }

  lemma WorkspaceListing(c: Config, p: Platform, group: DependencyGroup, n: string)
    ensures NamesWorkspace(On(c, p), group, n) <==> NamesWorkspace(c, group, n)
    ensures NamesWorkspace(c, group, n) ==> EdgeOf(On(c, p), group, n) == EdgeOf(c, group, n)
  {
    hide PackageAllowed;
  }

  /** The last group in which the name means a workspace. */
  ghost predicate LastWorkspace(c: Config, groups: Groups, i: int, n: string) {
    0 <= i < |groups| && NamesWorkspace(c, groups[i], n)
    && forall j | i < j < |groups| :: !NamesWorkspace(c, groups[j], n)
  }

  /** A later group's listing of the name leads somewhere on the platform. */
  ghost predicate Displaced(c: Config, p: Platform, groups: Groups, i: int, n: string) {
    exists j :: 0 <= i < j < |groups| && Lists(On(c, p), groups[j], n)
  }

  /** Where a package listing comes after a workspace one, every platform admits one or none does. */
  ghost predicate Steady(c: Config, groups: Groups) {
    forall i, n, p, q | LastWorkspace(c, groups, i, n) ::
      Displaced(c, p, groups, i, n) <==> Displaced(c, q, groups, i, n)
  }

  lemma WorkspaceAt(c: Config, p: Platform, groups: Groups, i: int, n: string)
    requires LastWorkspace(c, groups, i, n)
    ensures var record := WorkspaceRecord(Layered(On(c, p), groups));
      && (n in record <==> !Displaced(c, p, groups, i, n))
      && (n in record ==> record[n] == EdgeOf(c, groups[i], n).workspaceKey)
  {
    hide Layered, HasEdge, ResolveEdge, On;
    NamesDecided(On(c, p), groups, n);
    forall j | 0 <= j < |groups|
      ensures NamesWorkspace(On(c, p), groups[j], n) <==> NamesWorkspace(c, groups[j], n)
      ensures NamesWorkspace(c, groups[j], n) ==> EdgeOf(On(c, p), groups[j], n) == EdgeOf(c, groups[j], n)
    {
      WorkspaceListing(c, p, groups[j], n);
    }
    if !Displaced(c, p, groups, i, n) {
      assert Wins(On(c, p), groups, i, n);
    }
  }

  lemma NoWorkspaceAt(c: Config, p: Platform, groups: Groups, n: string)
    requires forall i | 0 <= i < |groups| :: !NamesWorkspace(c, groups[i], n)
    ensures n !in WorkspaceRecord(Layered(On(c, p), groups))
  {
    hide Layered, HasEdge, ResolveEdge, On;
    NamesDecided(On(c, p), groups, n);
    forall j | 0 <= j < |groups|
      ensures NamesWorkspace(On(c, p), groups[j], n) <==> NamesWorkspace(c, groups[j], n)
    {
      WorkspaceListing(c, p, groups[j], n);
    }
  }

  lemma {:induction false} HasLastWorkspace(c: Config, groups: Groups, i: int, n: string) returns (last: int)
    requires 0 <= i < |groups| && NamesWorkspace(c, groups[i], n)
    ensures LastWorkspace(c, groups, last, n)
    decreases |groups| - i
  {
    hide NamesWorkspace;
    if k :| i < k < |groups| && NamesWorkspace(c, groups[k], n) {
      last := HasLastWorkspace(c, groups, k, n);
    } else {
      last := i;
    }
  }

  /**
   * The workspaces are the same on all platforms exactly when no package listing displaces one on some platforms only.
   */
  lemma SteadyIff(c: Config, groups: Groups)
    ensures (forall p, q :: WorkspaceRecord(Layered(On(c, p), groups)) == WorkspaceRecord(Layered(On(c, q), groups)))
        <==> Steady(c, groups)
  {
    hide Layered, NamesWorkspace, WorkspaceRecord, Displaced, EdgeOf, On;
    if Steady(c, groups) {
      forall p, q, n
        ensures n in WorkspaceRecord(Layered(On(c, p), groups)) <==> n in WorkspaceRecord(Layered(On(c, q), groups))
        ensures n in WorkspaceRecord(Layered(On(c, p), groups)) ==>
          WorkspaceRecord(Layered(On(c, p), groups))[n] == WorkspaceRecord(Layered(On(c, q), groups))[n]
      {
        if i :| 0 <= i < |groups| && NamesWorkspace(c, groups[i], n) {
          var last := HasLastWorkspace(c, groups, i, n);
          WorkspaceAt(c, p, groups, last, n);
          WorkspaceAt(c, q, groups, last, n);
        } else {
          NoWorkspaceAt(c, p, groups, n);
          NoWorkspaceAt(c, q, groups, n);
        }
      }
    } else {
      var i, n, p, q :| LastWorkspace(c, groups, i, n)
        && Displaced(c, p, groups, i, n) != Displaced(c, q, groups, i, n);
      WorkspaceAt(c, p, groups, i, n);
      WorkspaceAt(c, q, groups, i, n);
    }
  }

  /** An importer's workspace check passes exactly when its groups are steady. */
  lemma SameWorkspacesIff(md: Lock, workspaceKey: string -> string, importer: Importer)
    ensures SameWorkspaces(md, workspaceKey, importer) <==>
      Steady(Config(md, JavascriptPortable, workspaceKey), ImporterGroups(importer))
  {
    hide Layered, ImporterEdgesOf, ImporterGroups, WorkspaceRecord, Steady;
    var c := Config(md, JavascriptPortable, workspaceKey);
    SteadyIff(c, ImporterGroups(importer));
    forall p
      ensures ImporterEdgesOf(Config(md, p, workspaceKey), importer) == Layered(On(c, p), ImporterGroups(importer))
    {
      ImporterLayers(Config(md, p, workspaceKey), importer);
    }
  }

  /** When no name is listed twice, the check never fails. */
  lemma DisjointIsSteady(md: Lock, workspaceKey: string -> string, importer: Importer)
    requires NamesDisjoint(ImporterGroups(importer))
    ensures SameWorkspaces(md, workspaceKey, importer)
  {
    hide ImporterGroups, HasEdge, ResolveEdge;
    SameWorkspacesIff(md, workspaceKey, importer);
  }
}
