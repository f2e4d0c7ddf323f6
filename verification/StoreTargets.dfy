/** What the declared targets depend on: no platform has a cycle, and nothing is dangling. */
module StoreTargets {
  import opened Common
  import opened Metadata
  import opened Digraphs
  import opened StoreEdges
  import opened PlatformGroups
  import opened RootBins
  import opened StoreProjection
  import opened PnpmStore
  import opened StoreBuck
  import StoreSccs

  datatype Target = EntryTarget(storeKey: string) | SccTarget(index: nat) | ViewTarget(importer: string)

  ghost predicate RuleNeeds(rule: EntryRule, p: Platform, b: Target) {
    match rule
    case Plain(dependencies) =>
      b.EntryTarget? && p in dependencies && exists n :: n in dependencies[p] && dependencies[p][n] == b.storeKey
    case Member(i) => b == SccTarget(i)
  }

  /** One declared target names another on a platform. */
  ghost predicate Needs(d: Declarations, p: Platform, a: Target, b: Target) {
    match a
    case EntryTarget(k) =>
      exists i :: 0 <= i < |d.entries| && d.entries[i].name == k && RuleNeeds(d.entries[i].rule, p, b)
    case SccTarget(i) =>
      i < |d.sccs| && b.EntryTarget? && p in d.sccs[i].external
      && exists port :: port in d.sccs[i].external[p] && d.sccs[i].external[p][port] == b.storeKey
    case ViewTarget(name) =>
      exists i :: 0 <= i < |d.views| && d.views[i].name == name && p in d.views[i].rule.closure
        && b.EntryTarget? && b.storeKey in d.views[i].rule.closure[p]
  }

  ghost predicate IsDeclared(d: Declarations, a: Target) {
    match a
    case EntryTarget(k) => exists i :: 0 <= i < |d.entries| && d.entries[i].name == k
    case SccTarget(i) => i < |d.sccs|
    case ViewTarget(name) => exists i :: 0 <= i < |d.views| && d.views[i].name == name
  }

  // ----- The entry index -----

  lemma {:induction false} IndexedEntry(entries: seq<Entry>, k: string)
    ensures k in EntryIndex(entries) <==> exists i :: 0 <= i < |entries| && entries[i].storeKey == k
    ensures k in EntryIndex(entries) ==> EntryIndex(entries)[k] in entries && EntryIndex(entries)[k].storeKey == k
  {
    if entries != [] {
      var n := |entries| - 1;
      IndexedEntry(entries[..n], k);
      assert entries == entries[..n] + [entries[n]];
      if i :| 0 <= i < |entries| && entries[i].storeKey == k {
        assert i < n ==> entries[..n][i].storeKey == k;
      }
    }
  }

  lemma IndexIsByKey(md: Lock, sidecar: map<string, Bins>, sccOf: map<string, nat>, entries: seq<Entry>,
                     byKey: map<string, Entry>)
    requires Listed(md, sidecar, sccOf, entries, byKey)
    requires forall k | k in byKey :: byKey[k].storeKey == k
    ensures EntryIndex(entries) == byKey
  {
    hide EntryIndex, BinsOf, SccOf;
    forall k
      ensures k in EntryIndex(entries) <==> k in byKey
      ensures k in byKey ==> EntryIndex(entries)[k] == byKey[k]
    {
      IndexedEntry(entries, k);
      if k in EntryIndex(entries) {
        assert EntryIndex(entries)[k] in entries;
      }
      if k in byKey {
        var i :| 0 <= i < |entries| && entries[i] == byKey[k];
      }
    }
  }

  // ----- Declared edges against the lockfile's -----

  lemma SameIdentitySameRecords(a: EdgeSet, b: EdgeSet)
    requires EdgeIdentity(a) == EdgeIdentity(b)
    ensures EntryRecord(a) == EntryRecord(b) && WorkspaceRecord(a) == WorkspaceRecord(b)
    ensures NoWorkspaces(a) <==> NoWorkspaces(b)
  {
    SameIdentitySameKeys(a, b);
    forall n | n in a
      ensures IdOf(a[n]) == IdOf(b[n])
    {
      assert EdgeIdentity(a)[n] == EdgeIdentity(b)[n];
    }
    assert EntryRecord(a).Keys == EntryRecord(b).Keys;
    assert WorkspaceRecord(a).Keys == WorkspaceRecord(b).Keys;
    assert forall n | n in b :: n in a;
  }

  lemma EntryOf(st: Store, byKey: map<string, Entry>, k: string)
    requires Indexed(st, byKey) && k in byKey
    ensures EntryFor(st, byKey[k]) && byKey[k].storeKey == k && IsStorePackage(st.md, byKey[k].snapshot)
    ensures forall p :: Present(byKey, p, k) <==> PackageAllowed(PackageOf(st.md, byKey[k].snapshot), p)
  {
    hide PackageAllowed, Admitted, ResolvesAt, EdgesAt, EdgeIdentity, WellKeyedEdges;
    forall p: Platform
      ensures p in Admitted(PackageOf(st.md, byKey[k].snapshot), PLATFORMS) <==>
        PackageAllowed(PackageOf(st.md, byKey[k].snapshot), p)
    {
      AdmittedIff(PackageOf(st.md, byKey[k].snapshot), p);
    }
  }

  lemma AbsentDeclaresNothing(st: Store, byKey: map<string, Entry>, p: Platform, k: string)
    requires Indexed(st, byKey) && k in byKey && !Present(byKey, p, k)
    ensures DeclaredEdges(byKey[k], p) == map[]
  {
    hide PackageAllowed, Admitted, ResolvesAt, EdgesAt, EdgeIdentity, WellKeyedEdges;
    EntryOf(st, byKey, k);
  }

  /** The store has every entry that any entry leads to, on every platform. */
  lemma TargetsKnown(st: Store, byKey: map<string, Entry>, g: Graph<string>, k: string, p: Platform)
    requires Indexed(st, byKey) && IsUnionGraph(st.md, st.companions, g) && k in byKey
    ensures EntryKeys(DeclaredEdges(byKey[k], p)) <= byKey.Keys
  {
    hide Indexed, IsUnionGraph, EntryKeys;
    if !Present(byKey, p, k) {
      AbsentDeclaresNothing(st, byKey, p, k);
      NoKeys();
    } else {
      forall l | l in EntryKeys(DeclaredEdges(byKey[k], p))
        ensures l in byKey
      {
        TargetsPresent(st, byKey, g, p, k, l);
      }
    }
  }

  /** No store snapshot leads to a workspace on a platform that admits it. */
  ghost predicate StoreHasNoWorkspaces(st: Store) {
    forall s, p | IsStorePackage(st.md, s) && PackageAllowed(PackageOf(st.md, s), p) :: NoWorkspaces(EdgesAt(st, s, p))
  }

  lemma DeclaredWorkspaces(st: Store, byKey: map<string, Entry>, k: string)
    requires Indexed(st, byKey) && k in byKey
    ensures IsStorePackage(st.md, byKey[k].snapshot)
    ensures (forall p :: NoWorkspaces(DeclaredEdges(byKey[k], p))) <==>
      forall p | PackageAllowed(PackageOf(st.md, byKey[k].snapshot), p) ::
        NoWorkspaces(EdgesAt(st, byKey[k].snapshot, p))
  {
    hide Indexed, Present, PackageAllowed, EntryFor, EdgesAt, EdgeIdentity, NoWorkspaces, DeclaredEdges;
    EntryOf(st, byKey, k);
    forall p
      ensures !Present(byKey, p, k) ==> NoWorkspaces(DeclaredEdges(byKey[k], p))
      ensures Present(byKey, p, k) ==>
        (NoWorkspaces(DeclaredEdges(byKey[k], p)) <==> NoWorkspaces(EdgesAt(st, byKey[k].snapshot, p)))
    {
      if Present(byKey, p, k) {
        PresentEntry(st, byKey, p, k);
        SameIdentitySameRecords(DeclaredEdges(byKey[k], p), EdgesAt(st, byKey[k].snapshot, p));
      } else {
        AbsentDeclaresNothing(st, byKey, p, k);
        NothingIsNoWorkspace();
      }
    }
  }

  lemma NothingIsNoWorkspace()
    ensures NoWorkspaces(map[])
  {
  }

  lemma AllDeclaredWorkspaces(st: Store, byKey: map<string, Entry>)
    requires Indexed(st, byKey)
    ensures StoreHasNoWorkspaces(st) <==> forall k, p | k in byKey :: NoWorkspaces(DeclaredEdges(byKey[k], p))
  {
    hide Indexed, PackageAllowed, EdgesAt, NoWorkspaces, DeclaredEdges;
    forall k | k in byKey
      ensures IsStorePackage(st.md, byKey[k].snapshot)
      ensures (forall p :: NoWorkspaces(DeclaredEdges(byKey[k], p))) <==>
        forall p | PackageAllowed(PackageOf(st.md, byKey[k].snapshot), p) ::
          NoWorkspaces(EdgesAt(st, byKey[k].snapshot, p))
    {
      DeclaredWorkspaces(st, byKey, k);
    }
    forall s, p | IsStorePackage(st.md, s) && PackageAllowed(PackageOf(st.md, s), p)
      && (forall k, q | k in byKey :: NoWorkspaces(DeclaredEdges(byKey[k], q)))
      ensures NoWorkspaces(EdgesAt(st, s, p))
    {
      SameSnapshot(st, byKey, s);
      var k := st.md.snapshots[s].virtualStoreName;
      assert k in byKey && byKey[k].snapshot == s;
    }
  }

  // ----- Components against cycles -----

  /** A listed member has an entry, which carries the component's number and whose snapshot is in the class. */
  lemma MemberEntry(md: Lock, sidecar: map<string, Bins>, collate: Collation, pr: Projection, ev: Evidence, i: nat,
                    m: string)
    requires IsProjection(md, sidecar, collate, pr, ev) && i < |pr.sccs| && m in pr.sccs[i]
    ensures m in ev.byKey && ev.byKey[m].sccIndex == Some(i)
    ensures ev.byKey[m].packageName == PackageName(md, ev.byKey[m].snapshot)
    ensures |ev.classes| == |pr.sccs| && ev.byKey[m].snapshot in ev.classes[i]
  {
    hide IsUnionGraph, IsCompanions, KeysDistinct, Indexed, ViewFor, EntryFor, BinsOf, StoreSccs.OnCycle, Mutual;
    ClassesAreStore(md, ev.store.companions, ev.graph, ev.classes);
    var s := RenamedMember(md, pr.sccs[i], ev.classes[i], m);
    SameSnapshot(ev.store, ev.byKey, s);
    EntryOf(ev.store, ev.byKey, m);
    EntryPackage(ev.store, ev.byKey[m]);
  }

  function PackageName(md: Lock, s: string): string {
    if IsStorePackage(md, s) then PackageOf(md, s).name else ""
  }

  lemma EntryPackage(st: Store, e: Entry)
    requires EntryFor(st, e)
    ensures e.packageName == PackageName(st.md, e.snapshot)
  {
  }

  lemma ClassMember(md: Lock, sidecar: map<string, Bins>, collate: Collation, pr: Projection, ev: Evidence, i: nat,
                    k: string)
    requires IsProjection(md, sidecar, collate, pr, ev) && i < |ev.classes| && k in ev.byKey
    requires ev.byKey[k].snapshot in ev.classes[i]
    ensures i < |pr.sccs| && k in pr.sccs[i]
  {
    hide IsUnionGraph, IsCompanions, KeysDistinct, Indexed, ViewFor, EntryFor, Listed, StoreSccs.OnCycle, Mutual,
         NumbersOf;
    EntryOf(ev.store, ev.byKey, k);
    EntryKey(ev.store, ev.byKey[k]);
    var c := ev.classes[i];
    var j :| 0 <= j < |c| && c[j] == ev.byKey[k].snapshot;
    assert StoreSccs.Renamed(md, c)[j] == k;
    assert k in multiset(StoreSccs.Renamed(md, c));
    assert k in multiset(pr.sccs[i]);
  }

  /** An entry carries a component number exactly when its snapshot lies on a cycle. */
  lemma NumberedIffOnCycle(md: Lock, sidecar: map<string, Bins>, collate: Collation, pr: Projection, ev: Evidence,
                           k: string)
    requires IsProjection(md, sidecar, collate, pr, ev) && k in ev.byKey
    ensures ev.byKey[k].sccIndex.Some? <==> StoreSccs.OnCycle(ev.graph, ev.byKey[k].snapshot)
    ensures ev.byKey[k].sccIndex.Some? ==>
      ev.byKey[k].sccIndex.value < |pr.sccs| && k in pr.sccs[ev.byKey[k].sccIndex.value]
  {
    hide IsCompanions, KeysDistinct, Indexed, ViewFor, EntryFor, BinsOf, StoreSccs.Lists, StoreSccs.OnCycle, Mutual,
         IsUnionGraph;
    EntryOf(ev.store, ev.byKey, k);
    UnionNode(md, ev.store.companions, ev.graph, ev.byKey[k].snapshot);
    if StoreSccs.OnCycle(ev.graph, ev.byKey[k].snapshot) {
      var i :| 0 <= i < |ev.classes| && ev.byKey[k].snapshot in ev.classes[i];
      ClassMember(md, sidecar, collate, pr, ev, i, k);
      MemberEntry(md, sidecar, collate, pr, ev, i, k);
    }
    if ev.byKey[k].sccIndex.Some? {
      assert ev.byKey[k] in pr.entries;
      MemberEntry(md, sidecar, collate, pr, ev, ev.byKey[k].sccIndex.value, k);
    }
  }

  // ----- When rendering succeeds -----

  /** Grafted package bytes and cycles exclude each other. */
  ghost predicate NoCycleGrafted(md: Lock, g: Graph<string>, grafted: set<string>) {
    forall s | IsStorePackage(md, s) && StoreSccs.OnCycle(g, s) :: PackageName(md, s) !in grafted
  }

  /** An importer names the same workspaces on every platform. */
  ghost predicate SameWorkspaces(md: Lock, workspaceKey: string -> string, importer: Importer) {
    forall p, q ::
      WorkspaceRecord(ImporterEdgesOf(Config(md, p, workspaceKey), importer))
      == WorkspaceRecord(ImporterEdgesOf(Config(md, q, workspaceKey), importer))
  }

  /** Everything that can make rendering a projection fail, as conditions on the lockfile. */
  ghost predicate Renderable(st: Store, g: Graph<string>, grafted: set<string>) {
    && StoreHasNoWorkspaces(st)
    && NoCycleGrafted(st.md, g, grafted)
    && (forall name | name in st.md.importers :: SameWorkspaces(st.md, st.workspaceKey, st.md.importers[name]))
  }

  ghost predicate MemberIsClean(byKey: map<string, Entry>, m: string, p: Platform) {
    m in byKey && NoWorkspaces(DeclaredEdges(byKey[m], p))
  }

  lemma SccsRenderIff(md: Lock, sidecar: map<string, Bins>, collate: Collation, pr: Projection, ev: Evidence)
    requires IsProjection(md, sidecar, collate, pr, ev)
    ensures (forall m, p | IsMember(pr.sccs, m) :: MemberRenders(ev.byKey, m, p))
        <==> forall m, p | IsMember(pr.sccs, m) :: MemberIsClean(ev.byKey, m, p)
  {
    hide IsUnionGraph, IsCompanions, KeysDistinct, Indexed, ViewFor, NumbersOf, Listed, StoreSccs.Lists,
         StoreSccs.CycleClasses,
         NoWorkspaces, DeclaredEdges, EntryKeys;
    forall m, p | IsMember(pr.sccs, m)
      ensures MemberRenders(ev.byKey, m, p) <==> MemberIsClean(ev.byKey, m, p)
    {
      var i :| 0 <= i < |pr.sccs| && m in pr.sccs[i];
      MemberEntry(md, sidecar, collate, pr, ev, i, m);
      TargetsKnown(ev.store, ev.byKey, ev.graph, m, p);
    }
  }

  /** A member of a cycle is not grafted; any other entry leads to no workspace. */
  ghost predicate EntryStands(md: Lock, g: Graph<string>, grafted: set<string>, e: Entry) {
    if StoreSccs.OnCycle(g, e.snapshot) then PackageName(md, e.snapshot) !in grafted
    else forall p :: NoWorkspaces(DeclaredEdges(e, p))
  }

  lemma EntryRendersWhen(md: Lock, sidecar: map<string, Bins>, collate: Collation, pr: Projection, ev: Evidence,
                         grafted: set<string>, k: string)
    requires IsProjection(md, sidecar, collate, pr, ev) && k in ev.byKey
    ensures RenderEntry(ev.byKey.Keys, |pr.sccs|, grafted, ev.byKey[k]).Success? <==>
      EntryStands(md, ev.graph, grafted, ev.byKey[k])
  {
    hide IsUnionGraph, IsCompanions, KeysDistinct, Indexed, ViewFor, NumbersOf, Listed, StoreSccs.Lists,
         StoreSccs.CycleClasses,
         NoWorkspaces, DeclaredEdges, EntryKeys, StoreSccs.OnCycle, RenderEntry, EntryFor;
    NumberedIffOnCycle(md, sidecar, collate, pr, ev, k);
    EntryRendersIff(ev.byKey.Keys, |pr.sccs|, grafted, ev.byKey[k]);
    EntryOf(ev.store, ev.byKey, k);
    EntryPackage(ev.store, ev.byKey[k]);
    forall p ensures EntryKeys(DeclaredEdges(ev.byKey[k], p)) <= ev.byKey.Keys {
      TargetsKnown(ev.store, ev.byKey, ev.graph, k, p);
    }
  }

  lemma ViewRendersWhen(st: Store, collate: Collation, byKey: map<string, Entry>, g: Graph<string>, view: View)
    requires ViewFor(st, collate, byKey, view)
    ensures RenderView(byKey.Keys, view).Success? <==>
      SameWorkspaces(st.md, st.workspaceKey, st.md.importers[view.importer])
  {
    hide RenderView, WorkspaceRecord, WellKeyed, ImporterEdgesOf, ReachedFrom, KeyGraph, Decided, EdgeIdentity,
         ImporterResolves, Find;
    ViewRendersIff(byKey.Keys, view);
    var importer := st.md.importers[view.importer];
    forall p
      ensures HasVariant(view, p) && forall k | k in Variant(view, p).closure :: k in byKey
      ensures WorkspaceRecord(Variant(view, p).direct)
          == WorkspaceRecord(ImporterEdgesOf(Config(st.md, p, st.workspaceKey), importer))
    {
      VariantIs(st, collate, byKey, view, p);
    }
  }

  /** What a view's variant shows on a platform. */
  lemma VariantIs(st: Store, collate: Collation, byKey: map<string, Entry>, view: View, p: Platform)
    requires ViewFor(st, collate, byKey, view)
    ensures HasVariant(view, p)
    ensures var edges := ImporterEdgesOf(Config(st.md, p, st.workspaceKey), st.md.importers[view.importer]);
      && WorkspaceRecord(Variant(view, p).direct) == WorkspaceRecord(edges)
      && EntryRecord(Variant(view, p).direct) == EntryRecord(edges)
      && forall k :: k in Variant(view, p).closure <==> ReachedFrom(KeyGraph(byKey, p), EntryKeys(edges), k)
    ensures forall k | k in Variant(view, p).closure :: Present(byKey, p, k)
  {
    hide WorkspaceRecord, EntryRecord, WellKeyed, ImporterEdgesOf, KeyGraph, Decided, EdgeIdentity, ImporterResolves,
         EntryKeys,
         ReachedFrom;
    var importer := st.md.importers[view.importer];
    var found := Find(view.variants, p).value;
    var v :| ViewAt(st, collate, byKey, importer, p, v) && IdentityOfView(found) == IdentityOfView(v);
    SameIdentitySameRecords(found.direct, v.direct);
  }

  lemma ViewsRenderIff(md: Lock, sidecar: map<string, Bins>, collate: Collation, pr: Projection, ev: Evidence)
    requires IsProjection(md, sidecar, collate, pr, ev)
    ensures (forall i | 0 <= i < |pr.views| :: RenderView(ev.byKey.Keys, pr.views[i]).Success?)
        <==> forall name | name in md.importers :: SameWorkspaces(md, ev.store.workspaceKey, md.importers[name])
  {
    hide IsUnionGraph, IsCompanions, KeysDistinct, Indexed, ViewFor, NumbersOf, Listed, StoreSccs.Lists,
         StoreSccs.CycleClasses,
         SameWorkspaces, RenderView;
    forall i | 0 <= i < |pr.views|
      ensures pr.views[i].importer in md.importers
      ensures RenderView(ev.byKey.Keys, pr.views[i]).Success?
        <==> SameWorkspaces(md, ev.store.workspaceKey, md.importers[pr.views[i].importer])
    {
      ViewRendersWhen(ev.store, collate, ev.byKey, ev.graph, pr.views[i]);
    }
  }

  lemma EntriesRenderIff(md: Lock, sidecar: map<string, Bins>, collate: Collation, pr: Projection, ev: Evidence,
                         grafted: set<string>)
    requires IsProjection(md, sidecar, collate, pr, ev)
    ensures (forall i | 0 <= i < |pr.entries| ::
              RenderEntry(ev.byKey.Keys, |pr.sccs|, grafted, pr.entries[i]).Success?) <==>
      forall k | k in ev.byKey :: EntryStands(md, ev.graph, grafted, ev.byKey[k])
  {
    hide IsUnionGraph, IsCompanions, KeysDistinct, Indexed, ViewFor, NumbersOf, StoreSccs.Lists, StoreSccs.CycleClasses,
         EntryStands, RenderEntry, BinsOf, SccOf;
    forall k | k in ev.byKey
      ensures RenderEntry(ev.byKey.Keys, |pr.sccs|, grafted, ev.byKey[k]).Success? <==>
        EntryStands(md, ev.graph, grafted, ev.byKey[k])
    {
      EntryRendersWhen(md, sidecar, collate, pr, ev, grafted, k);
    }
    forall k | k in ev.byKey && forall i | 0 <= i < |pr.entries| ::
      RenderEntry(ev.byKey.Keys, |pr.sccs|, grafted, pr.entries[i]).Success?
      ensures EntryStands(md, ev.graph, grafted, ev.byKey[k])
    {
      assert ev.byKey[k] in pr.entries;
    }
    forall i | 0 <= i < |pr.entries|
      ensures pr.entries[i].storeKey in ev.byKey && ev.byKey[pr.entries[i].storeKey] == pr.entries[i]
    {
      assert pr.entries[i] in pr.entries;
    }
  }

  /** No entry leads to a workspace when no member does and no entry off the cycles does. */
  lemma OnAndOffCycles(md: Lock, sidecar: map<string, Bins>, collate: Collation, pr: Projection, ev: Evidence)
    requires IsProjection(md, sidecar, collate, pr, ev)
    ensures (forall k, p | k in ev.byKey :: MemberIsClean(ev.byKey, k, p))
        <==> (forall m, p | IsMember(pr.sccs, m) :: MemberIsClean(ev.byKey, m, p))
             && (forall k, p | k in ev.byKey && !StoreSccs.OnCycle(ev.graph, ev.byKey[k].snapshot) ::
                   MemberIsClean(ev.byKey, k, p))
  {
    hide IsUnionGraph, IsCompanions, KeysDistinct, Indexed, ViewFor, NumbersOf, Listed, StoreSccs.Lists,
         StoreSccs.CycleClasses,
         MemberIsClean, StoreSccs.OnCycle;
    forall m | IsMember(pr.sccs, m)
      ensures m in ev.byKey
    {
      var i :| 0 <= i < |pr.sccs| && m in pr.sccs[i];
      MemberEntry(md, sidecar, collate, pr, ev, i, m);
    }
    forall k | k in ev.byKey && StoreSccs.OnCycle(ev.graph, ev.byKey[k].snapshot)
      ensures IsMember(pr.sccs, k)
    {
      NumberedIffOnCycle(md, sidecar, collate, pr, ev, k);
    }
  }

  lemma GraftsIff(st: Store, g: Graph<string>, byKey: map<string, Entry>, grafted: set<string>)
    requires Indexed(st, byKey)
    ensures NoCycleGrafted(st.md, g, grafted) <==>
      forall k | k in byKey && StoreSccs.OnCycle(g, byKey[k].snapshot) ::
        PackageName(st.md, byKey[k].snapshot) !in grafted
  {
    hide Indexed, StoreSccs.OnCycle, PackageName;
    forall k | k in byKey
      ensures IsStorePackage(st.md, byKey[k].snapshot)
    {
      EntryOf(st, byKey, k);
    }
    forall s | IsStorePackage(st.md, s)
      ensures exists k :: k in byKey && byKey[k].snapshot == s
    {
      SameSnapshot(st, byKey, s);
    }
  }

  /**
   * Rendering a projection succeeds exactly on renderable lockfiles: no lookup of a variant, entry or component can
   * fail.
   */
  lemma RendersIff(md: Lock, sidecar: map<string, Bins>, collate: Collation, pr: Projection, ev: Evidence,
                   grafted: set<string>)
    requires IsProjection(md, sidecar, collate, pr, ev)
    ensures EntryIndex(pr.entries) == ev.byKey
    ensures Renders(pr, grafted, EntryIndex(pr.entries)) <==> Renderable(ev.store, ev.graph, grafted)
  {
    hide IsUnionGraph, IsCompanions, KeysDistinct, Indexed, ViewFor, NumbersOf, Listed, StoreSccs.Lists,
         StoreSccs.CycleClasses,
         NoWorkspaces, DeclaredEdges, StoreSccs.OnCycle, StoreHasNoWorkspaces, NoCycleGrafted,
         SameWorkspaces, MemberRenders,
         RenderEntry, RenderView, EntryIndex, PackageName, MemberIsClean, EntryStands;
    forall k | k in ev.byKey ensures ev.byKey[k].storeKey == k { EntryOf(ev.store, ev.byKey, k); }
    IndexIsByKey(md, sidecar, ev.sccOf, pr.entries, ev.byKey);
    SccsRenderIff(md, sidecar, collate, pr, ev);
    EntriesRenderIff(md, sidecar, collate, pr, ev, grafted);
    ViewsRenderIff(md, sidecar, collate, pr, ev);
    OnAndOffCycles(md, sidecar, collate, pr, ev);
    GraftsIff(ev.store, ev.graph, ev.byKey, grafted);
    AllDeclaredWorkspaces(ev.store, ev.byKey);
    CleanIff(ev.byKey);
    StandsIff(md, ev.graph, grafted, ev.byKey);
  }

  lemma CleanIff(byKey: map<string, Entry>)
    ensures (forall k, p | k in byKey :: NoWorkspaces(DeclaredEdges(byKey[k], p))) <==>
      forall k, p | k in byKey :: MemberIsClean(byKey, k, p)
  {
    hide NoWorkspaces, DeclaredEdges;
    forall k, p | k in byKey
      ensures MemberIsClean(byKey, k, p) <==> NoWorkspaces(DeclaredEdges(byKey[k], p))
    {
    }
  }

  lemma StandsIff(md: Lock, g: Graph<string>, grafted: set<string>, byKey: map<string, Entry>)
    ensures (forall k | k in byKey :: EntryStands(md, g, grafted, byKey[k]))
        <==> (forall k | k in byKey && StoreSccs.OnCycle(g, byKey[k].snapshot) ::
              PackageName(md, byKey[k].snapshot) !in grafted)
             && (forall k, p | k in byKey && !StoreSccs.OnCycle(g, byKey[k].snapshot) :: MemberIsClean(byKey, k, p))
  {
    hide StoreSccs.OnCycle, PackageName, NoWorkspaces, DeclaredEdges;
    forall k | k in byKey
      ensures EntryStands(md, g, grafted, byKey[k]) <==>
        if StoreSccs.OnCycle(g, byKey[k].snapshot) then PackageName(md, byKey[k].snapshot) !in grafted
        else forall p :: MemberIsClean(byKey, k, p)
    {
      if forall p :: MemberIsClean(byKey, k, p) {
        forall p ensures NoWorkspaces(DeclaredEdges(byKey[k], p)) { assert MemberIsClean(byKey, k, p); }
      }
    }
  }

  // ----- No cycles, on any platform -----

  /** The snapshot a target stands for in the union graph; a component stands for its first member. */
  ghost function Stands(ev: Evidence, a: Target): Option<string> {
    match a
    case EntryTarget(k) => if k in ev.byKey then Some(ev.byKey[k].snapshot) else None
    case SccTarget(i) => if i < |ev.classes| && ev.classes[i] != [] then Some(ev.classes[i][0]) else None
    case ViewTarget(_) => None
  }

  lemma PlainNeeds(known: set<string>, components: nat, grafted: set<string>, e: Entry, rule: EntryRule, p: Platform,
                   b: Target)
    requires RenderEntry(known, components, grafted, e) == Success(rule) && RuleNeeds(rule, p, b)
    ensures e.sccIndex.Some? ==> b == SccTarget(e.sccIndex.value)
    ensures e.sccIndex.None? ==> b.EntryTarget? && b.storeKey in EntryKeys(DeclaredEdges(e, p))
  {
    hide DeclaredEdges;
    if e.sccIndex.None? {
      var n :| n in rule.dependencies[p] && rule.dependencies[p][n] == b.storeKey;
      assert n in EntryRecord(DeclaredEdges(e, p));
    }
  }

  lemma {:induction false} PortLeaves(byKey: map<string, Entry>, members: seq<string>, inside: bool, done: seq<string>,
                                      p: Platform, port: Port)
    requires port in PortsOf(byKey, members, inside, done, p)
    ensures port.member in done && port.member in byKey
    ensures var l := PortsOf(byKey, members, inside, done, p)[port];
      l in EntryKeys(DeclaredEdges(byKey[port.member], p)) && (l in members <==> inside)
  {
    hide DeclaredEdges;
    var n := |done| - 1;
    assert done == done[..n] + [done[n]];
    if done[n] !in byKey || port !in MemberPorts(members, inside, done[n], DeclaredEdges(byKey[done[n]], p)) {
      PortLeaves(byKey, members, inside, done[..n], p, port);
    }
  }

  /** What one declared target needs, in terms of the entries. */
  lemma NeedsIs(md: Lock, sidecar: map<string, Bins>, collate: Collation, pr: Projection, ev: Evidence,
                grafted: set<string>,
                d: Declarations, p: Platform, a: Target, b: Target)
    requires IsProjection(md, sidecar, collate, pr, ev) && Rendered(pr, grafted, ev.byKey, d) && Needs(d, p, a, b)
    ensures a.EntryTarget? ==> a.storeKey in ev.byKey
    ensures a.EntryTarget? && ev.byKey[a.storeKey].sccIndex.Some? ==>
      b == SccTarget(ev.byKey[a.storeKey].sccIndex.value)
    ensures a.EntryTarget? && ev.byKey[a.storeKey].sccIndex.None? ==>
      b.EntryTarget? && b.storeKey in EntryKeys(DeclaredEdges(ev.byKey[a.storeKey], p))
    ensures a.SccTarget? ==> a.index < |pr.sccs| && b.EntryTarget? && b.storeKey !in pr.sccs[a.index]
    ensures a.SccTarget? ==>
      exists m :: m in pr.sccs[a.index] && m in ev.byKey && b.storeKey in EntryKeys(DeclaredEdges(ev.byKey[m], p))
    ensures a.ViewTarget? ==> b.EntryTarget?
  {
    hide IsUnionGraph, IsCompanions, KeysDistinct, Indexed, ViewFor, NumbersOf, BinsOf, SccOf, StoreSccs.Lists,
         StoreSccs.CycleClasses, DeclaredEdges, EntryKeys, RenderEntry, RuleNeeds, RenderView, PortsOf;
    match a
    case EntryTarget(k) =>
      var i :| 0 <= i < |d.entries| && d.entries[i].name == k && RuleNeeds(d.entries[i].rule, p, b);
      assert pr.entries[i] in pr.entries;
      PlainNeeds(ev.byKey.Keys, |pr.sccs|, grafted, pr.entries[i], d.entries[i].rule, p, b);
    case SccTarget(i) =>
      assert SccRendered(ev.byKey, pr.sccs[i], d.sccs[i]);
      var port :| port in d.sccs[i].external[p] && d.sccs[i].external[p][port] == b.storeKey;
      PortLeaves(ev.byKey, pr.sccs[i], false, pr.sccs[i], p, port);
    case ViewTarget(_) =>
  }

  lemma DeclaredStep(st: Store, byKey: map<string, Entry>, g: Graph<string>, p: Platform, k: string, l: string)
    requires Indexed(st, byKey) && IsUnionGraph(st.md, st.companions, g)
    requires k in byKey && l in EntryKeys(DeclaredEdges(byKey[k], p))
    ensures Present(byKey, p, k) && Present(byKey, p, l) && Digraphs.Edge(g, byKey[k].snapshot, byKey[l].snapshot)
  {
    hide Indexed, IsUnionGraph, DeclaredEdges, EntryKeys;
    if !Present(byKey, p, k) {
      AbsentDeclaresNothing(st, byKey, p, k);
      NoKeys();
    }
    TargetsPresent(st, byKey, g, p, k, l);
  }

  /** Following a dependency of a target follows a path of the union graph. */
  lemma NeedsFollowsPath(md: Lock, sidecar: map<string, Bins>, collate: Collation, pr: Projection, ev: Evidence,
                         grafted: set<string>,
                         d: Declarations, p: Platform, a: Target, b: Target)
    requires IsProjection(md, sidecar, collate, pr, ev) && Rendered(pr, grafted, ev.byKey, d) && Needs(d, p, a, b)
    requires !a.ViewTarget?
    ensures Stands(ev, a).Some? && Stands(ev, b).Some? && Reaches(ev.graph, Stands(ev, a).value, Stands(ev, b).value)
  {
    hide IsUnionGraph, IsCompanions, KeysDistinct, Indexed, ViewFor, NumbersOf, Listed, StoreSccs.Lists,
         DeclaredEdges, EntryKeys, Needs, Rendered, Present, StoreSccs.OnCycle;
    NeedsIs(md, sidecar, collate, pr, ev, grafted, d, p, a, b);
    if a.EntryTarget? && b.SccTarget? {
      NumberedIffOnCycle(md, sidecar, collate, pr, ev, a.storeKey);
      MemberEntry(md, sidecar, collate, pr, ev, b.index, a.storeKey);
      InOneClass(ev.graph, ev.classes[b.index], ev.byKey[a.storeKey].snapshot, ev.classes[b.index][0]);
    } else {
      var m := if a.EntryTarget? then a.storeKey else
        var m :| m in pr.sccs[a.index] && m in ev.byKey && b.storeKey in EntryKeys(DeclaredEdges(ev.byKey[m], p)); m;
      DeclaredStep(ev.store, ev.byKey, ev.graph, p, m, b.storeKey);
      assert b.storeKey in ev.byKey by { PresentIsIndexed(ev.byKey, p, b.storeKey); }
      ReachesAlongEdge(ev.graph, ev.byKey[m].snapshot, ev.byKey[b.storeKey].snapshot);
      if a.SccTarget? {
        MemberEntry(md, sidecar, collate, pr, ev, a.index, m);
        InOneClass(ev.graph, ev.classes[a.index], ev.classes[a.index][0], ev.byKey[m].snapshot);
        ReachesTrans(ev.graph, ev.classes[a.index][0], ev.byKey[m].snapshot, ev.byKey[b.storeKey].snapshot);
      }
    }
  }

  lemma PresentIsIndexed(byKey: map<string, Entry>, p: Platform, k: string)
    requires Present(byKey, p, k)
    ensures k in byKey
  {
  }

  lemma InOneClass(g: Graph<string>, c: seq<string>, x: string, y: string)
    requires IsClass(g, c) && x in c && y in c
    ensures Mutual(g, x, y)
  {
  }

  /** Of the dependencies that stay within one class of the union graph, only a member's component is declared. */
  lemma StepsInsideAClass(md: Lock, sidecar: map<string, Bins>, collate: Collation, pr: Projection, ev: Evidence,
                          grafted: set<string>,
                          d: Declarations, p: Platform, a: Target, b: Target)
    requires IsProjection(md, sidecar, collate, pr, ev) && Rendered(pr, grafted, ev.byKey, d) && Needs(d, p, a, b)
    requires !a.ViewTarget? && Stands(ev, a).Some? && Stands(ev, b).Some?
    requires Reaches(ev.graph, Stands(ev, b).value, Stands(ev, a).value)
    ensures a.EntryTarget? && b.SccTarget?
  {
    hide IsUnionGraph, IsCompanions, KeysDistinct, Indexed, ViewFor, NumbersOf, Listed, StoreSccs.Lists,
         DeclaredEdges, EntryKeys, Needs, Rendered, Present, Reaches;
    NeedsIs(md, sidecar, collate, pr, ev, grafted, d, p, a, b);
    NeedsFollowsPath(md, sidecar, collate, pr, ev, grafted, d, p, a, b);
    var g := ev.graph;
    if a.EntryTarget? && b.EntryTarget? {
      DeclaredStep(ev.store, ev.byKey, g, p, a.storeKey, b.storeKey);
      assert StoreSccs.OnCycle(g, ev.byKey[a.storeKey].snapshot);
      NumberedIffOnCycle(md, sidecar, collate, pr, ev, a.storeKey);
    } else if a.SccTarget? {
      var s := ev.byKey[b.storeKey].snapshot;
      var c := ev.classes[a.index];
      assert IsClass(g, c) && c[0] in c && Mutual(g, c[0], s);
      ClassMember(md, sidecar, collate, pr, ev, a.index, b.storeKey);
    }
  }

  /** A run of dependencies. */
  ghost predicate IsRun(d: Declarations, p: Platform, run: seq<Target>) {
    forall i, j | 0 <= i < j < |run| && j == i + 1 :: Needs(d, p, run[i], run[j])
  }

  lemma {:induction false} RunFollowsPath(md: Lock, sidecar: map<string, Bins>, collate: Collation, pr: Projection,
                                          ev: Evidence,
                                          grafted: set<string>, d: Declarations, p: Platform, run: seq<Target>)
    requires IsProjection(md, sidecar, collate, pr, ev) && Rendered(pr, grafted, ev.byKey, d)
    requires |run| > 0 && IsRun(d, p, run) && !run[0].ViewTarget? && Stands(ev, run[0]).Some?
    ensures var last := run[|run| - 1];
      !last.ViewTarget? && Stands(ev, last).Some? && Reaches(ev.graph, Stands(ev, run[0]).value, Stands(ev, last).value)
  {
    hide IsProjection, Needs, Rendered, Reaches, Stands;
    var n := |run| - 1;
    if n == 0 {
      ReachesSelf(ev.graph, Stands(ev, run[0]).value);
    } else {
      RunFollowsPath(md, sidecar, collate, pr, ev, grafted, d, p, run[..n]);
      assert Needs(d, p, run[n - 1], run[n]);
      NeedsFollowsPath(md, sidecar, collate, pr, ev, grafted, d, p, run[n - 1], run[n]);
      NeedsIs(md, sidecar, collate, pr, ev, grafted, d, p, run[n - 1], run[n]);
      ReachesTrans(ev.graph, Stands(ev, run[0]).value, Stands(ev, run[n - 1]).value, Stands(ev, run[n]).value);
    }
  }

  lemma RunTail(d: Declarations, p: Platform, run: seq<Target>)
    requires |run| > 0 && IsRun(d, p, run)
    ensures IsRun(d, p, run[1..])
  {
    hide Needs;
    forall i, j | 0 <= i < j < |run| - 1 && j == i + 1
      ensures Needs(d, p, run[1..][i], run[1..][j])
    {
      assert Needs(d, p, run[i + 1], run[j + 1]);
    }
  }

  lemma NothingNeedsAView(d: Declarations, p: Platform, a: Target, b: Target)
    requires Needs(d, p, a, b)
    ensures !b.ViewTarget?
  {
  }

  /** On no platform does a run of declared dependencies lead from a target back to itself. */
  lemma TargetsAreAcyclic(md: Lock, sidecar: map<string, Bins>, collate: Collation, pr: Projection, ev: Evidence,
                          grafted: set<string>,
                          d: Declarations, p: Platform, run: seq<Target>)
    requires IsProjection(md, sidecar, collate, pr, ev) && Rendered(pr, grafted, ev.byKey, d)
    requires |run| >= 2 && IsRun(d, p, run)
    ensures run[0] != run[|run| - 1]
  {
    hide IsProjection, Needs, Rendered, Reaches, Stands;
    var n := |run| - 1;
    assert Needs(d, p, run[n - 1], run[n]) && Needs(d, p, run[0], run[1]);
    NothingNeedsAView(d, p, run[n - 1], run[n]);
    if run[0] == run[n] {
      NeedsFollowsPath(md, sidecar, collate, pr, ev, grafted, d, p, run[0], run[1]);
      NothingNeedsAView(d, p, run[0], run[1]);
      RunTail(d, p, run);
      RunFollowsPath(md, sidecar, collate, pr, ev, grafted, d, p, run[1..]);
      StepsInsideAClass(md, sidecar, collate, pr, ev, grafted, d, p, run[0], run[1]);
      assert Needs(d, p, run[1], run[2]);
      NeedsFollowsPath(md, sidecar, collate, pr, ev, grafted, d, p, run[1], run[2]);
      NothingNeedsAView(d, p, run[1], run[2]);
      RunTail(d, p, run[1..]);
      RunFollowsPath(md, sidecar, collate, pr, ev, grafted, d, p, run[1..][1..]);
      ReachesTrans(ev.graph, Stands(ev, run[2]).value, Stands(ev, run[0]).value, Stands(ev, run[1]).value);
      StepsInsideAClass(md, sidecar, collate, pr, ev, grafted, d, p, run[1], run[2]);
    }
  }

  // ----- Nothing dangles, nothing is lost -----

  ghost predicate IsRuleOf(d: Declarations, i: nat, k: string, made: Result<EntryRule, BuckFailure>) {
    i < |d.entries| && d.entries[i].name == k && made == Success(d.entries[i].rule)
  }

  lemma EntryDeclared(pr: Projection, grafted: set<string>, byKey: map<string, Entry>, d: Declarations, k: string)
    requires Rendered(pr, grafted, byKey, d) && k in byKey && byKey[k] in pr.entries && byKey[k].storeKey == k
    ensures exists i: nat :: IsRuleOf(d, i, k, RenderEntry(byKey.Keys, |pr.sccs|, grafted, byKey[k]))
  {
    hide RenderEntry, SccRendered, RenderView;
    var i :| 0 <= i < |pr.entries| && pr.entries[i] == byKey[k];
    assert IsRuleOf(d, i, k, RenderEntry(byKey.Keys, |pr.sccs|, grafted, byKey[k]));
  }

  /** Every target a declared target names is itself declared. */
  lemma NothingDangles(md: Lock, sidecar: map<string, Bins>, collate: Collation, pr: Projection, ev: Evidence,
                       grafted: set<string>,
                       d: Declarations, p: Platform, a: Target, b: Target)
    requires IsProjection(md, sidecar, collate, pr, ev) && Rendered(pr, grafted, ev.byKey, d) && Needs(d, p, a, b)
    ensures IsDeclared(d, b)
  {
    hide IsUnionGraph, IsCompanions, KeysDistinct, Indexed, ViewFor, NumbersOf, BinsOf, SccOf, StoreSccs.Lists,
         StoreSccs.CycleClasses, DeclaredEdges, EntryKeys, Needs, Rendered, RenderView, SccRendered;
    if b.EntryTarget? {
      NeedsKnown(md, sidecar, collate, pr, ev, grafted, d, p, a, b.storeKey);
      EntryOf(ev.store, ev.byKey, b.storeKey);
      EntryDeclared(pr, grafted, ev.byKey, d, b.storeKey);
    } else {
      NeedsIs(md, sidecar, collate, pr, ev, grafted, d, p, a, b);
      NumberedIffOnCycle(md, sidecar, collate, pr, ev, a.storeKey);
      assert |d.sccs| == |pr.sccs| by { SameComponents(pr, grafted, ev.byKey, d); }
    }
  }

  lemma SameComponents(pr: Projection, grafted: set<string>, byKey: map<string, Entry>, d: Declarations)
    requires Rendered(pr, grafted, byKey, d)
    ensures |d.sccs| == |pr.sccs|
  {
    hide RenderEntry, SccRendered, RenderView;
  }

  lemma NeedsKnown(md: Lock, sidecar: map<string, Bins>, collate: Collation, pr: Projection, ev: Evidence,
                   grafted: set<string>,
                   d: Declarations, p: Platform, a: Target, k: string)
    requires IsProjection(md, sidecar, collate, pr, ev) && Rendered(pr, grafted, ev.byKey, d)
    requires Needs(d, p, a, EntryTarget(k))
    ensures k in ev.byKey
  {
    hide IsUnionGraph, IsCompanions, KeysDistinct, Indexed, ViewFor, NumbersOf, Listed, StoreSccs.Lists,
         StoreSccs.CycleClasses, DeclaredEdges, EntryKeys, Needs, Rendered, Present;
    var b := EntryTarget(k);
    NeedsIs(md, sidecar, collate, pr, ev, grafted, d, p, a, b);
    if a.ViewTarget? {
      ClosureKnownBy(pr, grafted, ev.byKey, d, p, a.importer, k);
    } else {
      var m := if a.EntryTarget? then a.storeKey else
        var m :| m in pr.sccs[a.index] && m in ev.byKey && k in EntryKeys(DeclaredEdges(ev.byKey[m], p)); m;
      DeclaredStep(ev.store, ev.byKey, ev.graph, p, m, k);
      PresentIsIndexed(ev.byKey, p, k);
    }
  }

  lemma ClosureKnownBy(pr: Projection, grafted: set<string>, byKey: map<string, Entry>, d: Declarations, p: Platform,
                       name: string, k: string)
    requires Rendered(pr, grafted, byKey, d) && Needs(d, p, ViewTarget(name), EntryTarget(k))
    ensures k in byKey
  {
    hide RenderEntry, SccRendered, WorkspaceRecord, EntryRecord, Find, InvariantRecord;
    EveryPlatform(p);
    var i :| 0 <= i < |d.views| && d.views[i].name == name && p in d.views[i].rule.closure
        && k in d.views[i].rule.closure[p];
    assert ClosureKnown(byKey.Keys, pr.views[i], p);
  }

  lemma {:induction false} PortKept(byKey: map<string, Entry>, members: seq<string>, inside: bool, done: seq<string>,
                                    p: Platform,
                                    m: string, n: string)
    requires m in done && m in byKey && n in DeclaredEdges(byKey[m], p) && DeclaredEdges(byKey[m], p)[n].EntryEdge?
    requires DeclaredEdges(byKey[m], p)[n].storeKey in members <==> inside
    ensures Port(m, n) in PortsOf(byKey, members, inside, done, p)
    ensures PortsOf(byKey, members, inside, done, p)[Port(m, n)] == DeclaredEdges(byKey[m], p)[n].storeKey
  {
    hide DeclaredEdges;
    var last := |done| - 1;
    assert done == done[..last] + [done[last]];
    if done[last] == m {
      assert Port(m, n) in MemberPorts(members, inside, m, DeclaredEdges(byKey[m], p));
    } else {
      PortKept(byKey, members, inside, done[..last], p, m, n);
      if done[last] in byKey {
        assert Port(m, n) !in MemberPorts(members, inside, done[last], DeclaredEdges(byKey[done[last]], p));
      }
    }
  }

  /**
   * Each edge of an entry is declared once: by the entry itself, or for a member by its component,
   * inside when the target is a member too and as a dependency of the component otherwise.
   */
  lemma NothingIsLost(md: Lock, sidecar: map<string, Bins>, collate: Collation, pr: Projection, ev: Evidence,
                      grafted: set<string>,
                      d: Declarations, p: Platform, k: string, n: string, l: string)
    requires IsProjection(md, sidecar, collate, pr, ev) && Rendered(pr, grafted, ev.byKey, d)
    requires k in ev.byKey && n in DeclaredEdges(ev.byKey[k], p) && DeclaredEdges(ev.byKey[k], p)[n] == EntryEdge(l)
    ensures ev.byKey[k].sccIndex.None? ==> Needs(d, p, EntryTarget(k), EntryTarget(l))
    ensures ev.byKey[k].sccIndex.Some? ==>
      var i := ev.byKey[k].sccIndex.value;
      && i < |pr.sccs| && i < |d.sccs| && Needs(d, p, EntryTarget(k), SccTarget(i))
      && (l !in pr.sccs[i] ==> Needs(d, p, SccTarget(i), EntryTarget(l)))
      && (l in pr.sccs[i] ==>
            && p in d.sccs[i].internal && Port(k, n) in d.sccs[i].internal[p]
            && d.sccs[i].internal[p][Port(k, n)] == l)
  {
    hide IsUnionGraph, IsCompanions, KeysDistinct, Indexed, ViewFor, NumbersOf, BinsOf, SccOf, StoreSccs.Lists,
         StoreSccs.CycleClasses, DeclaredEdges, EntryKeys, RenderEntry, RenderView, PortsOf, Rendered, Needs, IsRuleOf;
    EntryOf(ev.store, ev.byKey, k);
    EntryDeclared(pr, grafted, ev.byKey, d, k);
    if ev.byKey[k].sccIndex.Some? {
      NumberedIffOnCycle(md, sidecar, collate, pr, ev, k);
      SameComponents(pr, grafted, ev.byKey, d);
      MemberEdgeDeclared(pr, grafted, ev.byKey, d, p, k, n, l);
    } else {
      PlainEdgeDeclared(pr, grafted, ev.byKey, d, p, k, n, l);
    }
  }

  lemma PlainEdgeDeclared(pr: Projection, grafted: set<string>, byKey: map<string, Entry>, d: Declarations, p: Platform,
                          k: string, n: string, l: string)
    requires k in byKey && n in DeclaredEdges(byKey[k], p) && DeclaredEdges(byKey[k], p)[n] == EntryEdge(l)
    requires byKey[k].sccIndex.None?
    requires exists i: nat :: IsRuleOf(d, i, k, RenderEntry(byKey.Keys, |pr.sccs|, grafted, byKey[k]))
    ensures Needs(d, p, EntryTarget(k), EntryTarget(l))
  {
    hide DeclaredEdges, RenderEntry;
    var at: nat :| IsRuleOf(d, at, k, RenderEntry(byKey.Keys, |pr.sccs|, grafted, byKey[k]));
    RuleIs(byKey.Keys, |pr.sccs|, grafted, byKey[k], d.entries[at].rule, p);
    assert n in EntryRecord(DeclaredEdges(byKey[k], p));
    assert RuleNeeds(d.entries[at].rule, p, EntryTarget(l));
  }

  lemma MemberEdgeDeclared(pr: Projection, grafted: set<string>, byKey: map<string, Entry>, d: Declarations,
                           p: Platform,
                           k: string, n: string, l: string)
    requires Rendered(pr, grafted, byKey, d)
    requires k in byKey && n in DeclaredEdges(byKey[k], p) && DeclaredEdges(byKey[k], p)[n] == EntryEdge(l)
    requires byKey[k].sccIndex.Some?
    requires exists i: nat :: IsRuleOf(d, i, k, RenderEntry(byKey.Keys, |pr.sccs|, grafted, byKey[k]))
    requires byKey[k].sccIndex.value < |pr.sccs| == |d.sccs| && k in pr.sccs[byKey[k].sccIndex.value]
    ensures var i := byKey[k].sccIndex.value;
      && Needs(d, p, EntryTarget(k), SccTarget(i))
      && (l !in pr.sccs[i] ==> Needs(d, p, SccTarget(i), EntryTarget(l)))
      && (l in pr.sccs[i] ==>
            && p in d.sccs[i].internal && Port(k, n) in d.sccs[i].internal[p]
            && d.sccs[i].internal[p][Port(k, n)] == l)
  {
    hide DeclaredEdges, RenderEntry, RenderView, PortsOf;
    var i := byKey[k].sccIndex.value;
    var at: nat :| IsRuleOf(d, at, k, RenderEntry(byKey.Keys, |pr.sccs|, grafted, byKey[k]));
    RuleIs(byKey.Keys, |pr.sccs|, grafted, byKey[k], d.entries[at].rule, p);
    assert RuleNeeds(d.entries[at].rule, p, SccTarget(i));
    assert SccRendered(byKey, pr.sccs[i], d.sccs[i]);
    PortKept(byKey, pr.sccs[i], l in pr.sccs[i], pr.sccs[i], p, k, n);
  }

  lemma RuleIs(known: set<string>, components: nat, grafted: set<string>, e: Entry, rule: EntryRule, p: Platform)
    requires RenderEntry(known, components, grafted, e) == Success(rule)
    ensures e.sccIndex.Some? ==> rule == Member(e.sccIndex.value)
    ensures e.sccIndex.None? ==>
      rule.Plain? && p in rule.dependencies && rule.dependencies[p] == EntryRecord(DeclaredEdges(e, p))
  {
    hide DeclaredEdges, EntryRecord;
    EveryPlatform(p);
  }
}
