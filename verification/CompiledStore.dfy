/**
 * What the declared targets say about the lockfile they were compiled from: which references lead where on a
 * platform, what is installed there, and that the targets declare exactly that.
 */
module CompiledStore {
  import opened Common
  import opened Metadata
  import opened Digraphs
  import opened StoreEdges
  import opened PlatformGroups
  import opened RootBins
  import opened StoreProjection
  import opened PnpmStore
  import opened StoreBuck
  import opened StoreTargets
  import StoreSccs

  // ----- Where references lead -----

  /** A reference leads to a workspace, or to the entry of a package that runs on the platform. */
  ghost predicate Leads(st: Store, p: Platform, reference: Reference, edge: Edge) {
    match reference
    case WorkspaceRef(path) => edge == WorkspaceEdge(st.workspaceKey(path), path)
    case PackageRef(s) =>
      && s in st.md.snapshots && st.md.snapshots[s].package in st.md.packages
      && var package := st.md.packages[st.md.snapshots[s].package];
         if package.resolution.Registry? then
           RunsOn(package, p) && edge == EntryEdge(st.md.snapshots[s].virtualStoreName)
         else
           package.workspacePath.Some?
           && edge == WorkspaceEdge(st.workspaceKey(package.workspacePath.value), package.workspacePath.value)
  }

  ghost predicate GroupLeads(st: Store, p: Platform, group: References, n: string, edge: Edge) {
    n in group && Leads(st, p, group[n], edge)
  }

  /** The group does not list the name, or its listing leads nowhere on the platform. */
  ghost predicate Silent(st: Store, p: Platform, group: References, n: string) {
    forall edge :: !GroupLeads(st, p, group, n, edge)
  }

  /** The name is the type companion of a peer, and the snapshot does not declare it itself. */
  ghost predicate CompanionLeads(st: Store, p: Platform, s: Snapshot, n: string, edge: Edge) {
    && n !in s.dependencies && n !in s.optionalDependencies && n in st.companions
    && Leads(st, p, PackageRef(st.companions[n]), edge)
    && exists peer :: peer in s.peerIdentities && !("@types/" <= ParseVirtualStoreKey(peer).name)
         && n == TypesCompanionName(ParseVirtualStoreKey(peer).name)
  }

  /** An optional dependency that leads somewhere comes before a mandatory one of the same name. */
  ghost predicate SnapshotLeads(st: Store, p: Platform, s: Snapshot, n: string, edge: Edge) {
    || GroupLeads(st, p, s.optionalDependencies, n, edge)
    || (GroupLeads(st, p, s.dependencies, n, edge) && Silent(st, p, s.optionalDependencies, n))
    || CompanionLeads(st, p, s, n, edge)
  }

  ghost predicate ImporterLeads(st: Store, p: Platform, importer: Importer, n: string, edge: Edge) {
    || GroupLeads(st, p, importer.optionalDependencies, n, edge)
    || (GroupLeads(st, p, importer.devDependencies, n, edge) && Silent(st, p, importer.optionalDependencies, n))
    || (GroupLeads(st, p, importer.dependencies, n, edge) && Silent(st, p, importer.optionalDependencies, n)
        && Silent(st, p, importer.devDependencies, n))
  }

  function Maps<K(==), V(==)>(m: map<K, V>, k: K, v: V): bool {
    k in m && m[k] == v
  }

  function On(st: Store, p: Platform): Config {
    Config(st.md, p, st.workspaceKey)
  }

  lemma LeadsIff(st: Store, p: Platform, optional: bool, reference: Reference, edge: Edge)
    ensures Leads(st, p, reference, edge) <==>
      HasEdge(On(st, p), optional, reference)
      && ResolveEdge(On(st, p), optional, reference).value.value == edge
  {
    hide PackageAllowed, RunsOn;
    forall package, platform ensures PackageAllowed(package, platform) <==> RunsOn(package, platform) {
      AllowedIff(package, platform);
    }
  }

  lemma GroupLeadsIff(st: Store, p: Platform, optional: bool, group: References, n: string)
    ensures forall edge ::
      Maps(GroupEdges(On(st, p), optional, group), n, edge) <==> GroupLeads(st, p, group, n, edge)
    ensures n in GroupEdges(On(st, p), optional, group) <==> !Silent(st, p, group, n)
  {
    hide Leads, HasEdge, ResolveEdge;
    forall edge
      ensures Maps(GroupEdges(On(st, p), optional, group), n, edge) <==> GroupLeads(st, p, group, n, edge)
    {
      if n in group { LeadsIff(st, p, optional, group[n], edge); }
    }
    if n in GroupEdges(On(st, p), optional, group) {
      assert GroupLeads(st, p, group, n, GroupEdges(On(st, p), optional, group)[n]);
    }
  }

  /** The merged edges of a snapshot are those its references lead to. */
  lemma SnapshotLeadsIff(st: Store, p: Platform, s: string, n: string, edge: Edge)
    requires s in st.md.snapshots
    ensures Maps(EdgesAt(st, s, p), n, edge) <==> SnapshotLeads(st, p, st.md.snapshots[s], n, edge)
  {
    hide Leads, GroupEdges, GroupLeads, Silent, PeerTypeCompanionsOf;
    var snapshot := st.md.snapshots[s];
    GroupLeadsIff(st, p, false, snapshot.dependencies, n);
    GroupLeadsIff(st, p, true, snapshot.optionalDependencies, n);
    GroupLeadsIff(st, p, true, PeerTypeCompanionsOf(st.companions, snapshot), n);
    PeersLeadIff(st, p, snapshot, n, edge);
  }

  lemma PeersLeadIff(st: Store, p: Platform, s: Snapshot, n: string, edge: Edge)
    ensures GroupLeads(st, p, PeerTypeCompanionsOf(st.companions, s), n, edge) <==> CompanionLeads(st, p, s, n, edge)
    ensures n in PeerTypeCompanionsOf(st.companions, s) ==>
      Silent(st, p, s.dependencies, n) && Silent(st, p, s.optionalDependencies, n)
    ensures n in PeerTypeCompanionsOf(st.companions, s) <== !Silent(st, p, PeerTypeCompanionsOf(st.companions, s), n)
  {
    hide Leads, ParseVirtualStoreKey, TypesCompanionName;
  }

  lemma ImporterLeadsIff(st: Store, p: Platform, importer: Importer, n: string, edge: Edge)
    ensures Maps(ImporterEdgesOf(On(st, p), importer), n, edge) <==> ImporterLeads(st, p, importer, n, edge)
  {
    hide Leads, GroupEdges, GroupLeads, Silent;
    GroupLeadsIff(st, p, false, importer.dependencies, n);
    GroupLeadsIff(st, p, false, importer.devDependencies, n);
    GroupLeadsIff(st, p, true, importer.optionalDependencies, n);
  }

  // ----- What is installed -----

  /** On the platform, the package with one store key depends on the one with the other. */
  ghost predicate StepsTo(st: Store, p: Platform, k: string, l: string) {
    exists s, n :: IsStorePackage(st.md, s) && RunsOn(PackageOf(st.md, s), p)
      && st.md.snapshots[s].virtualStoreName == k && SnapshotLeads(st, p, st.md.snapshots[s], n, EntryEdge(l))
  }

  ghost predicate IsChain(st: Store, p: Platform, chain: seq<string>) {
    |chain| > 0 && forall i, j | 0 <= i < j < |chain| && j == i + 1 :: StepsTo(st, p, chain[i], chain[j])
  }

  ghost predicate DependsOn(st: Store, p: Platform, importer: Importer, k: string) {
    exists n :: ImporterLeads(st, p, importer, n, EntryEdge(k))
  }

  /** A chain of dependencies joins the importer to the package with this store key. */
  ghost predicate Installs(st: Store, p: Platform, importer: Importer, k: string) {
    exists chain :: IsChain(st, p, chain) && DependsOn(st, p, importer, chain[0]) && chain[|chain| - 1] == k
  }

  lemma EntryKeyIff(edges: EdgeSet, k: string)
    ensures k in EntryKeys(edges) <==> exists n :: Maps(edges, n, EntryEdge(k))
  {
    if n :| Maps(edges, n, EntryEdge(k)) { assert n in edges && edges[n].EntryEdge? && edges[n].storeKey == k; }
    if k in EntryKeys(edges) {
      var n :| n in edges && edges[n].EntryEdge? && edges[n].storeKey == k;
      assert Maps(edges, n, EntryEdge(k));
    }
  }

  lemma SnapshotKeysIff(st: Store, p: Platform, s: string, l: string)
    requires s in st.md.snapshots
    ensures l in EntryKeys(EdgesAt(st, s, p)) <==>
      exists n :: SnapshotLeads(st, p, st.md.snapshots[s], n, EntryEdge(l))
  {
    hide EntryKeys, EdgesAt, SnapshotLeads, Maps;
    EntryKeyIff(EdgesAt(st, s, p), l);
    forall n
      ensures Maps(EdgesAt(st, s, p), n, EntryEdge(l)) <==> SnapshotLeads(st, p, st.md.snapshots[s], n, EntryEdge(l))
    {
      SnapshotLeadsIff(st, p, s, n, EntryEdge(l));
    }
  }

  lemma ImporterKeysIff(st: Store, p: Platform, importer: Importer, k: string)
    ensures k in EntryKeys(ImporterEdgesOf(On(st, p), importer)) <==> DependsOn(st, p, importer, k)
  {
    hide EntryKeys, ImporterEdgesOf, ImporterLeads, Maps;
    EntryKeyIff(ImporterEdgesOf(On(st, p), importer), k);
    forall n
      ensures Maps(ImporterEdgesOf(On(st, p), importer), n, EntryEdge(k))
          <==> ImporterLeads(st, p, importer, n, EntryEdge(k))
    {
      ImporterLeadsIff(st, p, importer, n, EntryEdge(k));
    }
  }

  /** What an entry declares on a platform is what its snapshot leads to there, if its package runs there at all. */
  lemma DeclaredIff(st: Store, byKey: map<string, Entry>, p: Platform, k: string, n: string, l: string)
    requires Indexed(st, byKey) && k in byKey
    ensures IsStorePackage(st.md, byKey[k].snapshot)
    ensures Maps(EntryRecord(DeclaredEdges(byKey[k], p)), n, l) <==>
      RunsOn(PackageOf(st.md, byKey[k].snapshot), p)
      && SnapshotLeads(st, p, st.md.snapshots[byKey[k].snapshot], n, EntryEdge(l))
  {
    hide Indexed, EntryFor, Present, PackageAllowed, RunsOn, EdgeIdentity, EdgesAt, DeclaredEdges, SnapshotLeads,
         EntryRecord;
    EntryOf(st, byKey, k);
    var s := byKey[k].snapshot;
    AllowedIff(PackageOf(st.md, s), p);
    if Present(byKey, p, k) {
      PresentEntry(st, byKey, p, k);
      SameIdentitySameRecords(DeclaredEdges(byKey[k], p), EdgesAt(st, s, p));
      RecordIff(EdgesAt(st, s, p), n, l);
      SnapshotLeadsIff(st, p, s, n, EntryEdge(l));
    } else {
      AbsentDeclaresNothing(st, byKey, p, k);
      RecordIff(map[], n, l);
    }
  }

  lemma RecordIff(edges: EdgeSet, n: string, l: string)
    ensures Maps(EntryRecord(edges), n, l) <==> Maps(edges, n, EntryEdge(l))
  {
  }

  lemma KeyStepIff(st: Store, byKey: map<string, Entry>, p: Platform, k: string, l: string)
    requires Indexed(st, byKey)
    ensures Digraphs.Edge(KeyGraph(byKey, p), k, l) <==> StepsTo(st, p, k, l)
  {
    hide Indexed, EntryFor, RunsOn, EntryKeys, EntryRecord, DeclaredEdges, SnapshotLeads, KeyGraph;
    KeyEdgeIff(byKey, p, k, l);
    if k in byKey {
      EntryOf(st, byKey, k);
      EntryKey(st, byKey[k]);
      RecordKeysIff(DeclaredEdges(byKey[k], p), l);
      forall n
        ensures Maps(EntryRecord(DeclaredEdges(byKey[k], p)), n, l) <==>
          RunsOn(PackageOf(st.md, byKey[k].snapshot), p)
          && SnapshotLeads(st, p, st.md.snapshots[byKey[k].snapshot], n, EntryEdge(l))
      {
        DeclaredIff(st, byKey, p, k, n, l);
      }
    }
    if StepsTo(st, p, k, l) {
      var s, n :| IsStorePackage(st.md, s) && RunsOn(PackageOf(st.md, s), p)
        && st.md.snapshots[s].virtualStoreName == k && SnapshotLeads(st, p, st.md.snapshots[s], n, EntryEdge(l));
      SameSnapshot(st, byKey, s);
    }
  }

  lemma RecordKeysIff(edges: EdgeSet, l: string)
    ensures l in EntryKeys(edges) <==> exists n :: Maps(EntryRecord(edges), n, l)
  {
    hide EntryKeys, EntryRecord, Maps;
    EntryKeyIff(edges, l);
    forall n ensures Maps(EntryRecord(edges), n, l) <==> Maps(edges, n, EntryEdge(l)) { RecordIff(edges, n, l); }
  }

  /** The entries reached from an importer's direct ones are those of the packages installed for it. */
  lemma InstallsIff(st: Store, byKey: map<string, Entry>, p: Platform, importer: Importer, k: string)
    requires Indexed(st, byKey)
    ensures ReachedFrom(KeyGraph(byKey, p), EntryKeys(ImporterEdgesOf(On(st, p), importer)), k) <==>
      Installs(st, p, importer, k)
  {
    hide Indexed, EntryKeys, ImporterEdgesOf, KeyGraph, StepsTo, DependsOn, Digraphs.Edge;
    var kg, roots := KeyGraph(byKey, p), EntryKeys(ImporterEdgesOf(On(st, p), importer));
    forall x, y ensures Digraphs.Edge(kg, x, y) <==> StepsTo(st, p, x, y) { KeyStepIff(st, byKey, p, x, y); }
    forall r ensures r in roots <==> DependsOn(st, p, importer, r) { ImporterKeysIff(st, p, importer, r); }
    if ReachedFrom(kg, roots, k) {
      var r :| r in roots && Reaches(kg, r, k);
      var chain :| Joins(kg, chain, r, k);
      assert IsChain(st, p, chain);
    }
    if Installs(st, p, importer, k) {
      var chain :| IsChain(st, p, chain) && DependsOn(st, p, importer, chain[0]) && chain[|chain| - 1] == k;
      assert Joins(kg, chain, chain[0], k);
      assert Reaches(kg, chain[0], k);
    }
  }

  // ----- What a view declares -----

  /** A direct dependency of the importer offers the executable; its record is store key, tab and path. */
  ghost predicate Offers(st: Store, sidecar: map<string, Bins>, p: Platform, importer: Importer, b: string,
                         record: string) {
    exists s :: IsStorePackage(st.md, s) && DependsOn(st, p, importer, st.md.snapshots[s].virtualStoreName)
      && st.md.snapshots[s].package in sidecar && b in sidecar[st.md.snapshots[s].package]
      && record == st.md.snapshots[s].virtualStoreName + "\t" + sidecar[st.md.snapshots[s].package][b]
  }

  /** Each executable offered has one owner, which no other offer beats. */
  ghost predicate OwnersDecided(st: Store, sidecar: map<string, Bins>, collate: Collation, p: Platform,
                                importer: Importer, bins: Bins) {
    && (forall b :: b in bins <==> exists record :: Offers(st, sidecar, p, importer, b, record))
    && (forall b | b in bins :: Offers(st, sidecar, p, importer, b, bins[b]))
    && (Orders(collate) ==>
          forall b, record | b in bins && Offers(st, sidecar, p, importer, b, record) ::
            !Beats(collate, b, record, bins[b]))
  }

  ghost predicate NamesTree(st: Store, p: Platform, importer: Importer, n: string, w: string) {
    exists path :: ImporterLeads(st, p, importer, n, WorkspaceEdge(w, path))
  }

  /** What the rule of an importer's view declares on a platform: its dependencies, all it installs, and its owners. */
  ghost predicate DeclaresOn(st: Store, sidecar: map<string, Bins>, collate: Collation, importer: Importer,
                             rule: ViewRule, p: Platform) {
    && p in rule.direct && p in rule.closure && p in rule.bins
    && (forall n, k :: Maps(rule.direct[p], n, k) <==> ImporterLeads(st, p, importer, n, EntryEdge(k)))
    && Sorted(rule.closure[p])
    && (forall k :: k in rule.closure[p] <==> Installs(st, p, importer, k))
    && OwnersDecided(st, sidecar, collate, p, importer, rule.bins[p])
    && (forall n, w :: Maps(rule.workspaceDependencies, n, w) <==> NamesTree(st, p, importer, n, w))
  }

  /** On every platform, and the trees are those of its workspace dependencies. */
  ghost predicate ViewDeclares(st: Store, sidecar: map<string, Bins>, collate: Collation, importer: Importer,
                               rule: ViewRule) {
    && (forall p :: DeclaresOn(st, sidecar, collate, importer, rule, p))
    && (forall w :: w in rule.workspaceTrees <==> exists n :: Maps(rule.workspaceDependencies, n, w))
    && (forall w | w in rule.workspaceTrees :: st.workspaceKey(rule.workspaceTrees[w]) == w)
  }

  lemma {:induction false} RecordsForIs(visits: seq<(string, string)>, b: string, record: string)
    ensures record in RecordsFor(visits, b) <==> (b, record) in visits
  {
    if visits != [] {
      var last := |visits| - 1;
      RecordsForIs(visits[..last], b, record);
      assert visits == visits[..last] + [visits[last]];
    }
  }

  lemma {:induction false} WinnerIsVisited(collate: Collation, b: string, records: seq<string>)
    requires records != []
    ensures Winner(collate, b, records) in records
  {
    if |records| > 1 {
      var last := |records| - 1;
      WinnerIsVisited(collate, b, records[..last]);
      assert records == records[..last] + [records[last]];
    }
  }

  /** An entry has its package's executables, under the package's own store key. */
  lemma EntryBins(st: Store, sidecar: map<string, Bins>, sccOf: map<string, nat>, entries: seq<Entry>,
                  byKey: map<string, Entry>, k: string)
    requires Indexed(st, byKey) && Listed(st.md, sidecar, sccOf, entries, byKey) && k in byKey
    ensures IsStorePackage(st.md, byKey[k].snapshot) && st.md.snapshots[byKey[k].snapshot].virtualStoreName == k
    ensures var package := st.md.snapshots[byKey[k].snapshot].package;
      BinsByKey(byKey)[k] == if package in sidecar then sidecar[package] else map[]
  {
    hide Indexed, EntryFor, SccOf;
    EntryOf(st, byKey, k);
    EntryKey(st, byKey[k]);
    assert byKey[k] in entries;
  }

  /** A direct entry offers the executable. */
  ghost predicate Visited(direct: EdgeSet, binsOf: map<string, Bins>, b: string, record: string) {
    exists k :: k in EntryKeys(direct) && k in binsOf && b in binsOf[k] && record == k + "\t" + binsOf[k][b]
  }

  lemma VisitedIs(direct: EdgeSet, binsOf: map<string, Bins>, b: string, record: string)
    requires BinsKnown(direct, binsOf)
    ensures (b, record) in Visits(direct, binsOf, Listing(direct.Keys)) <==> Visited(direct, binsOf, b, record)
  {
    hide Visits;
    VisitedIff(direct, binsOf, Listing(direct.Keys), b, record);
  }

  /** The records visited for an executable are those offered. */
  lemma OffersIff(st: Store, sidecar: map<string, Bins>, sccOf: map<string, nat>, entries: seq<Entry>,
                  byKey: map<string, Entry>, p: Platform, importer: Importer, b: string, record: string)
    requires Indexed(st, byKey) && Listed(st.md, sidecar, sccOf, entries, byKey)
    ensures Visited(ImporterEdgesOf(On(st, p), importer), BinsByKey(byKey), b, record) <==>
      Offers(st, sidecar, p, importer, b, record)
  {
    hide Indexed, Listed, EntryKeys, ImporterEdgesOf, DependsOn;
    var direct := ImporterEdgesOf(On(st, p), importer);
    forall k ensures k in EntryKeys(direct) <==> DependsOn(st, p, importer, k) { ImporterKeysIff(st, p, importer, k); }
    if Visited(direct, BinsByKey(byKey), b, record) {
      var k :| k in EntryKeys(direct) && k in BinsByKey(byKey) && b in BinsByKey(byKey)[k]
        && record == k + "\t" + BinsByKey(byKey)[k][b];
      EntryBins(st, sidecar, sccOf, entries, byKey, k);
    }
    if Offers(st, sidecar, p, importer, b, record) {
      var s :| IsStorePackage(st.md, s) && DependsOn(st, p, importer, st.md.snapshots[s].virtualStoreName)
        && st.md.snapshots[s].package in sidecar && b in sidecar[st.md.snapshots[s].package]
        && record == st.md.snapshots[s].virtualStoreName + "\t" + sidecar[st.md.snapshots[s].package][b];
      SameSnapshot(st, byKey, s);
      EntryBins(st, sidecar, sccOf, entries, byKey, st.md.snapshots[s].virtualStoreName);
    }
  }

  lemma DecidedOwners(st: Store, sidecar: map<string, Bins>, sccOf: map<string, nat>, entries: seq<Entry>,
                      byKey: map<string, Entry>, collate: Collation, p: Platform, importer: Importer, bins: Bins)
    requires Indexed(st, byKey) && Listed(st.md, sidecar, sccOf, entries, byKey)
    requires BinsKnown(ImporterEdgesOf(On(st, p), importer), BinsByKey(byKey))
    requires var direct := ImporterEdgesOf(On(st, p), importer);
      Decided(collate, bins, Visits(direct, BinsByKey(byKey), Listing(direct.Keys)))
    ensures OwnersDecided(st, sidecar, collate, p, importer, bins)
  {
    hide Indexed, Listed, ImporterEdgesOf, Visits, Visited, Offers, RecordsFor, Winner, Beats, Orders, BinsKnown;
    var direct := ImporterEdgesOf(On(st, p), importer);
    var visits := Visits(direct, BinsByKey(byKey), Listing(direct.Keys));
    forall b, record
      ensures record in RecordsFor(visits, b) <==> Offers(st, sidecar, p, importer, b, record)
    {
      RecordsForIs(visits, b, record);
      VisitedIs(direct, BinsByKey(byKey), b, record);
      OffersIff(st, sidecar, sccOf, entries, byKey, p, importer, b, record);
    }
    forall b | b in bins
      ensures bins[b] in RecordsFor(visits, b)
      ensures Orders(collate) ==> forall r | r in RecordsFor(visits, b) :: !Beats(collate, b, r, bins[b])
    {
      WinnerIsVisited(collate, b, RecordsFor(visits, b));
      if Orders(collate) { WinnerIsMaximal(collate, b, RecordsFor(visits, b)); }
    }
    forall b | RecordsFor(visits, b) != []
      ensures exists record :: record in RecordsFor(visits, b)
    {
      assert RecordsFor(visits, b)[0] in RecordsFor(visits, b);
    }
  }

  /** What a view finds on a platform beyond its records: its closure in order, and the decided executables. */
  lemma VariantRest(st: Store, collate: Collation, byKey: map<string, Entry>, view: View, p: Platform)
    requires ViewFor(st, collate, byKey, view)
    ensures Sorted(Variant(view, p).closure)
    ensures var direct := ImporterEdgesOf(On(st, p), st.md.importers[view.importer]);
      && BinsKnown(direct, BinsByKey(byKey))
      && Decided(collate, Variant(view, p).bins, Visits(direct, BinsByKey(byKey), Listing(direct.Keys)))
  {
    hide WellKeyed, ImporterEdgesOf, KeyGraph, Decided, EdgeIdentity, ImporterResolves, EntryKeys, ReachedFrom, Visits,
         BinsKnown, TreeSeen;
    var found := Find(view.variants, p).value;
    var v :| ViewAt(st, collate, byKey, st.md.importers[view.importer], p, v)
      && IdentityOfView(found) == IdentityOfView(v);
  }

  lemma RuleShows(known: set<string>, view: View, rule: ViewRule, p: Platform)
    requires RenderView(known, view) == Success(rule)
    ensures p in rule.direct && rule.direct[p] == EntryRecord(Variant(view, p).direct)
    ensures p in rule.closure && rule.closure[p] == Variant(view, p).closure
    ensures p in rule.bins && rule.bins[p] == Variant(view, p).bins
    ensures rule.workspaceDependencies == WorkspaceRecord(Variant(view, p).direct)
    ensures rule.workspaceTrees == view.workspaceTrees
  {
    hide EntryRecord, WorkspaceRecord, Variant, HasVariant, ClosureKnown;
    EveryPlatform(p);
    var record := p => WorkspaceRecord(Variant(view, p).direct);
    assert record(p) == record(PLATFORMS[0]);
  }

  lemma TreeRecordIff(edges: EdgeSet, n: string, w: string)
    ensures Maps(WorkspaceRecord(edges), n, w) <==> exists path :: Maps(edges, n, WorkspaceEdge(w, path))
  {
    if Maps(WorkspaceRecord(edges), n, w) { assert Maps(edges, n, WorkspaceEdge(w, edges[n].workspacePath)); }
  }

  lemma TreeKeysIff(edges: EdgeSet, w: string)
    ensures w in WorkspaceKeys(edges) <==> exists n :: Maps(WorkspaceRecord(edges), n, w)
  {
    if w in WorkspaceKeys(edges) {
      var n :| n in edges && edges[n].WorkspaceEdge? && edges[n].workspaceKey == w;
      assert Maps(WorkspaceRecord(edges), n, w);
    }
    if n :| Maps(WorkspaceRecord(edges), n, w) {
      assert n in edges && edges[n].WorkspaceEdge? && edges[n].workspaceKey == w;
    }
  }

  lemma NamesTreeIff(st: Store, p: Platform, importer: Importer, n: string, w: string)
    ensures Maps(WorkspaceRecord(ImporterEdgesOf(On(st, p), importer)), n, w) <==> NamesTree(st, p, importer, n, w)
  {
    hide ImporterEdgesOf, ImporterLeads, WorkspaceRecord, Maps;
    TreeRecordIff(ImporterEdgesOf(On(st, p), importer), n, w);
    forall path
      ensures Maps(ImporterEdgesOf(On(st, p), importer), n, WorkspaceEdge(w, path))
          <==> ImporterLeads(st, p, importer, n, WorkspaceEdge(w, path))
    {
      ImporterLeadsIff(st, p, importer, n, WorkspaceEdge(w, path));
    }
  }

  /** Where no entry leads to a workspace, the trees seen are the importer's own. */
  lemma OwnTrees(st: Store, byKey: map<string, Entry>, importer: Importer, p: Platform, w: string)
    requires Indexed(st, byKey) && StoreHasNoWorkspaces(st)
    ensures TreeSeen(st, byKey, importer, p, w) <==> w in WorkspaceKeys(ImporterEdgesOf(On(st, p), importer))
  {
    hide Indexed, ImporterEdgesOf, DeclaredEdges, ReachedFrom, KeyGraph, StoreHasNoWorkspaces;
    AllDeclaredWorkspaces(st, byKey);
    forall k | k in byKey
      ensures !LeadsToTree(byKey, p, k, w)
    {
      assert NoWorkspaces(DeclaredEdges(byKey[k], p));
    }
  }

  lemma ShownOn(md: Lock, sidecar: map<string, Bins>, collate: Collation, pr: Projection, ev: Evidence, view: View,
                known: set<string>, rule: ViewRule, p: Platform)
    requires IsProjection(md, sidecar, collate, pr, ev) && StoreHasNoWorkspaces(ev.store)
    requires ViewFor(ev.store, collate, ev.byKey, view) && RenderView(known, view) == Success(rule)
    ensures DeclaresOn(ev.store, sidecar, collate, ev.store.md.importers[view.importer], rule, p)
    ensures forall w :: TreeSeen(ev.store, ev.byKey, ev.store.md.importers[view.importer], p, w) <==>
      exists n :: Maps(rule.workspaceDependencies, n, w)
    ensures rule.workspaceTrees == view.workspaceTrees
  {
    hide IsUnionGraph, IsCompanions, KeysDistinct, Indexed, ViewFor, NumbersOf, Listed, StoreSccs.Lists,
         StoreSccs.CycleClasses, RenderView, ImporterEdgesOf, EntryRecord, WorkspaceRecord, KeyGraph, EntryKeys,
         ReachedFrom, Installs, ImporterLeads, OwnersDecided, Maps, NamesTree, Decided, Visits, BinsKnown, Variant,
         HasVariant, StoreHasNoWorkspaces, TreeSeen, WorkspaceKeys, WellKeyed, Present;
    var st := ev.store;
    ViewImporter(st, collate, ev.byKey, view);
    var importer := st.md.importers[view.importer];
    RuleShows(known, view, rule, p);
    VariantIs(st, collate, ev.byKey, view, p);
    VariantRest(st, collate, ev.byKey, view, p);
    DecidedOwners(st, sidecar, ev.sccOf, pr.entries, ev.byKey, collate, p, importer, rule.bins[p]);
    var edges := ImporterEdgesOf(On(st, p), importer);
    forall n, k
      ensures Maps(rule.direct[p], n, k) <==> ImporterLeads(st, p, importer, n, EntryEdge(k))
    {
      RecordIff(edges, n, k);
      ImporterLeadsIff(st, p, importer, n, EntryEdge(k));
    }
    forall k ensures k in rule.closure[p] <==> Installs(st, p, importer, k) {
      InstallsIff(st, ev.byKey, p, importer, k);
    }
    forall n, w ensures Maps(rule.workspaceDependencies, n, w) <==> NamesTree(st, p, importer, n, w) {
      NamesTreeIff(st, p, importer, n, w);
    }
    forall w
      ensures TreeSeen(st, ev.byKey, importer, p, w) <==> exists n :: Maps(rule.workspaceDependencies, n, w)
    {
      OwnTrees(st, ev.byKey, importer, p, w);
      TreeKeysIff(edges, w);
    }
  }

  /** The rule rendered for a view declares what the importer has on every platform. */
  lemma ViewIsDeclared(md: Lock, sidecar: map<string, Bins>, collate: Collation, pr: Projection, ev: Evidence,
                       view: View, known: set<string>, rule: ViewRule)
    requires IsProjection(md, sidecar, collate, pr, ev) && StoreHasNoWorkspaces(ev.store)
    requires ViewFor(ev.store, collate, ev.byKey, view) && RenderView(known, view) == Success(rule)
    ensures ViewDeclares(ev.store, sidecar, collate, ev.store.md.importers[view.importer], rule)
  {
    hide IsProjection, ViewFor, RenderView, StoreHasNoWorkspaces, TreeSeen, DeclaresOn, Maps;
    ViewImporter(ev.store, collate, ev.byKey, view);
    var importer := ev.store.md.importers[view.importer];
    forall p ensures DeclaresOn(ev.store, sidecar, collate, importer, rule, p) {
      ShownOn(md, sidecar, collate, pr, ev, view, known, rule, p);
    }
    forall p, w
      ensures TreeSeen(ev.store, ev.byKey, importer, p, w) <==> exists n :: Maps(rule.workspaceDependencies, n, w)
    {
      ShownOn(md, sidecar, collate, pr, ev, view, known, rule, p);
    }
    ShownOn(md, sidecar, collate, pr, ev, view, known, rule, JavascriptPortable);
    TreesDeclared(ev.store, collate, ev.byKey, view, rule);
  }

  lemma ViewImporter(st: Store, collate: Collation, byKey: map<string, Entry>, view: View)
    requires ViewFor(st, collate, byKey, view)
    ensures view.importer in st.md.importers
  {
  }

  lemma TreesDeclared(st: Store, collate: Collation, byKey: map<string, Entry>, view: View, rule: ViewRule)
    requires ViewFor(st, collate, byKey, view) && rule.workspaceTrees == view.workspaceTrees
    requires forall p, w :: TreeSeen(st, byKey, st.md.importers[view.importer], p, w) <==>
      exists n :: Maps(rule.workspaceDependencies, n, w)
    ensures forall w :: w in rule.workspaceTrees <==> exists n :: Maps(rule.workspaceDependencies, n, w)
    ensures forall w | w in rule.workspaceTrees :: st.workspaceKey(rule.workspaceTrees[w]) == w
  {
    hide TreeSeen, Matches;
    forall w
      ensures w in rule.workspaceTrees <==> exists n :: Maps(rule.workspaceDependencies, n, w)
    {
      assert w in view.workspaceTrees <==>
        exists p :: TreeSeen(st, byKey, st.md.importers[view.importer], p, w);
      assert TreeSeen(st, byKey, st.md.importers[view.importer], JavascriptPortable, w) <==>
        exists n :: Maps(rule.workspaceDependencies, n, w);
    }
  }

  // ----- What an entry and its component declare -----

  ghost predicate PlainDeclares(st: Store, s: string, dependencies: map<Platform, map<string, string>>)
    requires IsStorePackage(st.md, s)
  {
    forall p: Platform :: p in dependencies && forall n, l ::
      Maps(dependencies[p], n, l) <==>
        RunsOn(PackageOf(st.md, s), p) && SnapshotLeads(st, p, st.md.snapshots[s], n, EntryEdge(l))
  }

  /** The package with this store key lies on a cycle with the snapshot. */
  ghost predicate SharesCycle(st: Store, g: Graph<string>, s: string, l: string) {
    exists t :: IsStorePackage(st.md, t) && st.md.snapshots[t].virtualStoreName == l && Mutual(g, s, t)
  }

  /** A link among a cycle's packages is internal, any other external. */
  ghost predicate LinkDeclared(st: Store, g: Graph<string>, s: string, rule: SccRule, p: Platform, n: string, l: string)
    requires IsStorePackage(st.md, s)
  {
    var port := Port(st.md.snapshots[s].virtualStoreName, n);
    var leads := RunsOn(PackageOf(st.md, s), p) && SnapshotLeads(st, p, st.md.snapshots[s], n, EntryEdge(l));
    && p in rule.internal && (Maps(rule.internal[p], port, l) <==> leads && SharesCycle(st, g, s, l))
    && p in rule.external && (Maps(rule.external[p], port, l) <==> leads && !SharesCycle(st, g, s, l))
  }

  ghost predicate MemberDeclares(st: Store, g: Graph<string>, s: string, rule: SccRule)
    requires IsStorePackage(st.md, s)
  {
    forall p, n, l :: LinkDeclared(st, g, s, rule, p, n, l)
  }

  /** The snapshot's entry is declared with the dependencies it has, or as a member of the component that has them. */
  ghost predicate EntryDeclares(st: Store, g: Graph<string>, d: Declarations, s: string, i: nat)
    requires IsStorePackage(st.md, s)
  {
    && i < |d.entries| && d.entries[i].name == st.md.snapshots[s].virtualStoreName
    && match d.entries[i].rule
       case Plain(dependencies) => !StoreSccs.OnCycle(g, s) && PlainDeclares(st, s, dependencies)
       case Member(c) => StoreSccs.OnCycle(g, s) && c < |d.sccs| && MemberDeclares(st, g, s, d.sccs[c])
  }

  lemma {:induction false} PortNamed(byKey: map<string, Entry>, members: seq<string>, inside: bool, done: seq<string>,
                                     p: Platform, port: Port)
    requires port in PortsOf(byKey, members, inside, done, p)
    ensures port.member in byKey
    ensures Maps(EntryRecord(DeclaredEdges(byKey[port.member], p)), port.name,
                 PortsOf(byKey, members, inside, done, p)[port])
  {
    hide DeclaredEdges;
    var n := |done| - 1;
    if done[n] !in byKey || port !in MemberPorts(members, inside, done[n], DeclaredEdges(byKey[done[n]], p)) {
      PortNamed(byKey, members, inside, done[..n], p, port);
    }
  }

  /** A component's ports are the entry edges of its members, on the side their targets are on. */
  lemma PortIff(byKey: map<string, Entry>, members: seq<string>, inside: bool, p: Platform, k: string, n: string,
                l: string)
    requires k in members && k in byKey
    ensures Maps(PortsOf(byKey, members, inside, members, p), Port(k, n), l) <==>
      Maps(EntryRecord(DeclaredEdges(byKey[k], p)), n, l) && (l in members <==> inside)
  {
    hide DeclaredEdges, PortsOf;
    if Port(k, n) in PortsOf(byKey, members, inside, members, p) {
      PortNamed(byKey, members, inside, members, p, Port(k, n));
      PortLeaves(byKey, members, inside, members, p, Port(k, n));
    }
    if Maps(EntryRecord(DeclaredEdges(byKey[k], p)), n, l) && (l in members <==> inside) {
      PortKept(byKey, members, inside, members, p, k, n);
    }
  }

  /** A component lists the store keys of the packages on a cycle with any of its members. */
  lemma MembersShareCycle(md: Lock, sidecar: map<string, Bins>, collate: Collation, pr: Projection, ev: Evidence,
                          k: string, i: nat, l: string)
    requires IsProjection(md, sidecar, collate, pr, ev) && i < |pr.sccs| && k in pr.sccs[i]
    ensures k in ev.byKey
    ensures l in pr.sccs[i] <==> SharesCycle(ev.store, ev.graph, ev.byKey[k].snapshot, l)
  {
    hide IsUnionGraph, IsCompanions, KeysDistinct, Indexed, ViewFor, EntryFor, Listed, NumbersOf, StoreSccs.Lists,
         StoreSccs.OnCycle, Mutual;
    MemberEntry(md, sidecar, collate, pr, ev, i, k);
    var s := ev.byKey[k].snapshot;
    assert IsClass(ev.graph, ev.classes[i]);
    if l in pr.sccs[i] {
      MemberEntry(md, sidecar, collate, pr, ev, i, l);
      EntryOf(ev.store, ev.byKey, l);
      EntryKey(ev.store, ev.byKey[l]);
      InOneClass(ev.graph, ev.classes[i], s, ev.byKey[l].snapshot);
    }
    if SharesCycle(ev.store, ev.graph, s, l) {
      var t :| IsStorePackage(ev.store.md, t) && ev.store.md.snapshots[t].virtualStoreName == l
        && Mutual(ev.graph, s, t);
      SameSnapshot(ev.store, ev.byKey, t);
      ClassMember(md, sidecar, collate, pr, ev, i, l);
    }
  }

  lemma MemberIsDeclared(md: Lock, sidecar: map<string, Bins>, collate: Collation, pr: Projection, ev: Evidence,
                         k: string, i: nat, rule: SccRule)
    requires IsProjection(md, sidecar, collate, pr, ev) && i < |pr.sccs| && k in pr.sccs[i]
    requires SccRendered(ev.byKey, pr.sccs[i], rule) && k in ev.byKey
    requires IsStorePackage(ev.store.md, ev.byKey[k].snapshot)
    requires ev.store.md.snapshots[ev.byKey[k].snapshot].virtualStoreName == k
    ensures MemberDeclares(ev.store, ev.graph, ev.byKey[k].snapshot, rule)
  {
    hide IsUnionGraph, IsCompanions, KeysDistinct, Indexed, ViewFor, EntryFor, Listed, NumbersOf, StoreSccs.Lists,
         StoreSccs.CycleClasses, SharesCycle, SnapshotLeads, RunsOn, PortsOf, DeclaredEdges, EntryRecord, Maps;
    forall p, n, l
      ensures LinkDeclared(ev.store, ev.graph, ev.byKey[k].snapshot, rule, p, n, l)
    {
      MembersShareCycle(md, sidecar, collate, pr, ev, k, i, l);
      DeclaredIff(ev.store, ev.byKey, p, k, n, l);
      PortIff(ev.byKey, pr.sccs[i], true, p, k, n, l);
      PortIff(ev.byKey, pr.sccs[i], false, p, k, n, l);
    }
  }

  lemma PlainIsDeclared(st: Store, byKey: map<string, Entry>, k: string,
                        dependencies: map<Platform, map<string, string>>)
    requires Indexed(st, byKey) && k in byKey && IsStorePackage(st.md, byKey[k].snapshot)
    requires forall p: Platform :: p in dependencies && dependencies[p] == EntryRecord(DeclaredEdges(byKey[k], p))
    ensures PlainDeclares(st, byKey[k].snapshot, dependencies)
  {
    hide Indexed, SnapshotLeads, RunsOn, DeclaredEdges, EntryRecord, Maps;
    forall p: Platform, n, l
      ensures p in dependencies
      ensures Maps(dependencies[p], n, l) <==>
        RunsOn(PackageOf(st.md, byKey[k].snapshot), p)
        && SnapshotLeads(st, p, st.md.snapshots[byKey[k].snapshot], n, EntryEdge(l))
    {
      DeclaredIff(st, byKey, p, k, n, l);
    }
  }

  /** Every store snapshot's entry is declared with exactly the dependencies the lockfile gives it. */
  lemma EntryIsDeclared(md: Lock, sidecar: map<string, Bins>, collate: Collation, pr: Projection, ev: Evidence,
                        grafted: set<string>, d: Declarations, s: string)
    requires IsProjection(md, sidecar, collate, pr, ev) && Rendered(pr, grafted, ev.byKey, d)
    requires IsStorePackage(ev.store.md, s)
    ensures exists i: nat :: EntryDeclares(ev.store, ev.graph, d, s, i)
  {
    hide IsUnionGraph, IsCompanions, KeysDistinct, Indexed, ViewFor, NumbersOf, BinsOf, SccOf, StoreSccs.Lists,
         StoreSccs.CycleClasses, StoreSccs.OnCycle, RenderEntry, RenderView, SccRendered, PlainDeclares,
         MemberDeclares, EntryRecord, DeclaredEdges, EntryFor;
    SameSnapshot(ev.store, ev.byKey, s);
    var k := ev.store.md.snapshots[s].virtualStoreName;
    EntryOf(ev.store, ev.byKey, k);
    EntryDeclared(pr, grafted, ev.byKey, d, k);
    var i: nat :| IsRuleOf(d, i, k, RenderEntry(ev.byKey.Keys, |pr.sccs|, grafted, ev.byKey[k]));
    NumberedIffOnCycle(md, sidecar, collate, pr, ev, k);
    forall p: Platform {
      RuleIs(ev.byKey.Keys, |pr.sccs|, grafted, ev.byKey[k], d.entries[i].rule, p);
    }
    if ev.byKey[k].sccIndex.Some? {
      RuleIs(ev.byKey.Keys, |pr.sccs|, grafted, ev.byKey[k], d.entries[i].rule, JavascriptPortable);
      var c := ev.byKey[k].sccIndex.value;
      MemberIsDeclared(md, sidecar, collate, pr, ev, k, c, d.sccs[c]);
    } else {
      RuleIs(ev.byKey.Keys, |pr.sccs|, grafted, ev.byKey[k], d.entries[i].rule, JavascriptPortable);
      PlainIsDeclared(ev.store, ev.byKey, k, d.entries[i].rule.dependencies);
    }
    assert EntryDeclares(ev.store, ev.graph, d, s, i);
  }

  // ----- From lockfile to declarations -----

  ghost predicate HasEntry(d: Declarations, name: string, rule: EntryRule) {
    exists i :: 0 <= i < |d.entries| && d.entries[i] == Declared(name, rule)
  }

  ghost predicate IsStoreKey(md: Lock, k: string) {
    exists s :: IsStorePackage(md, s) && md.snapshots[s].virtualStoreName == k
  }

  /** A component holds links of its own members only. */
  ghost predicate LinksOwned(d: Declarations, c: nat, p: Platform) {
    && c < |d.sccs| && p in d.sccs[c].internal && p in d.sccs[c].external
    && forall port | port in d.sccs[c].internal[p] || port in d.sccs[c].external[p] ::
         HasEntry(d, port.member, Member(c))
  }

  /** One entry for each store snapshot and one view for each importer, declaring what the lockfile says of them. */
  ghost predicate Declares(st: Store, g: Graph<string>, sidecar: map<string, Bins>, collate: Collation,
                           d: Declarations) {
    && (forall s | IsStorePackage(st.md, s) :: exists i: nat :: EntryDeclares(st, g, d, s, i))
    && (forall i | 0 <= i < |d.entries| :: IsStoreKey(st.md, d.entries[i].name))
    && (forall i, j | 0 <= i < j < |d.entries| :: d.entries[i].name != d.entries[j].name)
    && (forall c: nat, p | c < |d.sccs| :: LinksOwned(d, c, p))
    && (forall name | name in st.md.importers :: exists i :: 0 <= i < |d.views| && d.views[i].name == name)
    && (forall i | 0 <= i < |d.views| :: d.views[i].name in st.md.importers
          && ViewDeclares(st, sidecar, collate, st.md.importers[d.views[i].name], d.views[i].rule))
    && (forall i, j | 0 <= i < j < |d.views| :: d.views[i].name != d.views[j].name)
  }

  lemma EntryNames(md: Lock, sidecar: map<string, Bins>, collate: Collation, pr: Projection, ev: Evidence,
                   grafted: set<string>, d: Declarations)
    requires IsProjection(md, sidecar, collate, pr, ev) && Rendered(pr, grafted, ev.byKey, d)
    ensures forall i | 0 <= i < |d.entries| :: IsStoreKey(md, d.entries[i].name)
    ensures forall i, j | 0 <= i < j < |d.entries| :: d.entries[i].name != d.entries[j].name
  {
    hide IsUnionGraph, IsCompanions, KeysDistinct, Indexed, ViewFor, NumbersOf, BinsOf, SccOf, StoreSccs.Lists,
         StoreSccs.CycleClasses, RenderEntry, RenderView, SccRendered, EntryFor;
    forall i | 0 <= i < |pr.entries|
      ensures pr.entries[i].storeKey in ev.byKey && ev.byKey[pr.entries[i].storeKey] == pr.entries[i]
      ensures IsStorePackage(md, pr.entries[i].snapshot)
      ensures md.snapshots[pr.entries[i].snapshot].virtualStoreName == d.entries[i].name
    {
      assert pr.entries[i] in pr.entries;
      EntryOf(ev.store, ev.byKey, pr.entries[i].storeKey);
      EntryKey(ev.store, pr.entries[i]);
    }
    forall i | 0 <= i < |d.entries| ensures IsStoreKey(md, d.entries[i].name) {
      assert IsStorePackage(md, pr.entries[i].snapshot);
    }
    forall i, j | 0 <= i < j < |d.entries| ensures d.entries[i].name != d.entries[j].name {
      BeforeIrreflexive(pr.entries[i].snapshot);
    }
  }

  lemma MemberIsRuled(md: Lock, sidecar: map<string, Bins>, collate: Collation, pr: Projection, ev: Evidence,
                      grafted: set<string>, d: Declarations, c: nat, m: string)
    requires IsProjection(md, sidecar, collate, pr, ev) && Rendered(pr, grafted, ev.byKey, d)
    requires c < |pr.sccs| && m in pr.sccs[c]
    ensures HasEntry(d, m, Member(c))
  {
    hide IsUnionGraph, IsCompanions, KeysDistinct, Indexed, ViewFor, NumbersOf, BinsOf, SccOf, StoreSccs.Lists,
         StoreSccs.CycleClasses, RenderEntry, RenderView, SccRendered, EntryFor;
    MemberEntry(md, sidecar, collate, pr, ev, c, m);
    EntryOf(ev.store, ev.byKey, m);
    EntryDeclared(pr, grafted, ev.byKey, d, m);
    var i: nat :| IsRuleOf(d, i, m, RenderEntry(ev.byKey.Keys, |pr.sccs|, grafted, ev.byKey[m]));
    RuleIs(ev.byKey.Keys, |pr.sccs|, grafted, ev.byKey[m], d.entries[i].rule, JavascriptPortable);
    assert d.entries[i] == Declared(m, Member(c));
  }

  lemma LinksAreOwned(md: Lock, sidecar: map<string, Bins>, collate: Collation, pr: Projection, ev: Evidence,
                      grafted: set<string>, d: Declarations, c: nat, p: Platform)
    requires IsProjection(md, sidecar, collate, pr, ev) && Rendered(pr, grafted, ev.byKey, d) && c < |d.sccs|
    ensures LinksOwned(d, c, p)
  {
    hide IsProjection, RenderEntry, RenderView, HasEntry, PortsOf;
    assert SccRendered(ev.byKey, pr.sccs[c], d.sccs[c]);
    forall port | port in d.sccs[c].internal[p] || port in d.sccs[c].external[p]
      ensures HasEntry(d, port.member, Member(c))
    {
      PortLeaves(ev.byKey, pr.sccs[c], port in d.sccs[c].internal[p], pr.sccs[c], p, port);
      MemberIsRuled(md, sidecar, collate, pr, ev, grafted, d, c, port.member);
    }
  }

  lemma ViewsAreDeclared(md: Lock, sidecar: map<string, Bins>, collate: Collation, pr: Projection, ev: Evidence,
                         grafted: set<string>, d: Declarations)
    requires IsProjection(md, sidecar, collate, pr, ev) && Rendered(pr, grafted, ev.byKey, d)
    requires StoreHasNoWorkspaces(ev.store)
    ensures forall name | name in md.importers :: exists i :: 0 <= i < |d.views| && d.views[i].name == name
    ensures forall i | 0 <= i < |d.views| ::
      d.views[i].name in ev.store.md.importers
      && ViewDeclares(ev.store, sidecar, collate, ev.store.md.importers[d.views[i].name], d.views[i].rule)
    ensures forall i, j | 0 <= i < j < |d.views| :: d.views[i].name != d.views[j].name
  {
    hide IsUnionGraph, IsCompanions, KeysDistinct, Indexed, ViewFor, NumbersOf, Listed, StoreSccs.Lists,
         StoreSccs.CycleClasses, RenderEntry, RenderView, SccRendered, ViewDeclares, StoreHasNoWorkspaces;
    forall i | 0 <= i < |d.views|
      ensures d.views[i].name in ev.store.md.importers
        && ViewDeclares(ev.store, sidecar, collate, ev.store.md.importers[d.views[i].name], d.views[i].rule)
    {
      ViewImporter(ev.store, collate, ev.byKey, pr.views[i]);
      ViewIsDeclared(md, sidecar, collate, pr, ev, pr.views[i], ev.byKey.Keys, d.views[i].rule);
    }
    forall i, j | 0 <= i < j < |d.views| ensures d.views[i].name != d.views[j].name {
      BeforeIrreflexive(pr.views[i].importer);
    }
    forall name | name in md.importers
      ensures exists i :: 0 <= i < |d.views| && d.views[i].name == name
    {
      var i :| 0 <= i < |pr.views| && pr.views[i].importer == name;
      assert d.views[i].name == name;
    }
  }

  /** The declarations of a renderable projection declare the lockfile. */
  lemma RenderedDeclares(md: Lock, sidecar: map<string, Bins>, collate: Collation, pr: Projection, ev: Evidence,
                         grafted: set<string>, d: Declarations)
    requires IsProjection(md, sidecar, collate, pr, ev) && Rendered(pr, grafted, ev.byKey, d)
    requires StoreHasNoWorkspaces(ev.store)
    ensures Declares(ev.store, ev.graph, sidecar, collate, d)
  {
    hide Rendered, StoreHasNoWorkspaces, EntryDeclares, LinksOwned, ViewDeclares, IsStoreKey, IsUnionGraph,
         IsCompanions, KeysDistinct, Indexed, ViewFor, NumbersOf, Listed, StoreSccs.Lists, StoreSccs.CycleClasses;
    forall s | IsStorePackage(ev.store.md, s)
      ensures exists i: nat :: EntryDeclares(ev.store, ev.graph, d, s, i)
    {
      EntryIsDeclared(md, sidecar, collate, pr, ev, grafted, d, s);
    }
    EntryNames(md, sidecar, collate, pr, ev, grafted, d);
    forall c: nat, p | c < |d.sccs| ensures LinksOwned(d, c, p) {
      LinksAreOwned(md, sidecar, collate, pr, ev, grafted, d, c, p);
    }
    ViewsAreDeclared(md, sidecar, collate, pr, ev, grafted, d);
  }

  /** A view depends on an entry on a platform if and only if the package is installed for its importer there. */
  lemma ViewNeedsIff(st: Store, g: Graph<string>, sidecar: map<string, Bins>, collate: Collation, d: Declarations,
                     p: Platform, name: string, k: string)
    requires Declares(st, g, sidecar, collate, d)
    ensures Needs(d, p, ViewTarget(name), EntryTarget(k)) <==>
      name in st.md.importers && Installs(st, p, st.md.importers[name], k)
  {
    hide EntryDeclares, LinksOwned, Installs, OwnersDecided, Maps, NamesTree;
    forall i | 0 <= i < |d.views| && d.views[i].name == name
      ensures name in st.md.importers && DeclaresOn(st, sidecar, collate, st.md.importers[name], d.views[i].rule, p)
    {
      assert ViewDeclares(st, sidecar, collate, st.md.importers[d.views[i].name], d.views[i].rule);
    }
    if name in st.md.importers {
      var i :| 0 <= i < |d.views| && d.views[i].name == name;
    }
  }

  ghost predicate Acyclic(d: Declarations) {
    forall p, run: seq<Target> | |run| >= 2 && IsRun(d, p, run) :: run[0] != run[|run| - 1]
  }

  ghost predicate Dangling(d: Declarations) {
    exists p, a, b :: Needs(d, p, a, b) && !IsDeclared(d, b)
  }

  datatype CompileFailure = ProjectionFails(projection: Failure) | RenderingFails(rendering: BuckFailure)

  /**
   * Projects and renders a lockfile: the declarations are acyclic and complete on every platform, and declare exactly
   * what the lockfile says of its snapshots and importers.
   */
  method CompileStore(md: Lock, workspaceKey: string -> string, collate: Collation, sidecar: map<string, Bins>,
                      grafted: set<string>)
    returns (r: Result<Declarations, CompileFailure>, ghost pr: Projection, ghost ev: Evidence)
    ensures r.Success? <==> Projectable(md, workspaceKey) && Renderable(ev.store, ev.graph, grafted)
    ensures Projectable(md, workspaceKey) ==>
      ev.store.md == md && ev.store.workspaceKey == workspaceKey && IsUnionGraph(md, ev.store.companions, ev.graph)
    ensures r.Success? ==> IsProjection(md, sidecar, collate, pr, ev) && Rendered(pr, grafted, ev.byKey, r.value)
    ensures r.Success? ==> Acyclic(r.value) && !Dangling(r.value)
    ensures r.Success? ==> Declares(ev.store, ev.graph, sidecar, collate, r.value)
    ensures r.Success? ==> forall name, p, k | name in md.importers ::
      Needs(r.value, p, ViewTarget(name), EntryTarget(k)) <==> Installs(ev.store, p, md.importers[name], k)
  {
    hide IsProjection, Projectable, Renderable, Renders, Rendered, EntryIndex, Needs, IsDeclared, IsRun, Declares,
         Installs, StoreHasNoWorkspaces;
    pr := Projection([], [], []);
    var projection;
    projection, ev := MakePnpmStoreProjection(md, workspaceKey, collate, sidecar);
    if projection.Failure? {
      r := Result.Failure(ProjectionFails(projection.error));
      return;
    }
    var found := projection.value;
    pr := found;
    ProjectionGraph(md, sidecar, collate, pr, ev);
    RendersIff(md, sidecar, collate, pr, ev, grafted);
    var rendered := RenderPnpmStoreBuck(found, grafted);
    if rendered.Failure? {
      r := Result.Failure(RenderingFails(rendered.error));
      return;
    }
    forall p, run: seq<Target> | |run| >= 2 && IsRun(rendered.value, p, run)
      ensures run[0] != run[|run| - 1]
    {
      TargetsAreAcyclic(md, sidecar, collate, pr, ev, grafted, rendered.value, p, run);
    }
    forall p, a, b | Needs(rendered.value, p, a, b)
      ensures IsDeclared(rendered.value, b)
    {
      NothingDangles(md, sidecar, collate, pr, ev, grafted, rendered.value, p, a, b);
    }
    NoWorkspacesIn(ev.store, ev.graph, grafted);
    RenderedDeclares(md, sidecar, collate, pr, ev, grafted, rendered.value);
    forall name, p, k | name in md.importers
      ensures Needs(rendered.value, p, ViewTarget(name), EntryTarget(k)) <==>
        Installs(ev.store, p, md.importers[name], k)
    {
      ViewNeedsIff(ev.store, ev.graph, sidecar, collate, rendered.value, p, name, k);
    }
    r := Success(rendered.value);
  }

  lemma NoWorkspacesIn(st: Store, g: Graph<string>, grafted: set<string>)
    requires Renderable(st, g, grafted)
    ensures StoreHasNoWorkspaces(st)
  {
  }

  lemma ProjectionGraph(md: Lock, sidecar: map<string, Bins>, collate: Collation, pr: Projection, ev: Evidence)
    requires IsProjection(md, sidecar, collate, pr, ev)
    ensures ev.store.md == md && IsUnionGraph(md, ev.store.companions, ev.graph)
  {
    hide IsUnionGraph, IsCompanions, KeysDistinct, Indexed, ViewFor, NumbersOf, Listed, StoreSccs.Lists,
         StoreSccs.CycleClasses;
  }
}
