/** The normalized store: entries, components and importer views. */
module StoreProjection {
  import opened Common
  import opened Metadata
  import opened Digraphs
  import opened StoreEdges
  import opened PlatformGroups
  import opened RootBins
  import Tarjan

  // ----- Identities -----

  datatype EdgeId = EntryId(storeKey: string) | WorkspaceId(workspaceKey: string)

  function IdOf(edge: Edge): EdgeId {
    match edge
    case EntryEdge(storeKey) => EntryId(storeKey)
    case WorkspaceEdge(workspaceKey, _) => WorkspaceId(workspaceKey)
  }

  /** What two edge selections must share to be grouped: name, kind and key of every edge. */
  function EdgeIdentity(edges: EdgeSet): map<string, EdgeId> {
    map n | n in edges :: IdOf(edges[n])
  }

  /** The store keys an edge selection leads to. */
  function EntryKeys(edges: EdgeSet): set<string> {
    set n | n in edges && edges[n].EntryEdge? :: edges[n].storeKey
  }

  function WorkspaceKeys(edges: EdgeSet): set<string> {
    set n | n in edges && edges[n].WorkspaceEdge? :: edges[n].workspaceKey
  }

  lemma SameIdentitySameKeys(a: EdgeSet, b: EdgeSet)
    requires EdgeIdentity(a) == EdgeIdentity(b)
    ensures a.Keys == b.Keys && EntryKeys(a) == EntryKeys(b) && WorkspaceKeys(a) == WorkspaceKeys(b)
  {
    assert a.Keys == EdgeIdentity(a).Keys == EdgeIdentity(b).Keys == b.Keys;
    forall n | n in a
      ensures IdOf(a[n]) == IdOf(b[n])
    {
      assert EdgeIdentity(a)[n] == EdgeIdentity(b)[n];
    }
  }

  /** The lockfile, the repository's key for a workspace path, and the resolved type companions. */
  datatype Store = Store(md: Lock, workspaceKey: string -> string, companions: map<string, string>)

  // ----- Entries -----

  datatype Entry = Entry(
    bins: Bins,
    packageKey: string,
    packageName: string,
    platforms: seq<Platform>,
    sccIndex: Option<nat>,
    snapshot: string,
    storeKey: string,
    variants: seq<Group<EdgeSet>>)

  function Admitted(p: Package, platforms: seq<Platform>): seq<Platform> {
    if platforms == [] then []
    else (if PackageAllowed(p, platforms[0]) then [platforms[0]] else []) + Admitted(p, platforms[1..])
  }

  lemma {:induction false} AdmittedAmong(p: Package, platforms: seq<Platform>, platform: Platform)
    requires NoRepeats(platforms)
    ensures platform in Admitted(p, platforms) <==> platform in platforms && PackageAllowed(p, platform)
    ensures NoRepeats(Admitted(p, platforms))
  {
    hide PackageAllowed;
    if platforms != [] {
      AdmittedAmong(p, platforms[1..], platform);
      AdmittedAmong(p, platforms[1..], platforms[0]);
      assert platforms == [platforms[0]] + platforms[1..];
    }
  }

  lemma EveryPlatform(platform: Platform)
    ensures platform in PLATFORMS && NoRepeats(PLATFORMS)
  {
    assert PLATFORMS[0] == JavascriptPortable && PLATFORMS[1] == LinuxAarch64;
    assert PLATFORMS[2] == LinuxX86_64 && PLATFORMS[3] == MacosAarch64;
  }

  lemma AdmittedIff(p: Package, platform: Platform)
    ensures platform in Admitted(p, PLATFORMS) <==> PackageAllowed(p, platform)
    ensures NoRepeats(Admitted(p, PLATFORMS))
  {
    EveryPlatform(platform);
    AdmittedAmong(p, PLATFORMS, platform);
  }

  /** The edges a store snapshot has on one platform. */
  ghost function EdgesAt(st: Store, key: string, p: Platform): EdgeSet
    requires key in st.md.snapshots
  {
    SnapshotEdgesOf(Config(st.md, p, st.workspaceKey), st.companions, st.md.snapshots[key])
  }

  ghost predicate ResolvesAt(st: Store, key: string, p: Platform)
    requires key in st.md.snapshots
  {
    SnapshotResolves(Config(st.md, p, st.workspaceKey), st.companions, st.md.snapshots[key])
  }

  /** One entry describes one store snapshot: its platforms and, on each of them, its edges. */
  ghost predicate EntryFor(st: Store, e: Entry) {
    && IsStorePackage(st.md, e.snapshot)
    && e.storeKey == st.md.snapshots[e.snapshot].virtualStoreName
    && e.packageKey == st.md.snapshots[e.snapshot].package
    && e.packageName == PackageOf(st.md, e.snapshot).name
    && e.platforms == Admitted(PackageOf(st.md, e.snapshot), PLATFORMS)
    && (forall p | p in e.platforms :: ResolvesAt(st, e.snapshot, p))
    && (forall p | p in e.platforms :: Find(e.variants, p).Some?
          && EdgeIdentity(Find(e.variants, p).value) == EdgeIdentity(EdgesAt(st, e.snapshot, p)))
    && (forall p | p in e.platforms :: WellKeyedEdges(st.workspaceKey, Find(e.variants, p).value))
    && (forall p | p !in e.platforms :: Find(e.variants, p).None?)
  }

  /** Groups projected edge selections by identity. */
  method Variants(platforms: seq<Platform>, values: seq<EdgeSet>) returns (variants: seq<Group<EdgeSet>>)
    requires |platforms| == |values| && NoRepeats(platforms)
    ensures forall i | 0 <= i < |platforms| ::
      Find(variants, platforms[i]).Some? && Find(variants, platforms[i]).value in values
      && EdgeIdentity(Find(variants, platforms[i]).value) == EdgeIdentity(values[i])
    ensures forall p | p !in platforms :: Find(variants, p).None?
  {
    var identities := seq(|values|, i requires 0 <= i < |values| => EdgeIdentity(values[i]));
    variants := GroupByPlatform(platforms, values, identities);
    ghost var keys :| Grouped(platforms, values, identities, variants, keys);
    forall i | 0 <= i < |platforms|
      ensures Find(variants, platforms[i]).Some? && Find(variants, platforms[i]).value in values
      ensures EdgeIdentity(Find(variants, platforms[i]).value) == EdgeIdentity(values[i])
    {
      FindsItsIdentity(platforms, values, identities, variants, keys, i);
    }
    forall p | p !in platforms
      ensures Find(variants, p).None?
    {
      FindsNothingElse(platforms, values, identities, variants, keys, p);
    }
  }

  lemma VariantsFit(st: Store, key: string, platforms: seq<Platform>, values: seq<EdgeSet>,
                    variants: seq<Group<EdgeSet>>)
    requires key in st.md.snapshots && |values| == |platforms|
    requires forall i | 0 <= i < |platforms| ::
      ResolvesAt(st, key, platforms[i]) && values[i] == EdgesAt(st, key, platforms[i])
    requires forall v | v in values :: WellKeyedEdges(st.workspaceKey, v)
    requires forall i | 0 <= i < |platforms| ::
      Find(variants, platforms[i]).Some? && Find(variants, platforms[i]).value in values
      && EdgeIdentity(Find(variants, platforms[i]).value) == EdgeIdentity(values[i])
    ensures forall p | p in platforms :: ResolvesAt(st, key, p)
    ensures forall p | p in platforms ::
      Find(variants, p).Some? && WellKeyedEdges(st.workspaceKey, Find(variants, p).value)
      && EdgeIdentity(Find(variants, p).value) == EdgeIdentity(EdgesAt(st, key, p))
  {
    hide ResolvesAt, EdgesAt, Find, WellKeyedEdges, EdgeIdentity;
  }

  method MakeEntry(st: Store, key: string,
                   sccIndex: Option<nat>, bins: Bins)
    returns (r: Result<Entry, Failure>)
    requires IsStorePackage(st.md, key)
    ensures r.Success? <==>
      forall p | PackageAllowed(PackageOf(st.md, key), p) :: ResolvesAt(st, key, p)
    ensures r.Success? ==> EntryFor(st, r.value)
    ensures r.Success? ==> r.value.snapshot == key && r.value.sccIndex == sccIndex && r.value.bins == bins
  {
    hide SnapshotResolves, SnapshotEdgesOf, EdgeIdentity, PackageAllowed, Admitted, WellKeyedEdges, Find, NoRepeats;
    var platforms := Admitted(PackageOf(st.md, key), PLATFORMS);
    forall p
      ensures p in platforms <==> PackageAllowed(PackageOf(st.md, key), p)
    {
      AdmittedIff(PackageOf(st.md, key), p);
    }
    AdmittedIff(PackageOf(st.md, key), JavascriptPortable);
    var values := [];
    for i := 0 to |platforms|
      invariant |values| == i
      invariant forall j | 0 <= j < i :: ResolvesAt(st, key, platforms[j])
      invariant forall j | 0 <= j < i :: values[j] == EdgesAt(st, key, platforms[j])
      invariant forall v | v in values :: WellKeyedEdges(st.workspaceKey, v)
    {
      assert platforms[i] in platforms;
      var edges :- SnapshotEdges(Config(st.md, platforms[i], st.workspaceKey), st.companions, key);
      SnapshotWellKeyed(Config(st.md, platforms[i], st.workspaceKey), st.companions, st.md.snapshots[key]);
      values := values + [edges];
    }
    var variants := Variants(platforms, values);
    VariantsFit(st, key, platforms, values, variants);
    var snapshot := st.md.snapshots[key];
    return Success(Entry(bins, snapshot.package, PackageOf(st.md, key).name, platforms, sccIndex, key,
                         snapshot.virtualStoreName, variants));
  }

  /** Entries by store key: one for each of these snapshots, under that snapshot's own store key. */
  ghost predicate IndexedOver(st: Store, keys: seq<string>, byKey: map<string, Entry>) {
    && (forall k | k in byKey :: EntryFor(st, byKey[k]) && byKey[k].storeKey == k)
    && (forall k | k in byKey :: byKey[k].snapshot in keys)
    && (forall s | s in keys :: IsStorePackage(st.md, s)
          && st.md.snapshots[s].virtualStoreName in byKey && byKey[st.md.snapshots[s].virtualStoreName].snapshot == s)
  }

  /** Every entry describes its snapshot under its own key, and every store snapshot has its entry. */
  ghost predicate Indexed(st: Store, byKey: map<string, Entry>) {
    && (forall k | k in byKey :: EntryFor(st, byKey[k]) && byKey[k].storeKey == k)
    && (forall s | IsStorePackage(st.md, s) ::
          st.md.snapshots[s].virtualStoreName in byKey && byKey[st.md.snapshots[s].virtualStoreName].snapshot == s)
  }

  /** No two store snapshots have one store key. */
  ghost predicate KeysDistinct(md: Lock) {
    forall s, t | IsStorePackage(md, s) && IsStorePackage(md, t) && s != t ::
      md.snapshots[s].virtualStoreName != md.snapshots[t].virtualStoreName
  }

  ghost predicate AllResolve(st: Store) {
    forall s, p | IsStorePackage(st.md, s) && PackageAllowed(PackageOf(st.md, s), p) :: ResolvesAt(st, s, p)
  }

  function BinsOf(md: Lock, sidecar: map<string, Bins>, key: string): Bins
    requires key in md.snapshots
  {
    if md.snapshots[key].package in sidecar then sidecar[md.snapshots[key].package] else map[]
  }

  /** The entry list in snapshot order, with each entry's executables and component number. */
  ghost predicate Listed(md: Lock, sidecar: map<string, Bins>, sccOf: map<string, nat>, entries: seq<Entry>,
                         byKey: map<string, Entry>) {
    && (forall e | e in entries :: e.storeKey in byKey && byKey[e.storeKey] == e)
    && (forall k | k in byKey :: byKey[k] in entries)
    && (forall i, j | 0 <= i < j < |entries| :: Before(entries[i].snapshot, entries[j].snapshot))
    && (forall e | e in entries :: e.snapshot in md.snapshots && e.bins == BinsOf(md, sidecar, e.snapshot))
    && (forall e | e in entries :: e.sccIndex == SccOf(sccOf, e.storeKey))
  }

  function SccOf(sccOf: map<string, nat>, storeKey: string): Option<nat> {
    if storeKey in sccOf then Some(sccOf[storeKey]) else None
  }

  lemma EntryIndexed(st: Store, keys: seq<string>,
                     byKey: map<string, Entry>, e: Entry)
    requires IndexedOver(st, keys, byKey)
    requires EntryFor(st, e) && e.storeKey !in byKey
    ensures IndexedOver(st, keys + [e.snapshot], byKey[e.storeKey := e])
  {
    hide ResolvesAt, EdgesAt, EdgeIdentity, Admitted;
  }

  lemma ListOneMore(md: Lock, sidecar: map<string, Bins>, sccOf: map<string, nat>, entries: seq<Entry>,
                    byKey: map<string, Entry>, e: Entry)
    requires Listed(md, sidecar, sccOf, entries, byKey) && e.storeKey !in byKey
    requires forall other | other in entries :: Before(other.snapshot, e.snapshot)
    requires e.snapshot in md.snapshots && e.bins == BinsOf(md, sidecar, e.snapshot)
    requires e.sccIndex == SccOf(sccOf, e.storeKey)
    ensures Listed(md, sidecar, sccOf, entries + [e], byKey[e.storeKey := e])
  {
    hide BinsOf, SccOf;
    var more := entries + [e];
    forall i, j | 0 <= i < j < |more|
      ensures Before(more[i].snapshot, more[j].snapshot)
    {
      if j == |entries| { assert entries[i] in entries; }
    }
  }

  /** One entry per store snapshot, in snapshot order; two snapshots with one store key are rejected. */
  method MakeEntries(st: Store,
                     sccOf: map<string, nat>, sidecar: map<string, Bins>)
    returns (r: Result<seq<Entry>, Failure>, byKey: map<string, Entry>)
    ensures r.Success? <==> KeysDistinct(st.md) && AllResolve(st)
    ensures r.Success? ==> Indexed(st, byKey)
    ensures r.Success? ==> Listed(st.md, sidecar, sccOf, r.value, byKey)
  {
    hide EntryFor, ResolvesAt, PackageAllowed, IndexedOver, Listed, SccOf, BinsOf;
    var keys := SortedNames(set s | s in st.md.snapshots && IsStorePackage(st.md, s));
    var entries := [];
    byKey := map[];
    NothingIndexed(st, sidecar, sccOf);
    for i := 0 to |keys|
      invariant IndexedOver(st, keys[..i], byKey)
      invariant Listed(st.md, sidecar, sccOf, entries, byKey)
      invariant forall e | e in entries :: e.snapshot in keys[..i]
      invariant forall s, p | s in keys[..i] && IsStorePackage(st.md, s) && PackageAllowed(PackageOf(st.md, s), p) ::
        ResolvesAt(st, s, p)
    {
      assert keys[i] in keys;
      var storeKey := st.md.snapshots[keys[i]].virtualStoreName;
      var made := MakeEntry(st, keys[i], SccOf(sccOf, storeKey), BinsOf(st.md, sidecar, keys[i]));
      if made.Failure? {
        r := Result.Failure(made.error);
        return;
      }
      EntryKey(st, made.value);
      if storeKey in byKey {
        Collides(st, keys, i, byKey);
        r := Result.Failure(KeyCollision(storeKey));
        return;
      }
      EntryIndexed(st, keys[..i], byKey, made.value);
      ListOneMore(st.md, sidecar, sccOf, entries, byKey, made.value);
      byKey := byKey[storeKey := made.value];
      entries := entries + [made.value];
      assert keys[..i + 1] == keys[..i] + [keys[i]];
    }
    assert keys[..|keys|] == keys;
    IndexedDistinct(st, keys, byKey);
    r := Success(entries);
  }

  lemma EntryKey(st: Store, e: Entry)
    requires EntryFor(st, e)
    ensures e.snapshot in st.md.snapshots && e.storeKey == st.md.snapshots[e.snapshot].virtualStoreName
  {
  }

  lemma NothingIndexed(st: Store, sidecar: map<string, Bins>, sccOf: map<string, nat>)
    ensures IndexedOver(st, [], map[]) && Listed(st.md, sidecar, sccOf, [], map[])
  {
  }

  lemma Collides(st: Store, keys: seq<string>, i: nat, byKey: map<string, Entry>)
    requires Sorted(keys) && i < |keys| && IsStorePackage(st.md, keys[i])
    requires IndexedOver(st, keys[..i], byKey)
    requires st.md.snapshots[keys[i]].virtualStoreName in byKey
    ensures !KeysDistinct(st.md)
  {
    hide ResolvesAt, EdgesAt, EdgeIdentity, Admitted;
    var other := byKey[st.md.snapshots[keys[i]].virtualStoreName];
    NameUnseen(keys, i);
    assert EntryFor(st, other) && other.snapshot in keys[..i];
  }

  lemma IndexedDistinct(st: Store, keys: seq<string>, byKey: map<string, Entry>)
    requires IndexedOver(st, keys, byKey) && forall s :: s in keys <==> IsStorePackage(st.md, s)
    ensures KeysDistinct(st.md) && Indexed(st, byKey)
  {
    hide EntryFor;
    forall s, t | IsStorePackage(st.md, s) && IsStorePackage(st.md, t) && s != t
      ensures st.md.snapshots[s].virtualStoreName != st.md.snapshots[t].virtualStoreName
    {
      assert s in keys && t in keys;
    }
    forall s | IsStorePackage(st.md, s)
      ensures st.md.snapshots[s].virtualStoreName in byKey && byKey[st.md.snapshots[s].virtualStoreName].snapshot == s
    {
      assert s in keys;
    }
  }

  // ----- What an entry leads to on a platform -----

  /** The lookup the closure worklist makes; both failures are shown never to happen. */
  function EdgesFor(byKey: map<string, Entry>, platform: Platform, storeKey: string): Result<EdgeSet, Failure> {
    if storeKey !in byKey then Result.Failure(UnknownEntry(storeKey))
    else
      match Find(byKey[storeKey].variants, platform)
      case None => Result.Failure(AbsentEntry(storeKey, platform))
      case Some(edges) => Success(edges)
  }

  /** The edges an entry declares on a platform; none where it has no variant. */
  function DeclaredEdges(e: Entry, platform: Platform): EdgeSet {
    match Find(e.variants, platform)
    case None => map[]
    case Some(edges) => edges
  }

  /** Store keys, and the store keys each leads to on one platform. */
  ghost function KeyGraph(byKey: map<string, Entry>, platform: Platform): Graph<string> {
    map k | k in byKey :: Listing(EntryKeys(DeclaredEdges(byKey[k], platform)))
  }

  predicate Present(byKey: map<string, Entry>, platform: Platform, storeKey: string) {
    storeKey in byKey && platform in byKey[storeKey].platforms
  }

  lemma KeyEdgeIff(byKey: map<string, Entry>, platform: Platform, k: string, l: string)
    ensures Digraphs.Edge(KeyGraph(byKey, platform), k, l) <==>
      k in byKey && l in EntryKeys(DeclaredEdges(byKey[k], platform))
  {
  }

  /** A snapshot the platform admits has its entry there. */
  lemma AdmittedIsPresent(st: Store, byKey: map<string, Entry>, p: Platform, t: string)
    requires Indexed(st, byKey) && IsStorePackage(st.md, t) && PackageAllowed(PackageOf(st.md, t), p)
    ensures Present(byKey, p, st.md.snapshots[t].virtualStoreName)
  {
    hide PackageAllowed, Admitted, ResolvesAt, EdgesAt, EdgeIdentity;
    AdmittedIff(PackageOf(st.md, t), p);
  }

  lemma PresentEntry(st: Store, byKey: map<string, Entry>, p: Platform, k: string)
    requires Indexed(st, byKey) && Present(byKey, p, k)
    ensures EntryFor(st, byKey[k]) && byKey[k].storeKey == k && IsStorePackage(st.md, byKey[k].snapshot)
    ensures EdgesFor(byKey, p, k).Success? && EdgesFor(byKey, p, k).value == DeclaredEdges(byKey[k], p)
    ensures EdgeIdentity(DeclaredEdges(byKey[k], p)) == EdgeIdentity(EdgesAt(st, byKey[k].snapshot, p))
  {
    hide PackageAllowed, Admitted, ResolvesAt, EdgesAt, EdgeIdentity;
  }

  /** An entry present on a platform leads only to entries present there. */
  lemma TargetsPresent(st: Store, byKey: map<string, Entry>, g: Graph<string>, p: Platform, k: string, l: string)
    requires Indexed(st, byKey) && IsUnionGraph(st.md, st.companions, g)
    requires Present(byKey, p, k) && l in EntryKeys(DeclaredEdges(byKey[k], p))
    ensures Present(byKey, p, l)
    ensures IsStorePackage(st.md, byKey[l].snapshot) && byKey[l].storeKey == l
    ensures Digraphs.Edge(g, byKey[k].snapshot, byKey[l].snapshot)
  {
    hide Indexed, Present, EntryFor, EdgeIdentity, PackageAllowed, IsUnionGraph, SnapshotEdgesOf;
    PresentEntry(st, byKey, p, k);
    var s := byKey[k].snapshot;
    SameIdentitySameKeys(DeclaredEdges(byKey[k], p), EdgesAt(st, s, p));
    assert s in g by { UnionNode(st.md, st.companions, g, s); }
    var n :| n in EdgesAt(st, s, p) && EdgesAt(st, s, p)[n] == EntryEdge(l);
    var t := PlatformEdgeInUnion(Config(st.md, p, st.workspaceKey), st.companions, g, s, n);
    AdmittedIsPresent(st, byKey, p, t);
    SameSnapshot(st, byKey, t);
    PresentEntry(st, byKey, p, l);
  }

  lemma UnionNode(md: Lock, companions: map<string, string>, g: Graph<string>, s: string)
    requires IsUnionGraph(md, companions, g)
    ensures s in g <==> IsStorePackage(md, s)
  {
  }

  lemma SameSnapshot(st: Store, byKey: map<string, Entry>, t: string)
    requires Indexed(st, byKey) && IsStorePackage(st.md, t)
    ensures st.md.snapshots[t].virtualStoreName in byKey && byKey[st.md.snapshots[t].virtualStoreName].snapshot == t
  {
    hide EntryFor;
  }

  // ----- Closures -----

  /** Reachable from one of the roots. */
  ghost predicate ReachedFrom(g: Graph<string>, roots: set<string>, k: string) {
    exists r :: r in roots && Reaches(g, r, k)
  }

  /** Workspace package trees by key; each path is kept under its own key. */
  ghost predicate WellKeyed(workspaceKey: string -> string, trees: map<string, string>) {
    forall w | w in trees :: workspaceKey(trees[w]) == w
  }

  /** How far a queue has grown: by exactly the keys the closure gained. */
  ghost predicate Queued(closure: set<string>, pending: seq<string>, closure': set<string>, pending': seq<string>) {
    && closure <= closure'
    && (forall k :: k in pending' <==> k in pending || (k in closure' && k !in closure))
    && (closure' == closure ==> pending' == pending)
  }

  function KeysOf(edge: Edge): set<string> {
    if edge.EntryEdge? then {edge.storeKey} else {}
  }

  function TreesOf(edge: Edge): set<string> {
    if edge.WorkspaceEdge? then {edge.workspaceKey} else {}
  }

  method EnqueueOne(ghost workspaceKey: string -> string, edge: Edge, closure: set<string>, pending: seq<string>,
                    trees: map<string, string>)
    returns (closure': set<string>, pending': seq<string>, trees': map<string, string>)
    requires WellKeyed(workspaceKey, trees)
    requires edge.WorkspaceEdge? ==> workspaceKey(edge.workspacePath) == edge.workspaceKey
    ensures forall k :: k in closure' <==> k in closure || k in KeysOf(edge)
    ensures forall w :: w in trees' <==> w in trees || w in TreesOf(edge)
    ensures Queued(closure, pending, closure', pending') && WellKeyed(workspaceKey, trees')
  {
    closure', pending', trees' := closure, pending, trees;
    if edge.WorkspaceEdge? {
      trees' := trees'[edge.workspaceKey := edge.workspacePath];
    } else if edge.storeKey !in closure' {
      closure' := closure' + {edge.storeKey};
      pending' := pending' + [edge.storeKey];
      assert edge.storeKey in closure';
    }
  }

  lemma QueuedTransitive(c0: set<string>, p0: seq<string>, c1: set<string>, p1: seq<string>, c2: set<string>,
                         p2: seq<string>)
    requires Queued(c0, p0, c1, p1) && Queued(c1, p1, c2, p2)
    ensures Queued(c0, p0, c2, p2)
  {
  }

  /**
   * Adds an edge selection's store keys to the closure, queueing the new ones, and its workspace trees to the trees.
   */
  method Enqueue(ghost workspaceKey: string -> string, edges: EdgeSet, closure: set<string>, pending: seq<string>,
                 trees: map<string, string>)
    returns (closure': set<string>, pending': seq<string>, trees': map<string, string>)
    requires WellKeyed(workspaceKey, trees) && WellKeyedEdges(workspaceKey, edges)
    ensures forall k :: k in closure' <==> k in closure || k in EntryKeys(edges)
    ensures forall w :: w in trees' <==> w in trees || w in WorkspaceKeys(edges)
    ensures Queued(closure, pending, closure', pending') && WellKeyed(workspaceKey, trees')
  {
    hide EntryKeys, WorkspaceKeys, Queued, WellKeyed, KeysOf, TreesOf;
    var names := SortedNames(edges.Keys);
    closure', pending', trees' := closure, pending, trees;
    ghost var seen: EdgeSet := map[];
    NoKeys();
    QueuedSelf(closure, pending);
    for i := 0 to |names|
      invariant forall n :: n in seen <==> n in names[..i]
      invariant forall n | n in seen :: n in edges && seen[n] == edges[n]
      invariant forall k :: k in closure' <==> k in closure || k in EntryKeys(seen)
      invariant forall w :: w in trees' <==> w in trees || w in WorkspaceKeys(seen)
      invariant Queued(closure, pending, closure', pending') && WellKeyed(workspaceKey, trees')
    {
      TakeOneMore(names, i);
      var edge := edges[names[i]];
      OneMoreKey(seen, names[i], edge);
      seen := seen[names[i] := edge];
      ghost var c, p := closure', pending';
      closure', pending', trees' := EnqueueOne(workspaceKey, edge, closure', pending', trees');
      QueuedTransitive(closure, pending, c, p, closure', pending');
    }
    assert names[..|names|] == names;
    assert seen == edges;
  }

  lemma QueuedSelf(closure: set<string>, pending: seq<string>)
    ensures Queued(closure, pending, closure, pending)
  {
  }

  lemma NoKeys()
    ensures EntryKeys(map[]) == {} && WorkspaceKeys(map[]) == {}
  {
  }

  lemma OneMoreKey(edges: EdgeSet, n: string, edge: Edge)
    requires n in edges ==> edges[n] == edge
    ensures EntryKeys(edges[n := edge]) == EntryKeys(edges) + KeysOf(edge)
    ensures WorkspaceKeys(edges[n := edge]) == WorkspaceKeys(edges) + TreesOf(edge)
  {
    var more := edges[n := edge];
    forall k
      ensures k in EntryKeys(more) <==> k in EntryKeys(edges) + KeysOf(edge)
    {
      if k in EntryKeys(edges) {
        var m :| m in edges && edges[m].EntryEdge? && edges[m].storeKey == k;
        assert m in more && more[m] == edges[m];
      }
      if edge.EntryEdge? && k == edge.storeKey { assert more[n] == edge; }
    }
    forall k
      ensures k in WorkspaceKeys(more) <==> k in WorkspaceKeys(edges) + TreesOf(edge)
    {
      if k in WorkspaceKeys(edges) {
        var m :| m in edges && edges[m].WorkspaceEdge? && edges[m].workspaceKey == k;
        assert m in more && more[m] == edges[m];
      }
      if edge.WorkspaceEdge? && k == edge.workspaceKey { assert more[n] == edge; }
    }
  }

  ghost predicate AllPresent(byKey: map<string, Entry>, platform: Platform, keys: set<string>) {
    forall k | k in keys :: Present(byKey, platform, k)
  }

  /** The worklist's variables: what is settled leads only into the closure, and all of it is reachable. */
  ghost predicate Working(byKey: map<string, Entry>, platform: Platform, roots: set<string>, closure: set<string>,
                          pending: seq<string>) {
    && AllPresent(byKey, platform, closure)
    && (forall k | k in pending :: k in closure)
    && (forall k, l | k in closure && k !in pending && Digraphs.Edge(KeyGraph(byKey, platform), k, l) :: l in closure)
    && (forall k | k in closure :: ReachedFrom(KeyGraph(byKey, platform), roots, k))
    && roots <= closure
  }

  lemma WorkOneMore(st: Store, byKey: map<string, Entry>, g: Graph<string>, platform: Platform, roots: set<string>,
                    closure: set<string>, pending: seq<string>, closure': set<string>, pending': seq<string>)
    requires Indexed(st, byKey) && IsUnionGraph(st.md, st.companions, g)
    requires pending != [] && Working(byKey, platform, roots, closure, pending)
    requires var k := pending[|pending| - 1];
      k in byKey && forall l :: l in closure' <==> l in closure || l in EntryKeys(DeclaredEdges(byKey[k], platform))
    requires Queued(closure, pending[..|pending| - 1], closure', pending')
    ensures Working(byKey, platform, roots, closure', pending')
  {
    hide Indexed, IsUnionGraph, Present, KeyGraph, EntryKeys;
    var n := |pending| - 1;
    var k := pending[n];
    var kg := KeyGraph(byKey, platform);
    assert pending == pending[..n] + [k];
    forall l | l in closure' && l !in closure
      ensures Present(byKey, platform, l) && ReachedFrom(kg, roots, l)
    {
      TargetsPresent(st, byKey, g, platform, k, l);
      KeyEdgeIff(byKey, platform, k, l);
      var r :| r in roots && Reaches(kg, r, k);
      ReachesAlongEdge(kg, k, l);
      ReachesTrans(kg, r, k, l);
    }
    forall x, l | x in closure' && x !in pending' && Digraphs.Edge(kg, x, l)
      ensures l in closure'
    {
      if x == k {
        KeyEdgeIff(byKey, platform, k, l);
      }
    }
  }

  /** The workspace keys collected: all of the direct edges and of the settled entries, and none but the closure's. */
  ghost predicate TreesFrom(byKey: map<string, Entry>, platform: Platform, direct: EdgeSet, closure: set<string>,
                            pending: seq<string>,
                            before: set<string>, collected: set<string>) {
    && (forall w | w in before || w in WorkspaceKeys(direct) :: w in collected)
    && (forall k, w | k in closure && k !in pending && LeadsToTree(byKey, platform, k, w) :: w in collected)
    && (forall w | w in collected :: w in before || w in WorkspaceKeys(direct)
          || exists k :: k in closure && LeadsToTree(byKey, platform, k, w))
  }

  ghost predicate LeadsToTree(byKey: map<string, Entry>, platform: Platform, k: string, w: string) {
    k in byKey && w in WorkspaceKeys(DeclaredEdges(byKey[k], platform))
  }

  lemma TreesStart(byKey: map<string, Entry>, platform: Platform, direct: EdgeSet, closure: set<string>,
                   pending: seq<string>,
                   before: set<string>, collected: set<string>)
    requires Queued({}, [], closure, pending)
    requires forall w :: w in collected <==> w in before || w in WorkspaceKeys(direct)
    ensures TreesFrom(byKey, platform, direct, closure, pending, before, collected)
  {
    hide WorkspaceKeys, LeadsToTree;
  }

  lemma TreesGrow(byKey: map<string, Entry>, platform: Platform, direct: EdgeSet, closure: set<string>,
                  pending: seq<string>,
                  before: set<string>, collected: set<string>, closure': set<string>, pending': seq<string>,
                  collected': set<string>)
    requires pending != [] && TreesFrom(byKey, platform, direct, closure, pending, before, collected)
    requires var k := pending[|pending| - 1];
      && k in closure && k in byKey
      && forall w :: w in collected' <==> w in collected || w in WorkspaceKeys(DeclaredEdges(byKey[k], platform))
    requires Queued(closure, pending[..|pending| - 1], closure', pending')
    ensures TreesFrom(byKey, platform, direct, closure', pending', before, collected')
  {
    hide WorkspaceKeys, DeclaredEdges;
    var n := |pending| - 1;
    assert pending == pending[..n] + [pending[n]];
    forall w | w in collected'
      ensures w in before || w in WorkspaceKeys(direct) || exists k ::
        k in closure' && LeadsToTree(byKey, platform, k, w)
    {
      if w in WorkspaceKeys(DeclaredEdges(byKey[pending[n]], platform)) {
        assert LeadsToTree(byKey, platform, pending[n], w);
      }
    }
  }

  /** Everything an importer's direct edges reach on one platform; neither lookup failure can happen. */
  method Closure(st: Store, byKey: map<string, Entry>, ghost g: Graph<string>, platform: Platform, direct: EdgeSet,
                 trees: map<string, string>)
    returns (closure: set<string>, trees': map<string, string>)
    requires Indexed(st, byKey) && IsUnionGraph(st.md, st.companions, g)
    requires AllPresent(byKey, platform, EntryKeys(direct))
    requires WellKeyed(st.workspaceKey, trees) && WellKeyedEdges(st.workspaceKey, direct)
    ensures forall k :: k in closure <==> ReachedFrom(KeyGraph(byKey, platform), EntryKeys(direct), k)
    ensures AllPresent(byKey, platform, closure)
    ensures WellKeyed(st.workspaceKey, trees')
    ensures TreesFrom(byKey, platform, direct, closure, [], trees.Keys, trees'.Keys)
  {
    hide TreesFrom, Indexed, IsUnionGraph, Working, KeyGraph, EntryKeys, WorkspaceKeys, WellKeyed, WellKeyedEdges,
         Queued, ReachedFrom, AllPresent;
    var pending;
    closure, pending, trees' := Enqueue(st.workspaceKey, direct, {}, [], trees);
    WorkStarts(byKey, platform, EntryKeys(direct), closure, pending);
    TreesStart(byKey, platform, direct, closure, pending, trees.Keys, trees'.Keys);
    while |pending| > 0
      invariant Working(byKey, platform, EntryKeys(direct), closure, pending)
      invariant WellKeyed(st.workspaceKey, trees')
      invariant TreesFrom(byKey, platform, direct, closure, pending, trees.Keys, trees'.Keys)
      decreases |byKey.Keys - closure|, |pending|
    {
      var k := pending[|pending| - 1];
      PendingPresent(st, byKey, platform, EntryKeys(direct), closure, pending);
      var edges := EdgesFor(byKey, platform, k);
      ghost var c, p, w := closure, pending, trees'.Keys;
      closure, pending, trees' := Enqueue(st.workspaceKey, edges.value, closure, pending[..|pending| - 1], trees');
      TreesGrow(byKey, platform, direct, c, p, trees.Keys, w, closure, pending, trees'.Keys);
      WorkOneMore(st, byKey, g, platform, EntryKeys(direct), c, p, closure, pending);
      WorkShrinks(byKey, platform, EntryKeys(direct), c, p[..|p| - 1], closure, pending);
    }
    WorkEnds(byKey, platform, EntryKeys(direct), closure);
  }

  lemma WorkStarts(byKey: map<string, Entry>, platform: Platform, roots: set<string>, closure: set<string>,
                   pending: seq<string>)
    requires AllPresent(byKey, platform, roots)
    requires (forall k :: k in closure <==> k in roots) && Queued({}, [], closure, pending)
    ensures Working(byKey, platform, roots, closure, pending)
  {
    forall k | k in closure
      ensures ReachedFrom(KeyGraph(byKey, platform), roots, k)
    {
      ReachesSelf(KeyGraph(byKey, platform), k);
    }
  }

  lemma PendingPresent(st: Store, byKey: map<string, Entry>, platform: Platform, roots: set<string>,
                       closure: set<string>, pending: seq<string>)
    requires Indexed(st, byKey) && pending != [] && Working(byKey, platform, roots, closure, pending)
    ensures var k := pending[|pending| - 1];
      && k in closure && k in byKey && EdgesFor(byKey, platform, k).Success?
      && EdgesFor(byKey, platform, k).value == DeclaredEdges(byKey[k], platform)
      && WellKeyedEdges(st.workspaceKey, EdgesFor(byKey, platform, k).value)
  {
    hide ReachedFrom, KeyGraph, Indexed, EntryFor;
    var k := pending[|pending| - 1];
    assert k in closure;
    PresentEntry(st, byKey, platform, k);
    EntryWellKeyed(st, byKey[k], platform);
  }

  lemma EntryWellKeyed(st: Store, e: Entry, platform: Platform)
    requires EntryFor(st, e) && platform in e.platforms
    ensures WellKeyedEdges(st.workspaceKey, DeclaredEdges(e, platform))
  {
  }

  lemma WorkShrinks(byKey: map<string, Entry>, platform: Platform, roots: set<string>, closure: set<string>,
                    rest: seq<string>,
                    closure': set<string>, pending': seq<string>)
    requires Queued(closure, rest, closure', pending') && Working(byKey, platform, roots, closure', pending')
    ensures |byKey.Keys - closure'| < |byKey.Keys - closure| || (closure' == closure && pending' == rest)
  {
    hide ReachedFrom, KeyGraph;
    if closure' != closure {
      var k :| k in closure' && k !in closure;
      assert Present(byKey, platform, k);
      Tarjan.FewerLeft(byKey.Keys, closure, k);
      SubsetSize(byKey.Keys - closure', byKey.Keys - (closure + {k}));
    }
  }

  /** When nothing is pending, the closure is exactly what the roots reach. */
  lemma WorkEnds(byKey: map<string, Entry>, platform: Platform, roots: set<string>, closure: set<string>)
    requires Working(byKey, platform, roots, closure, [])
    ensures AllPresent(byKey, platform, closure)
    ensures forall k :: k in closure <==> ReachedFrom(KeyGraph(byKey, platform), roots, k)
  {
    hide KeyGraph, Present;
    var kg := KeyGraph(byKey, platform);
    assert Stable(kg, closure);
    forall k | ReachedFrom(kg, roots, k)
      ensures k in closure
    {
      var r :| r in roots && Reaches(kg, r, k);
      StableHoldsReachable(kg, closure, r, k);
    }
  }

  // ----- Views -----

  /** What an importer sees on one platform. */
  datatype ViewValue = ViewValue(direct: EdgeSet, bins: Bins, closure: seq<string>)

  datatype View = View(importer: string, variants: seq<Group<ViewValue>>, workspaceTrees: map<string, string>)

  type ViewIdentity = (map<string, EdgeId>, Bins, seq<string>)

  function IdentityOfView(v: ViewValue): ViewIdentity {
    (EdgeIdentity(v.direct), v.bins, v.closure)
  }

  ghost function BinsByKey(byKey: map<string, Entry>): map<string, Bins> {
    map k | k in byKey :: byKey[k].bins
  }

  /** The direct edges, the sorted set of store keys they reach, and the decided executables. */
  ghost predicate ViewAt(st: Store, collate: Collation, byKey: map<string, Entry>, importer: Importer, p: Platform,
                         v: ViewValue) {
    var c := Config(st.md, p, st.workspaceKey);
    && ImporterResolves(c, importer)
    && v.direct == ImporterEdgesOf(c, importer)
    && Sorted(v.closure)
    && (forall k :: k in v.closure <==> ReachedFrom(KeyGraph(byKey, p), EntryKeys(v.direct), k))
    && (forall k | k in v.closure :: Present(byKey, p, k))
    && AllPresent(byKey, p, EntryKeys(v.direct))
    && BinsKnown(v.direct, BinsByKey(byKey))
    && Decided(collate, v.bins, Visits(v.direct, BinsByKey(byKey), Listing(v.direct.Keys)))
  }

  /** Every platform finds a variant whose identity is that of what the importer sees there. */
  ghost predicate ViewFor(st: Store, collate: Collation, byKey: map<string, Entry>, view: View) {
    && view.importer in st.md.importers
    && (forall p: Platform :: Find(view.variants, p).Some?)
    && (forall p: Platform ::
          Matches(st, collate, byKey, st.md.importers[view.importer], p, Find(view.variants, p).value))
    && WellKeyed(st.workspaceKey, view.workspaceTrees)
    && (forall w :: w in view.workspaceTrees <==> exists p :: TreeSeen(st, byKey, st.md.importers[view.importer], p, w))
  }

  /** On this platform the importer, or an entry it reaches, leads to the workspace. */
  ghost predicate TreeSeen(st: Store, byKey: map<string, Entry>, importer: Importer, p: Platform, w: string) {
    var direct := ImporterEdgesOf(Config(st.md, p, st.workspaceKey), importer);
    || w in WorkspaceKeys(direct)
    || exists k :: ReachedFrom(KeyGraph(byKey, p), EntryKeys(direct), k) && LeadsToTree(byKey, p, k, w)
  }

  ghost predicate Matches(st: Store, collate: Collation, byKey: map<string, Entry>, importer: Importer, p: Platform,
                          found: ViewValue) {
    exists v :: ViewAt(st, collate, byKey, importer, p, v) && IdentityOfView(found) == IdentityOfView(v)
  }

  lemma DirectPresent(st: Store, byKey: map<string, Entry>, importer: Importer, p: Platform)
    requires Indexed(st, byKey)
    ensures AllPresent(byKey, p, EntryKeys(ImporterEdgesOf(Config(st.md, p, st.workspaceKey), importer)))
  {
    hide Indexed, Present, ImporterEdgesOf, PackageAllowed;
    var c := Config(st.md, p, st.workspaceKey);
    forall k | k in EntryKeys(ImporterEdgesOf(c, importer))
      ensures Present(byKey, p, k)
    {
      var n :| n in ImporterEdgesOf(c, importer) && ImporterEdgesOf(c, importer)[n] == EntryEdge(k);
      var t := ImporterEdgeTarget(c, importer, n);
      AdmittedIsPresent(st, byKey, p, t);
    }
  }

  lemma DirectBinsKnown(byKey: map<string, Entry>, p: Platform, direct: EdgeSet)
    requires AllPresent(byKey, p, EntryKeys(direct))
    ensures BinsKnown(direct, BinsByKey(byKey))
  {
    forall n | n in direct && direct[n].EntryEdge?
      ensures direct[n].storeKey in byKey
    {
      assert direct[n].storeKey in EntryKeys(direct);
    }
  }

  /** What one importer sees on one platform; only an incompatible or malformed reference of its own can fail. */
  method ProjectView(st: Store, collate: Collation, byKey: map<string, Entry>, ghost g: Graph<string>,
                     importer: Importer,
                     p: Platform, trees: map<string, string>)
    returns (r: Result<ViewValue, Failure>, trees': map<string, string>)
    requires Indexed(st, byKey) && IsUnionGraph(st.md, st.companions, g) && WellKeyed(st.workspaceKey, trees)
    ensures r.Success? <==> ImporterResolves(Config(st.md, p, st.workspaceKey), importer)
    ensures r.Success? ==> ViewAt(st, collate, byKey, importer, p, r.value)
    ensures WellKeyed(st.workspaceKey, trees')
    ensures r.Success? ==> forall w :: w in trees' <==> w in trees || TreeSeen(st, byKey, importer, p, w)
  {
    hide TreesFrom, TreeSeen, Indexed, IsUnionGraph, KeyGraph, EntryKeys, WorkspaceKeys, WellKeyed, WellKeyedEdges,
         ReachedFrom, AllPresent,
         ImporterResolves, ImporterEdgesOf, BinsKnown, Decided, Visits, BinsByKey;
    var c := Config(st.md, p, st.workspaceKey);
    trees' := trees;
    var direct := ImporterEdges(c, importer);
    if direct.Failure? {
      r := Result.Failure(direct.error);
      return;
    }
    DirectPresent(st, byKey, importer, p);
    ImporterWellKeyed(c, importer);
    var closure;
    closure, trees' := Closure(st, byKey, g, p, direct.value, trees);
    TreesAreSeen(st, byKey, importer, p, closure, trees.Keys, trees'.Keys);
    var keys := SortedNames(closure);
    KeysPresent(byKey, p, closure, keys);
    DirectBinsKnown(byKey, p, direct.value);
    var bins := BinDirectory(collate, byKey, direct.value);
    r := Success(ViewValue(direct.value, bins, keys));
  }

  lemma TreesAreSeen(st: Store, byKey: map<string, Entry>, importer: Importer, p: Platform, closure: set<string>,
                     before: set<string>, collected: set<string>)
    requires var direct := ImporterEdgesOf(Config(st.md, p, st.workspaceKey), importer);
      && (forall k :: k in closure <==> ReachedFrom(KeyGraph(byKey, p), EntryKeys(direct), k))
      && TreesFrom(byKey, p, direct, closure, [], before, collected)
    ensures forall w :: w in collected <==> w in before || TreeSeen(st, byKey, importer, p, w)
  {
    hide ImporterEdgesOf, ReachedFrom, EntryKeys, WorkspaceKeys, LeadsToTree, KeyGraph;
  }

  lemma KeysPresent(byKey: map<string, Entry>, p: Platform, closure: set<string>, keys: seq<string>)
    requires AllPresent(byKey, p, closure) && forall k :: k in keys <==> k in closure
    ensures forall k | k in keys :: Present(byKey, p, k)
  {
  }

  method BinDirectory(collate: Collation, byKey: map<string, Entry>, direct: EdgeSet) returns (bins: Bins)
    requires BinsKnown(direct, BinsByKey(byKey))
    ensures Decided(collate, bins, Visits(direct, BinsByKey(byKey), Listing(direct.Keys)))
  {
    var binsOf := map k | k in byKey :: byKey[k].bins;
    bins := RootBins.RootBins(collate, direct, binsOf);
  }

  method MakeView(st: Store, collate: Collation, byKey: map<string, Entry>, ghost g: Graph<string>, name: string)
    returns (r: Result<View, Failure>)
    requires Indexed(st, byKey) && IsUnionGraph(st.md, st.companions, g) && name in st.md.importers
    ensures r.Success? <==>
      forall p: Platform :: ImporterResolves(Config(st.md, p, st.workspaceKey), st.md.importers[name])
    ensures r.Success? ==> r.value.importer == name && ViewFor(st, collate, byKey, r.value)
  {
    hide Indexed, IsUnionGraph, WellKeyed, ImporterResolves, ViewAt, TreeSeen, Matches;
    var trees: map<string, string> := map[];
    assert WellKeyed(st.workspaceKey, trees) by { NoTrees(st.workspaceKey); }
    var values: seq<ViewValue> := [];
    for i := 0 to |PLATFORMS|
      invariant |values| == i && WellKeyed(st.workspaceKey, trees)
      invariant forall w ::
        w in trees <==> exists j :: 0 <= j < i && TreeSeen(st, byKey, st.md.importers[name], PLATFORMS[j], w)
      invariant forall j | 0 <= j < i :: ViewAt(st, collate, byKey, st.md.importers[name], PLATFORMS[j], values[j])
      invariant forall j | 0 <= j < i ::
        ImporterResolves(Config(st.md, PLATFORMS[j], st.workspaceKey), st.md.importers[name])
    {
      var value;
      value, trees := ProjectView(st, collate, byKey, g, st.md.importers[name], PLATFORMS[i], trees);
      if value.Failure? {
        return Result.Failure(value.error);
      }
      values := values + [value.value];
    }
    var variants := ViewVariants(st, collate, byKey, st.md.importers[name], values);
    forall p: Platform
      ensures ImporterResolves(Config(st.md, p, st.workspaceKey), st.md.importers[name])
    {
      EveryPlatform(p);
    }
    SeenSomewhere(st, byKey, st.md.importers[name], trees.Keys);
    return Success(View(name, variants, trees));
  }

  lemma SeenSomewhere(st: Store, byKey: map<string, Entry>, importer: Importer, trees: set<string>)
    requires forall w ::
      w in trees <==> exists j :: 0 <= j < |PLATFORMS| && TreeSeen(st, byKey, importer, PLATFORMS[j], w)
    ensures forall w :: w in trees <==> exists p :: TreeSeen(st, byKey, importer, p, w)
  {
    hide TreeSeen;
    forall w
      ensures w in trees <==> exists p :: TreeSeen(st, byKey, importer, p, w)
    {
      if p :| TreeSeen(st, byKey, importer, p, w) {
        EveryPlatform(p);
        var j :| 0 <= j < |PLATFORMS| && PLATFORMS[j] == p;
      }
    }
  }

  lemma NoTrees(workspaceKey: string -> string)
    ensures WellKeyed(workspaceKey, map[])
  {
  }

  method ViewVariants(st: Store, collate: Collation, byKey: map<string, Entry>, importer: Importer,
                      values: seq<ViewValue>)
    returns (variants: seq<Group<ViewValue>>)
    requires |values| == |PLATFORMS|
    requires forall j | 0 <= j < |PLATFORMS| :: ViewAt(st, collate, byKey, importer, PLATFORMS[j], values[j])
    ensures forall p: Platform :: Find(variants, p).Some?
    ensures forall p: Platform :: Matches(st, collate, byKey, importer, p, Find(variants, p).value)
  {
    hide ViewAt;
    var identities := seq(|values|, i requires 0 <= i < |values| => IdentityOfView(values[i]));
    variants := GroupByPlatform(PLATFORMS, values, identities);
    ghost var keys :| Grouped(PLATFORMS, values, identities, variants, keys);
    forall p: Platform
      ensures Find(variants, p).Some? && Matches(st, collate, byKey, importer, p, Find(variants, p).value)
    {
      EveryPlatform(p);
      var i :| 0 <= i < |PLATFORMS| && PLATFORMS[i] == p;
      FindsItsIdentity(PLATFORMS, values, identities, variants, keys, i);
      var k :| 0 <= k < |values| && identities[k] == identities[i] && values[k] == Find(variants, p).value;
      assert ViewAt(st, collate, byKey, importer, p, values[i]);
      assert IdentityOfView(values[k]) == IdentityOfView(values[i]);
    }
  }
}
