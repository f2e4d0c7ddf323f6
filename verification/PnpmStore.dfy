/** The whole projection of a lockfile into one store. */
module PnpmStore {
  import opened Common
  import opened Metadata
  import opened Digraphs
  import opened StoreEdges
  import opened RootBins
  import opened StoreProjection
  import StoreSccs

  datatype Projection = Projection(entries: seq<Entry>, sccs: seq<seq<string>>, views: seq<View>)

  // ----- Components by store key -----

  /** No store key is listed twice, within one component or in two. */
  ghost predicate ListedOnce(sccs: seq<seq<string>>) {
    && (forall i | 0 <= i < |sccs| :: Distinct(sccs[i]))
    && (forall i, j, k | 0 <= i < j < |sccs| && k in sccs[i] :: k !in sccs[j])
  }

  /** Each listed key maps to the position of the component that lists it. */
  ghost predicate NumbersOf(sccs: seq<seq<string>>, sccOf: map<string, nat>) {
    && (forall k | k in sccOf :: sccOf[k] < |sccs| && k in sccs[sccOf[k]])
    && (forall i, k | 0 <= i < |sccs| && k in sccs[i] :: k in sccOf && sccOf[k] == i)
  }

  /** The members of one component, the others being numbered already. */
  method NumberComponent(sccs: seq<seq<string>>, i: nat, before: map<string, nat>)
    returns (r: Result<map<string, nat>, Failure>)
    requires i < |sccs| && NumbersOf(sccs[..i], before)
    ensures r.Success? <==> Distinct(sccs[i]) && forall k | k in sccs[i] :: k !in before
    ensures r.Success? ==> NumbersOf(sccs[..i + 1], r.value)
  {
    var sccOf := before;
    for j := 0 to |sccs[i]|
      invariant forall k :: k in sccOf <==> k in before || k in sccs[i][..j]
      invariant forall k | k in before :: sccOf[k] == before[k] && k !in sccs[i][..j]
      invariant forall k | k in sccs[i][..j] :: sccOf[k] == i
      invariant Distinct(sccs[i][..j])
    {
      var member := sccs[i][j];
      TakeOneMore(sccs[i], j);
      if member in sccOf {
        if member !in before {
          var m :| 0 <= m < j && sccs[i][..j][m] == member;
          assert sccs[i][m] == sccs[i][j];
        }
        return Result.Failure(InTwoComponents(member));
      }
      sccOf := sccOf[member := i];
    }
    assert sccs[i][..|sccs[i]|] == sccs[i];
    forall k | k in sccOf
      ensures sccOf[k] < i + 1 && k in sccs[..i + 1][sccOf[k]]
    {
      if k in before { assert k in sccs[..i][before[k]]; }
    }
    var upTo := sccs[..i + 1];
    forall n, k | 0 <= n < i + 1 && k in upTo[n]
      ensures k in sccOf && sccOf[k] == n
    {
      if n < i { assert k in sccs[..i][n]; }
    }
    return Success(sccOf);
  }

  /** Numbers the members of all components; a key met twice is rejected. */
  method NumberMembers(sccs: seq<seq<string>>) returns (r: Result<map<string, nat>, Failure>)
    ensures r.Success? <==> ListedOnce(sccs)
    ensures r.Success? ==> NumbersOf(sccs, r.value)
  {
    var sccOf: map<string, nat> := map[];
    for i := 0 to |sccs|
      invariant NumbersOf(sccs[..i], sccOf)
      invariant forall n | 0 <= n < i :: Distinct(sccs[n])
    {
      var next := NumberComponent(sccs, i, sccOf);
      if next.Failure? {
        if k :| k in sccs[i] && k in sccOf {
          assert k in sccs[..i][sccOf[k]];
        }
        return next;
      }
      sccOf := next.value;
    }
    assert sccs[..|sccs|] == sccs;
    forall i, j, k | 0 <= i < j < |sccs| && k in sccs[i]
      ensures k !in sccs[j]
    {
      assert sccOf[k] == i;
    }
    return Success(sccOf);
  }

  lemma RenamedMember(md: Lock, scc: seq<string>, c: seq<string>, k: string) returns (s: string)
    requires forall x | x in c :: x in md.snapshots
    requires multiset(scc) == multiset(StoreSccs.Renamed(md, c)) && k in scc
    ensures s in c && md.snapshots[s].virtualStoreName == k
  {
    assert k in multiset(scc);
    var i :| 0 <= i < |c| && StoreSccs.Renamed(md, c)[i] == k;
    s := c[i];
  }

  lemma ClassesAreStore(md: Lock, companions: map<string, string>, g: Graph<string>, classes: seq<seq<string>>)
    requires IsUnionGraph(md, companions, g) && StoreSccs.CycleClasses(g, classes)
    ensures forall i, x | 0 <= i < |classes| && x in classes[i] :: IsStorePackage(md, x)
  {
    hide RefersTo, StoreSccs.OnCycle, Mutual;
    forall i, x | 0 <= i < |classes| && x in classes[i]
      ensures IsStorePackage(md, x)
    {
      assert IsClass(g, classes[i]);
    }
  }

  /** When store keys are distinct, no component lists one twice. */
  lemma DistinctKeysListedOnce(md: Lock, companions: map<string, string>, g: Graph<string>, sccs: seq<seq<string>>,
                               classes: seq<seq<string>>)
    requires KeysDistinct(md) && IsUnionGraph(md, companions, g)
    requires StoreSccs.CycleClasses(g, classes) && StoreSccs.Lists(md, sccs, classes)
    ensures ListedOnce(sccs)
  {
    hide RefersTo, StoreSccs.OnCycle, Mutual, IsUnionGraph;
    ClassesAreStore(md, companions, g, classes);
    forall i | 0 <= i < |sccs|
      ensures Distinct(sccs[i])
    {
      assert IsClass(g, classes[i]);
      var names := StoreSccs.Renamed(md, classes[i]);
      assert forall a | 0 <= a < |classes[i]| :: classes[i][a] in classes[i];
      DistinctPermutation(names, sccs[i]);
    }
    forall i, j, k | 0 <= i < j < |sccs| && k in sccs[i]
      ensures k !in sccs[j]
    {
      var s := RenamedMember(md, sccs[i], classes[i], k);
      if k in sccs[j] {
        var t := RenamedMember(md, sccs[j], classes[j], k);
      }
    }
  }

  // ----- The projection -----

  /** What the projection was computed from: the union graph, its cycles, and the entries by key. */
  datatype Evidence = Evidence(
    store: Store,
    graph: Graph<string>,
    classes: seq<seq<string>>,
    sccOf: map<string, nat>,
    byKey: map<string, Entry>)

  ghost predicate IsProjection(md: Lock, sidecar: map<string, Bins>, collate: Collation, p: Projection, ev: Evidence) {
    && ev.store.md == md
    && IsCompanions(md, ev.store.companions)
    && IsUnionGraph(md, ev.store.companions, ev.graph)
    && StoreSccs.CycleClasses(ev.graph, ev.classes)
    && StoreSccs.Lists(md, p.sccs, ev.classes)
    && NumbersOf(p.sccs, ev.sccOf)
    && KeysDistinct(md)
    && Indexed(ev.store, ev.byKey)
    && Listed(md, sidecar, ev.sccOf, p.entries, ev.byKey)
    && (forall name :: name in md.importers <==> exists i :: 0 <= i < |p.views| && p.views[i].importer == name)
    && (forall i, j | 0 <= i < j < |p.views| :: Before(p.views[i].importer, p.views[j].importer))
    && (forall i | 0 <= i < |p.views| :: ViewFor(ev.store, collate, ev.byKey, p.views[i]))
  }

  /** The importers every platform can install. */
  ghost predicate ImportersResolve(md: Lock, workspaceKey: string -> string) {
    forall name, p | name in md.importers :: ImporterResolves(Config(md, p, workspaceKey), md.importers[name])
  }

  /** Everything that can make the projection fail, as conditions on the lockfile. */
  ghost predicate Projectable(md: Lock, workspaceKey: string -> string) {
    && PackagesKnown(md)
    && OneCompanionVersion(md)
    && KeysDistinct(md)
    && (forall companions | IsCompanions(md, companions) :: AllResolve(Store(md, workspaceKey, companions)))
    && ImportersResolve(md, workspaceKey)
  }

  method MakeViews(st: Store, collate: Collation, byKey: map<string, Entry>, ghost g: Graph<string>)
    returns (r: Result<seq<View>, Failure>)
    requires Indexed(st, byKey) && IsUnionGraph(st.md, st.companions, g)
    ensures r.Success? <==> ImportersResolve(st.md, st.workspaceKey)
    ensures r.Success? ==>
      forall name :: name in st.md.importers <==> exists i :: 0 <= i < |r.value| && r.value[i].importer == name
    ensures r.Success? ==> forall i, j | 0 <= i < j < |r.value| :: Before(r.value[i].importer, r.value[j].importer)
    ensures r.Success? ==> forall i | 0 <= i < |r.value| :: ViewFor(st, collate, byKey, r.value[i])
  {
    hide Indexed, IsUnionGraph, ImporterResolves, ViewFor;
    var names := SortedNames(st.md.importers.Keys);
    var views: seq<View> := [];
    for i := 0 to |names|
      invariant |views| == i && forall j | 0 <= j < i :: views[j].importer == names[j]
      invariant forall j | 0 <= j < i :: ViewFor(st, collate, byKey, views[j])
      invariant forall j, p | 0 <= j < i && names[j] in st.md.importers ::
        ImporterResolves(Config(st.md, p, st.workspaceKey), st.md.importers[names[j]])
    {
      TakeOneMore(names, i);
      var view := MakeView(st, collate, byKey, g, names[i]);
      if view.Failure? {
        return Result.Failure(view.error);
      }
      views := views + [view.value];
    }
    forall name
      ensures name in st.md.importers <==> exists i :: 0 <= i < |views| && views[i].importer == name
    {
      if name in st.md.importers {
        var i :| 0 <= i < |names| && names[i] == name;
        assert views[i].importer == name;
      }
      if i :| 0 <= i < |views| && views[i].importer == name {
        TakeOneMore(names, i);
      }
    }
    return Success(views);
  }

  /** Projects a lockfile; it succeeds exactly on the projectable ones. */
  method MakePnpmStoreProjection(md: Lock, workspaceKey: string -> string, collate: Collation,
                                 sidecar: map<string, Bins>)
    returns (r: Result<Projection, Failure>, ghost ev: Evidence)
    ensures r.Success? <==> Projectable(md, workspaceKey)
    ensures r.Success? ==> IsProjection(md, sidecar, collate, r.value, ev)
    ensures r.Success? ==> ev.store.workspaceKey == workspaceKey
  {
    hide IsUnionGraph, IsCompanions, StoreSccs.CycleClasses, StoreSccs.Lists, NumbersOf, Indexed, Listed, ViewFor,
         KeysDistinct, AllResolve, OneCompanionVersion, ListedOnce, PackagesKnown, ImportersResolve;
    ev := Evidence(Store(md, workspaceKey, map[]), map[], [], map[], map[]);
    var sccs;
    ghost var companions, g, classes;
    sccs, companions, g, classes := StoreSccs.ComputeStoreSccs(md);
    if sccs.Failure? {
      r := Result.Failure(sccs.error);
      return;
    }
    var sccOf := NumberMembers(sccs.value);
    if sccOf.Failure? {
      if KeysDistinct(md) { DistinctKeysListedOnce(md, companions, g, sccs.value, classes); }
      r := Result.Failure(sccOf.error);
      return;
    }
    var found := TypesCompanionSnapshots(md);
    OneCompanionChoice(md, companions, found.value);
    var st := Store(md, workspaceKey, found.value);
    OneStore(st);
    var entries, byKey := MakeEntries(st, sccOf.value, sidecar);
    if entries.Failure? {
      r := Result.Failure(entries.error);
      return;
    }
    var views := MakeViews(st, collate, byKey, g);
    if views.Failure? {
      r := Result.Failure(views.error);
      return;
    }
    ev := Evidence(st, g, classes, sccOf.value, byKey);
    r := Success(Projection(entries.value, sccs.value, views.value));
  }

  lemma OneCompanionChoice(md: Lock, a: map<string, string>, b: map<string, string>)
    requires IsCompanions(md, a) && IsCompanions(md, b)
    ensures a == b
  {
    CompanionsUnique(md, a, b);
  }

  lemma OneStore(st: Store)
    requires IsCompanions(st.md, st.companions)
    ensures (forall companions | IsCompanions(st.md, companions) ::
              AllResolve(Store(st.md, st.workspaceKey, companions)))
        <==> AllResolve(st)
  {
    hide IsCompanions, AllResolve;
    forall companions | IsCompanions(st.md, companions)
      ensures Store(st.md, st.workspaceKey, companions) == st
    {
      CompanionsUnique(st.md, companions, st.companions);
    }
  }
}
