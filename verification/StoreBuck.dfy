/** The build targets the projection declares, and which of them depend on which. */
module StoreBuck {
  import opened Common
  import opened Metadata
  import opened StoreEdges
  import opened PlatformGroups
  import opened RootBins
  import opened StoreProjection
  import opened PnpmStore

  datatype BuckFailure =
    | UnknownStoreEntry
    | MemberNeedsWorkspace(storeKey: string)
    | VariesByPlatform
    | EntryNeedsWorkspace(storeKey: string)
    | CannotGraft(storeKey: string)
    | UnknownComponent
    | NoVariant(importer: string)

  /** The link of one component member under one dependency name. */
  datatype Port = Port(member: string, name: string)

  type Ports = map<Port, string>

  datatype SccRule = SccRule(internal: map<Platform, Ports>, external: map<Platform, Ports>)

  datatype EntryRule = Plain(dependencies: map<Platform, map<string, string>>) | Member(scc: nat)

  datatype ViewRule = ViewRule(
    direct: map<Platform, map<string, string>>,
    closure: map<Platform, seq<string>>,
    bins: map<Platform, Bins>,
    workspaceTrees: map<string, string>,
    workspaceDependencies: map<string, string>)

  // ----- Records -----

  function EntryRecord(edges: EdgeSet): map<string, string> {
    map n | n in edges && edges[n].EntryEdge? :: edges[n].storeKey
  }

  function WorkspaceRecord(edges: EdgeSet): map<string, string> {
    map n | n in edges && edges[n].WorkspaceEdge? :: edges[n].workspaceKey
  }

  function ByPlatform<T>(project: Platform -> T): map<Platform, T> {
    map p: Platform | p in PLATFORMS :: project(p)
  }

  function PackageEdges(known: set<string>, edges: EdgeSet): Result<map<string, string>, BuckFailure> {
    if EntryKeys(edges) <= known then Success(EntryRecord(edges)) else Result.Failure(UnknownStoreEntry)
  }

  /** The one record every platform has. */
  function InvariantRecord(project: Platform -> map<string, string>): Result<map<string, string>, BuckFailure> {
    if forall p | p in PLATFORMS :: project(p) == project(PLATFORMS[0]) then Success(project(PLATFORMS[0]))
    else Result.Failure(VariesByPlatform)
  }

  // ----- Entries -----

  /** An entry outside every component names its own dependencies; a member names its component. */
  function RenderEntry(known: set<string>, components: nat, grafted: set<string>,
                       e: Entry): Result<EntryRule, BuckFailure> {
    match e.sccIndex
    case Some(i) =>
      if e.packageName in grafted then Result.Failure(CannotGraft(e.storeKey))
      else if i >= components then Result.Failure(UnknownComponent)
      else Success(Member(i))
    case None =>
      if exists p | p in PLATFORMS :: PackageEdges(known, DeclaredEdges(e, p)).Failure?
        then Result.Failure(UnknownStoreEntry)
      else
        var workspaces :- InvariantRecord(p => WorkspaceRecord(DeclaredEdges(e, p)));
        if |workspaces| > 0 then Result.Failure(EntryNeedsWorkspace(e.storeKey))
        else Success(Plain(ByPlatform(p => EntryRecord(DeclaredEdges(e, p)))))
  }

  ghost predicate NoWorkspaces(edges: EdgeSet) {
    forall n | n in edges :: edges[n].EntryEdge?
  }

  /** The two workspace checks of an entry pass exactly when it leads to no workspace on any platform. */
  lemma EntryRendersIff(known: set<string>, components: nat, grafted: set<string>, e: Entry)
    ensures RenderEntry(known, components, grafted, e).Success? <==>
      match e.sccIndex
      case Some(i) => e.packageName !in grafted && i < components
      case None => forall p :: EntryKeys(DeclaredEdges(e, p)) <= known && NoWorkspaces(DeclaredEdges(e, p))
  {
    hide EntryKeys, DeclaredEdges, EntryRecord;
    if e.sccIndex.None? {
      forall p: Platform
        ensures p in PLATFORMS
        ensures WorkspaceRecord(DeclaredEdges(e, p)) == map[] <==> NoWorkspaces(DeclaredEdges(e, p))
      {
        EveryPlatform(p);
        NoWorkspaceRecord(DeclaredEdges(e, p));
      }
      var record := p => WorkspaceRecord(DeclaredEdges(e, p));
      assert record(PLATFORMS[0]) == map[] <==> |record(PLATFORMS[0])| == 0;
    }
  }

  lemma NoWorkspaceRecord(edges: EdgeSet)
    ensures WorkspaceRecord(edges) == map[] <==> NoWorkspaces(edges)
  {
    if WorkspaceRecord(edges) == map[] {
      forall n | n in edges
        ensures edges[n].EntryEdge?
      {
        assert n !in WorkspaceRecord(edges);
      }
    }
  }

  // ----- Components -----

  /** A member's entry edges that stay among the members, or that leave them. */
  ghost function MemberPorts(members: seq<string>, inside: bool, storeKey: string, edges: EdgeSet): Ports {
    map n | n in edges && edges[n].EntryEdge? && (edges[n].storeKey in members <==> inside) ::
      Port(storeKey, n) := edges[n].storeKey
  }

  ghost function PortsOf(byKey: map<string, Entry>, members: seq<string>, inside: bool, done: seq<string>,
                         p: Platform): Ports {
    if done == [] then map[]
    else
      var n := |done| - 1;
      PortsOf(byKey, members, inside, done[..n], p)
      + if done[n] in byKey then MemberPorts(members, inside, done[n], DeclaredEdges(byKey[done[n]], p)) else map[]
  }

  method AddPorts(members: seq<string>, inside: bool, storeKey: string, edges: EdgeSet, ports: Ports) returns (r: Ports)
    ensures r == ports + MemberPorts(members, inside, storeKey, edges)
  {
    hide MemberPorts;
    var names := SortedNames(edges.Keys);
    r := ports;
    ghost var seen: EdgeSet := map[];
    NoPorts(members, inside, storeKey);
    for i := 0 to |names|
      invariant forall n :: n in seen <==> n in names[..i]
      invariant forall n | n in seen :: n in edges && seen[n] == edges[n]
      invariant r == ports + MemberPorts(members, inside, storeKey, seen)
    {
      TakeOneMore(names, i);
      NameUnseen(names, i);
      var edge := edges[names[i]];
      OneMorePort(members, inside, storeKey, seen, names[i], edge);
      if edge.EntryEdge? && (edge.storeKey in members <==> inside) {
        MergeUpdate(ports, MemberPorts(members, inside, storeKey, seen), Port(storeKey, names[i]), edge.storeKey);
        r := r[Port(storeKey, names[i]) := edge.storeKey];
      }
      seen := seen[names[i] := edge];
    }
    assert names[..|names|] == names;
    assert seen == edges;
  }

  lemma NoPorts(members: seq<string>, inside: bool, storeKey: string)
    ensures MemberPorts(members, inside, storeKey, map[]) == map[]
  {
  }

  lemma OneMorePort(members: seq<string>, inside: bool, storeKey: string, edges: EdgeSet, n: string, edge: Edge)
    requires n !in edges
    ensures
      var before := MemberPorts(members, inside, storeKey, edges);
      MemberPorts(members, inside, storeKey, edges[n := edge])
      == if edge.EntryEdge? && (edge.storeKey in members <==> inside)
         then before[Port(storeKey, n) := edge.storeKey] else before
  {
  }

  method InternalPorts(byKey: map<string, Entry>, members: seq<string>, p: Platform)
    returns (r: Result<Ports, BuckFailure>)
    ensures r.Success? <==> forall m | m in members :: m in byKey
    ensures r.Success? ==> r.value == PortsOf(byKey, members, true, members, p)
  {
    hide MemberPorts, DeclaredEdges;
    var ports: Ports := map[];
    for i := 0 to |members|
      invariant forall j | 0 <= j < i :: members[j] in byKey
      invariant ports == PortsOf(byKey, members, true, members[..i], p)
    {
      TakeOneMore(members, i);
      if members[i] !in byKey {
        return Result.Failure(UnknownStoreEntry);
      }
      ports := AddPorts(members, true, members[i], DeclaredEdges(byKey[members[i]], p), ports);
      assert members[..i + 1][..i] == members[..i];
    }
    assert members[..|members|] == members;
    return Success(ports);
  }

  /** Members are known, and lead to known entries only. */
  ghost predicate MemberRenders(byKey: map<string, Entry>, m: string, p: Platform) {
    m in byKey && NoWorkspaces(DeclaredEdges(byKey[m], p)) && EntryKeys(DeclaredEdges(byKey[m], p)) <= byKey.Keys
  }

  method ExternalPorts(byKey: map<string, Entry>, members: seq<string>, p: Platform)
    returns (r: Result<Ports, BuckFailure>)
    requires forall m | m in members :: m in byKey
    ensures r.Success? <==> forall m | m in members :: MemberRenders(byKey, m, p)
    ensures r.Success? ==> r.value == PortsOf(byKey, members, false, members, p)
  {
    hide MemberPorts, DeclaredEdges;
    var ports: Ports := map[];
    for i := 0 to |members|
      invariant forall j | 0 <= j < i :: MemberRenders(byKey, members[j], p)
      invariant ports == PortsOf(byKey, members, false, members[..i], p)
    {
      TakeOneMore(members, i);
      var edges := DeclaredEdges(byKey[members[i]], p);
      if exists n | n in edges :: edges[n].WorkspaceEdge? {
        return Result.Failure(MemberNeedsWorkspace(members[i]));
      }
      if exists n | n in edges && edges[n].storeKey !in members :: edges[n].storeKey !in byKey {
        UnknownTarget(byKey, members[i], edges, p);
        return Result.Failure(UnknownStoreEntry);
      }
      KnownTargets(byKey, members, edges);
      ports := AddPorts(members, false, members[i], edges, ports);
      assert members[..i + 1][..i] == members[..i];
    }
    assert members[..|members|] == members;
    return Success(ports);
  }

  lemma UnknownTarget(byKey: map<string, Entry>, m: string, edges: EdgeSet, p: Platform)
    requires m in byKey && edges == DeclaredEdges(byKey[m], p)
    requires forall n | n in edges :: edges[n].EntryEdge?
    requires exists n :: n in edges && edges[n].storeKey !in byKey
    ensures !MemberRenders(byKey, m, p)
  {
    hide DeclaredEdges;
    var n :| n in edges && edges[n].storeKey !in byKey;
    assert edges[n].storeKey in EntryKeys(edges);
  }

  lemma KnownTargets(byKey: map<string, Entry>, members: seq<string>, edges: EdgeSet)
    requires forall m | m in members :: m in byKey
    requires forall n | n in edges :: edges[n].EntryEdge?
    requires forall n | n in edges && edges[n].storeKey !in members :: edges[n].storeKey in byKey
    ensures EntryKeys(edges) <= byKey.Keys
  {
  }

  method RenderScc(byKey: map<string, Entry>, members: seq<string>) returns (r: Result<SccRule, BuckFailure>)
    ensures r.Success? <==> forall m, p | m in members :: MemberRenders(byKey, m, p)
    ensures r.Success? ==> SccRendered(byKey, members, r.value)
  {
    hide MemberRenders, PortsOf;
    var internal: map<Platform, Ports> := map[];
    for i := 0 to |PLATFORMS|
      invariant forall p :: p in internal <==> p in PLATFORMS[..i]
      invariant forall p | p in internal :: internal[p] == PortsOf(byKey, members, true, members, p)
      invariant i > 0 ==> forall m | m in members :: m in byKey
    {
      TakeOneMore(PLATFORMS, i);
      var ports := InternalPorts(byKey, members, PLATFORMS[i]);
      if ports.Failure? {
        RenderedAreKnown(byKey, members);
        return Result.Failure(ports.error);
      }
      internal := internal[PLATFORMS[i] := ports.value];
    }
    var external: map<Platform, Ports> := map[];
    for i := 0 to |PLATFORMS|
      invariant forall p :: p in external <==> p in PLATFORMS[..i]
      invariant forall p | p in external :: external[p] == PortsOf(byKey, members, false, members, p)
      invariant forall p, m | p in external && m in members :: MemberRenders(byKey, m, p)
    {
      TakeOneMore(PLATFORMS, i);
      var ports := ExternalPorts(byKey, members, PLATFORMS[i]);
      if ports.Failure? {
        return Result.Failure(ports.error);
      }
      external := external[PLATFORMS[i] := ports.value];
    }
    assert PLATFORMS[..|PLATFORMS|] == PLATFORMS;
    forall p: Platform
      ensures p in internal && p in external
    {
      EveryPlatform(p);
    }
    return Success(SccRule(internal, external));
  }

  lemma RenderedAreKnown(byKey: map<string, Entry>, members: seq<string>)
    ensures (forall m, p | m in members :: MemberRenders(byKey, m, p)) ==> forall m | m in members :: m in byKey
  {
    assert forall m | MemberRenders(byKey, m, JavascriptPortable) :: m in byKey;
  }

  ghost predicate SccRendered(byKey: map<string, Entry>, members: seq<string>, rule: SccRule) {
    forall p: Platform ::
      && p in rule.internal && rule.internal[p] == PortsOf(byKey, members, true, members, p)
      && p in rule.external && rule.external[p] == PortsOf(byKey, members, false, members, p)
  }

  // ----- Views -----

  function Variant(view: View, p: Platform): ViewValue {
    match Find(view.variants, p)
    case None => ViewValue(map[], map[], [])
    case Some(value) => value
  }

  predicate HasVariant(view: View, p: Platform) {
    Find(view.variants, p).Some?
  }

  predicate ClosureKnown(known: set<string>, view: View, p: Platform) {
    forall k | k in Variant(view, p).closure :: k in known
  }

  function RenderView(known: set<string>, view: View): Result<ViewRule, BuckFailure> {
    if exists p | p in PLATFORMS :: !HasVariant(view, p) then Result.Failure(NoVariant(view.importer))
    else if exists p | p in PLATFORMS :: !ClosureKnown(known, view, p) then
      Result.Failure(UnknownStoreEntry)
    else
      var workspaces :- InvariantRecord(p => WorkspaceRecord(Variant(view, p).direct));
      Success(ViewRule(
                ByPlatform(p => EntryRecord(Variant(view, p).direct)),
                ByPlatform(p => Variant(view, p).closure),
                ByPlatform(p => Variant(view, p).bins),
                view.workspaceTrees,
                workspaces))
  }

  lemma ViewRendersIff(known: set<string>, view: View)
    ensures RenderView(known, view).Success? <==>
      && (forall p :: HasVariant(view, p))
      && (forall p, k | k in Variant(view, p).closure :: k in known)
      && (forall p, q :: WorkspaceRecord(Variant(view, p).direct) == WorkspaceRecord(Variant(view, q).direct))
  {
    hide WorkspaceRecord, EntryRecord, Find;
    forall p: Platform ensures p in PLATFORMS { EveryPlatform(p); }
    if (forall p :: HasVariant(view, p)) && (forall p, k | k in Variant(view, p).closure :: k in known) {
      assert forall p: Platform :: ClosureKnown(known, view, p);
      assert RenderView(known, view).Success?
          <==> InvariantRecord(p => WorkspaceRecord(Variant(view, p).direct)).Success?;
      var record := p => WorkspaceRecord(Variant(view, p).direct);
      InvariantIff(record);
      assert forall p :: record(p) == WorkspaceRecord(Variant(view, p).direct);
    } else if p :| !HasVariant(view, p) {
      assert p in PLATFORMS;
    } else {
      var p, k :| k in Variant(view, p).closure && k !in known;
      assert p in PLATFORMS && !ClosureKnown(known, view, p);
    }
  }

  lemma InvariantIff(project: Platform -> map<string, string>)
    ensures InvariantRecord(project).Success? <==> forall p, q :: project(p) == project(q)
  {
    forall p: Platform ensures p in PLATFORMS { EveryPlatform(p); }
  }

  // ----- The whole store -----

  method IndexEntries(entries: seq<Entry>) returns (byKey: map<string, Entry>)
    ensures byKey == EntryIndex(entries)
  {
    byKey := map[];
    for i := 0 to |entries|
      invariant byKey == EntryIndex(entries[..i])
    {
      assert entries[..i + 1][..i] == entries[..i];
      byKey := byKey[entries[i].storeKey := entries[i]];
    }
    assert entries[..|entries|] == entries;
  }

  ghost function EntryIndex(entries: seq<Entry>): map<string, Entry> {
    if entries == [] then map[]
    else
      var last := entries[|entries| - 1];
      EntryIndex(entries[..|entries| - 1])[last.storeKey := last]
  }

  ghost predicate IsMember(sccs: seq<seq<string>>, m: string) {
    exists i :: 0 <= i < |sccs| && m in sccs[i]
  }

  ghost predicate Renders(pr: Projection, grafted: set<string>, byKey: map<string, Entry>) {
    && (forall m, p | IsMember(pr.sccs, m) :: MemberRenders(byKey, m, p))
    && (forall i | 0 <= i < |pr.entries| :: RenderEntry(byKey.Keys, |pr.sccs|, grafted, pr.entries[i]).Success?)
    && (forall i | 0 <= i < |pr.views| :: RenderView(byKey.Keys, pr.views[i]).Success?)
  }

  datatype Declared<+R> = Declared(name: string, rule: R)

  datatype Declarations = Declarations(sccs: seq<SccRule>, entries: seq<Declared<EntryRule>>,
    views: seq<Declared<ViewRule>>)

  ghost predicate Rendered(pr: Projection, grafted: set<string>, byKey: map<string, Entry>, d: Declarations) {
    && |d.sccs| == |pr.sccs| && |d.entries| == |pr.entries| && |d.views| == |pr.views|
    && (forall i | 0 <= i < |pr.sccs| :: SccRendered(byKey, pr.sccs[i], d.sccs[i]))
    && (forall i | 0 <= i < |pr.entries| :: d.entries[i].name == pr.entries[i].storeKey
          && RenderEntry(byKey.Keys, |pr.sccs|, grafted, pr.entries[i]) == Success(d.entries[i].rule))
    && (forall i | 0 <= i < |pr.views| :: d.views[i].name == pr.views[i].importer
          && RenderView(byKey.Keys, pr.views[i]) == Success(d.views[i].rule))
  }

  method RenderPnpmStoreBuck(pr: Projection, grafted: set<string>) returns (r: Result<Declarations, BuckFailure>)
    ensures r.Success? <==> Renders(pr, grafted, EntryIndex(pr.entries))
    ensures r.Success? ==> Rendered(pr, grafted, EntryIndex(pr.entries), r.value)
  {
    hide SccRendered, MemberRenders, RenderEntry, RenderView, EntryIndex;
    var byKey := IndexEntries(pr.entries);
    var sccs: seq<SccRule> := [];
    for i := 0 to |pr.sccs|
      invariant |sccs| == i && forall j | 0 <= j < i :: SccRendered(byKey, pr.sccs[j], sccs[j])
      invariant forall j, m, p | 0 <= j < i && m in pr.sccs[j] :: MemberRenders(byKey, m, p)
    {
      var rule := RenderScc(byKey, pr.sccs[i]);
      if rule.Failure? {
        return Result.Failure(rule.error);
      }
      sccs := sccs + [rule.value];
    }
    var entries: seq<Declared<EntryRule>> := [];
    for i := 0 to |pr.entries|
      invariant |entries| == i
      invariant forall j | 0 <= j < i :: entries[j].name == pr.entries[j].storeKey
      invariant forall j | 0 <= j < i ::
        RenderEntry(byKey.Keys, |pr.sccs|, grafted, pr.entries[j]) == Success(entries[j].rule)
    {
      var rule := RenderEntry(byKey.Keys, |pr.sccs|, grafted, pr.entries[i]);
      if rule.Failure? {
        return Result.Failure(rule.error);
      }
      entries := entries + [Declared(pr.entries[i].storeKey, rule.value)];
    }
    var views: seq<Declared<ViewRule>> := [];
    for i := 0 to |pr.views|
      invariant |views| == i
      invariant forall j | 0 <= j < i :: views[j].name == pr.views[j].importer
      invariant forall j | 0 <= j < i :: RenderView(byKey.Keys, pr.views[j]) == Success(views[j].rule)
    {
      var rule := RenderView(byKey.Keys, pr.views[i]);
      if rule.Failure? {
        return Result.Failure(rule.error);
      }
      views := views + [Declared(pr.views[i].importer, rule.value)];
    }
    return Success(Declarations(sccs, entries, views));
  }
}
