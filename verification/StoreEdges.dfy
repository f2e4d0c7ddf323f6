/** Which dependency edges one snapshot or importer has on each admitted platform. */
module StoreEdges {
  import opened Common
  import opened Metadata
  import opened Digraphs

  // ----- Platforms -----

  datatype Platform = JavascriptPortable | LinuxAarch64 | LinuxX86_64 | MacosAarch64

  const PLATFORMS: seq<Platform> := [JavascriptPortable, LinuxAarch64, LinuxX86_64, MacosAarch64]

  datatype Machine = Machine(cpu: Option<string>, libc: Option<string>, os: Option<string>)

  function PlatformValues(platform: Platform): Machine {
    match platform
    case JavascriptPortable => Machine(None, None, None)
    case LinuxAarch64 => Machine(Some("arm64"), Some("glibc"), Some("linux"))
    case LinuxX86_64 => Machine(Some("x64"), Some("glibc"), Some("linux"))
    case MacosAarch64 => Machine(Some("arm64"), None, Some("darwin"))
  }

  predicate PlatformAllows(constraints: seq<string>, value: Option<string>) {
    match value
    case None => constraints == []
    case Some(v) =>
      && ("!" + v) !in constraints
      && ((forall c | c in constraints :: "!" <= c) || (v in constraints && !("!" <= v)))
  }

  predicate PackageAllowed(p: Package, platform: Platform) {
    if platform == JavascriptPortable then
      p.cpu == [] && p.os == [] && p.libc == []
    else
      var values := PlatformValues(platform);
      && PlatformAllows(p.cpu, values.cpu)
      && PlatformAllows(p.os, values.os)
      && (values.os != Some("linux") || PlatformAllows(p.libc, values.libc))
  }

  /** What runs on no particular machine runs on every one. */
  lemma PortableIsAllowedEverywhere(p: Package, platform: Platform)
    requires PackageAllowed(p, JavascriptPortable)
    ensures PackageAllowed(p, platform)
  {
  }

  /** A list admits a machine's value: it does not bar it, and names it if it names anything. */
  ghost predicate Selects(constraints: seq<string>, value: string) {
    && ("!" + value) !in constraints
    && ((exists c :: c in constraints && (c == "" || c[0] != '!')) ==> value in constraints)
  }

  /** The platforms a package is for, by the values of the machines themselves. */
  ghost predicate RunsOn(p: Package, platform: Platform) {
    match platform
    case JavascriptPortable => p.cpu == [] && p.os == [] && p.libc == []
    case LinuxAarch64 => Selects(p.cpu, "arm64") && Selects(p.os, "linux") && Selects(p.libc, "glibc")
    case LinuxX86_64 => Selects(p.cpu, "x64") && Selects(p.os, "linux") && Selects(p.libc, "glibc")
    case MacosAarch64 => Selects(p.cpu, "arm64") && Selects(p.os, "darwin")
  }

  lemma AllowsIff(constraints: seq<string>, value: string)
    requires value != "" && value[0] != '!'
    ensures PlatformAllows(constraints, Some(value)) <==> Selects(constraints, value)
  {
    forall c: string
      ensures "!" <= c <==> c != "" && c[0] == '!'
    {
    }
  }

  /** A package is admitted exactly where its three lists select the machine; libc is consulted on Linux only. */
  lemma AllowedIff(p: Package, platform: Platform)
    ensures PackageAllowed(p, platform) <==> RunsOn(p, platform)
  {
    hide Selects, PlatformAllows;
    AllowsIff(p.cpu, "arm64");
    AllowsIff(p.cpu, "x64");
    AllowsIff(p.os, "linux");
    AllowsIff(p.os, "darwin");
    AllowsIff(p.libc, "glibc");
  }

  /** Of lists that bar nothing, the empty one admits every machine and any other just those it names. */
  lemma NamedMachines(p: Package)
    requires forall c | c in p.cpu || c in p.os || c in p.libc :: c != "" && c[0] != '!'
    ensures PackageAllowed(p, LinuxX86_64) <==>
      (p.cpu == [] || "x64" in p.cpu) && (p.os == [] || "linux" in p.os) && (p.libc == [] || "glibc" in p.libc)
    ensures PackageAllowed(p, LinuxAarch64) <==>
      (p.cpu == [] || "arm64" in p.cpu) && (p.os == [] || "linux" in p.os) && (p.libc == [] || "glibc" in p.libc)
    ensures PackageAllowed(p, MacosAarch64) <==>
      (p.cpu == [] || "arm64" in p.cpu) && (p.os == [] || "darwin" in p.os)
  {
    hide PackageAllowed;
    AllowedIff(p, LinuxX86_64);
    AllowedIff(p, LinuxAarch64);
    AllowedIff(p, MacosAarch64);
    NamesSelect(p.cpu, "x64");
    NamesSelect(p.cpu, "arm64");
    NamesSelect(p.os, "linux");
    NamesSelect(p.os, "darwin");
    NamesSelect(p.libc, "glibc");
  }

  lemma NamesSelect(constraints: seq<string>, value: string)
    requires forall c | c in constraints :: c != "" && c[0] != '!'
    ensures Selects(constraints, value) <==> constraints == [] || value in constraints
  {
    assert ("!" + value)[0] == '!';
    if constraints != [] { assert constraints[0] in constraints; }
  }

  /** Lists that only bar machines admit exactly those they do not bar. */
  lemma BarredMachines(p: Package)
    requires forall c | c in p.cpu || c in p.os || c in p.libc :: c != "" && c[0] == '!'
    ensures PackageAllowed(p, LinuxX86_64) <==> "!x64" !in p.cpu && "!linux" !in p.os && "!glibc" !in p.libc
    ensures PackageAllowed(p, LinuxAarch64) <==> "!arm64" !in p.cpu && "!linux" !in p.os && "!glibc" !in p.libc
    ensures PackageAllowed(p, MacosAarch64) <==> "!arm64" !in p.cpu && "!darwin" !in p.os
  {
    hide PackageAllowed;
    AllowedIff(p, LinuxX86_64);
    AllowedIff(p, LinuxAarch64);
    AllowedIff(p, MacosAarch64);
    assert "!" + "x64" == "!x64" && "!" + "arm64" == "!arm64" && "!" + "linux" == "!linux";
    assert "!" + "darwin" == "!darwin" && "!" + "glibc" == "!glibc";
  }

  /** Barring a machine overrides naming it. */
  lemma BarringOverrides(p: Package)
    ensures "!x64" in p.cpu || "!linux" in p.os || "!glibc" in p.libc ==> !PackageAllowed(p, LinuxX86_64)
    ensures "!arm64" in p.cpu || "!linux" in p.os || "!glibc" in p.libc ==> !PackageAllowed(p, LinuxAarch64)
    ensures "!arm64" in p.cpu || "!darwin" in p.os ==> !PackageAllowed(p, MacosAarch64)
  {
    hide PackageAllowed;
    AllowedIff(p, LinuxX86_64);
    AllowedIff(p, LinuxAarch64);
    AllowedIff(p, MacosAarch64);
    assert "!" + "x64" == "!x64" && "!" + "arm64" == "!arm64" && "!" + "linux" == "!linux";
    assert "!" + "darwin" == "!darwin" && "!" + "glibc" == "!glibc";
  }

  // ----- Errors of the projection -----

  datatype Failure =
    | UnknownSnapshot(key: string)
    | UnknownPackage(key: string)
    | NoWorkspacePath(key: string)
    | Incompatible(snapshot: string, platform: Platform)
    | CompanionVersions(name: string)
    | InTwoComponents(storeKey: string)
    | KeyCollision(storeKey: string)
    | UnknownEntry(storeKey: string)
    | AbsentEntry(storeKey: string, platform: Platform)

  // ----- Type companions -----

  predicate LineBreak(c: char) {
    c == '\n' || c == '\r' || c == '\U{2028}' || c == '\U{2029}'
  }

  /** Drops the text from the first parenthesis that no line break follows. */
  function CutPeers(key: string): string {
    if key == [] || (key[0] == '(' && forall c | c in key :: !LineBreak(c)) then []
    else [key[0]] + CutPeers(key[1..])
  }

  lemma {:induction false} CutsNothing(key: string)
    requires '(' !in key
    ensures CutPeers(key) == key
  {
    if key != [] { CutsNothing(key[1..]); }
  }

  datatype NameVersion = NameVersion(name: string, version: string)

  function ParseVirtualStoreKey(key: string): NameVersion {
    var withoutPeers := CutPeers(key);
    var at := LastIndexOf(withoutPeers, '@');
    if at <= 0 then NameVersion(ReplaceAll(withoutPeers, '+', "/"), "")
    else NameVersion(ReplaceAll(withoutPeers[..at], '+', "/"), withoutPeers[at + 1..])
  }

  function TypesCompanionName(name: string): string {
    if "@" <= name then "@types/" + ReplaceAll(name[1..], '/', "__") else "@types/" + name
  }

  predicate IsStorePackage(md: Lock, key: string) {
    && key in md.snapshots
    && md.snapshots[key].package in md.packages
    && md.packages[md.snapshots[key].package].resolution.Registry?
  }

  function PackageOf(md: Lock, key: string): Package
    requires IsStorePackage(md, key)
  {
    md.packages[md.snapshots[key].package]
  }

  /** The snapshots of the type companion with this name. */
  ghost predicate Candidate(md: Lock, name: string, key: string) {
    IsStorePackage(md, key) && PackageOf(md, key).name == name && "@types/" <= name
  }

  /** More peers first, then the earlier key. */
  predicate Preferred(md: Lock, a: string, b: string)
    requires a in md.snapshots && b in md.snapshots
  {
    var p, q := |md.snapshots[a].peerIdentities|, |md.snapshots[b].peerIdentities|;
    p > q || (p == q && Before(a, b))
  }

  /** The most qualified candidate, all of whose fellow candidates have its version. */
  ghost predicate ChosenFor(md: Lock, name: string, best: string) {
    && Candidate(md, name, best)
    && forall key | Candidate(md, name, key) ::
         PackageOf(md, key).version == PackageOf(md, best).version && (key == best || Preferred(md, best, key))
  }

  /** Each companion name of the lockfile maps to its most qualified snapshot, and to one version only. */
  ghost predicate IsCompanions(md: Lock, companions: map<string, string>) {
    && (forall name, key | Candidate(md, name, key) :: name in companions)
    && (forall name | name in companions :: ChosenFor(md, name, companions[name]))
  }

  lemma PreferredOneWay(md: Lock, a: string, b: string)
    requires a in md.snapshots && b in md.snapshots && Preferred(md, a, b)
    ensures !Preferred(md, b, a)
  {
    BeforeIrreflexive(a);
    if Before(a, b) && Before(b, a) {
      BeforeTransitive(a, b, a);
    }
  }

  /** The companion choice does not depend on any visit order. */
  lemma CompanionsUnique(md: Lock, a: map<string, string>, b: map<string, string>)
    requires IsCompanions(md, a) && IsCompanions(md, b)
    ensures a == b
  {
    forall name | name in a && name in b
      ensures a[name] == b[name]
    {
      if a[name] != b[name] {
        PreferredOneWay(md, a[name], b[name]);
      }
    }
  }

  lemma PreferredTotal(md: Lock, a: string, b: string)
    requires a in md.snapshots && b in md.snapshots
    ensures a == b || Preferred(md, a, b) || Preferred(md, b, a)
  {
    BeforeTotal(a, b);
  }

  lemma PreferredTransitive(md: Lock, a: string, b: string, c: string)
    requires a in md.snapshots && b in md.snapshots && c in md.snapshots
    requires Preferred(md, a, b) && Preferred(md, b, c)
    ensures Preferred(md, a, c)
  {
    if Before(a, b) && Before(b, c) {
      BeforeTransitive(a, b, c);
    }
  }

  /** The head of the keys sorted by preference. */
  method MostQualified(md: Lock, keys: seq<string>) returns (best: string)
    requires keys != [] && forall k | k in keys :: k in md.snapshots
    ensures best in keys && forall k | k in keys :: k == best || Preferred(md, best, k)
  {
    best := keys[0];
    for i := 1 to |keys|
      invariant best in keys && forall j | 0 <= j < i :: keys[j] == best || Preferred(md, best, keys[j])
    {
      PreferredTotal(md, best, keys[i]);
      if Preferred(md, keys[i], best) {
        forall j | 0 <= j < i && keys[j] != keys[i]
          ensures Preferred(md, keys[i], keys[j])
        {
          if keys[j] != best { PreferredTransitive(md, keys[i], best, keys[j]); }
        }
        best := keys[i];
      }
    }
  }

  /** The chosen snapshot has the most peers of its fellow candidates, and of those with as many the earliest key. */
  lemma ChosenHasMostPeers(md: Lock, name: string, best: string, key: string)
    requires ChosenFor(md, name, best) && Candidate(md, name, key)
    ensures |md.snapshots[key].peerIdentities| <= |md.snapshots[best].peerIdentities|
    ensures |md.snapshots[key].peerIdentities| == |md.snapshots[best].peerIdentities| ==>
      key == best || Before(best, key)
  {
  }

  ghost predicate PackagesKnown(md: Lock) {
    forall key | key in md.snapshots :: md.snapshots[key].package in md.packages
  }

  ghost predicate OneCompanionVersion(md: Lock) {
    forall name, a, b | Candidate(md, name, a) && Candidate(md, name, b) ::
      PackageOf(md, a).version == PackageOf(md, b).version
  }

  ghost predicate Collected(md: Lock, seen: seq<string>, candidates: map<string, seq<string>>) {
    && (forall name, key | Candidate(md, name, key) && key in seen :: name in candidates && key in candidates[name])
    && (forall name | name in candidates :: candidates[name] != [])
    && (forall name, key | name in candidates && key in candidates[name] :: Candidate(md, name, key))
  }

  method CompanionCandidates(md: Lock) returns (r: Result<map<string, seq<string>>, Failure>)
    ensures r.Success? <==> PackagesKnown(md)
    ensures r.Success? ==>
      exists seen :: Collected(md, seen, r.value) && forall key | key in md.snapshots :: key in seen
  {
    var keys := SortedNames(md.snapshots.Keys);
    var candidates := map[];
    for i := 0 to |keys|
      invariant Collected(md, keys[..i], candidates)
      invariant forall j | 0 <= j < i :: md.snapshots[keys[j]].package in md.packages
    {
      var key := keys[i];
      assert keys[..i + 1] == keys[..i] + [key];
      if md.snapshots[key].package !in md.packages {
        return Result.Failure(UnknownPackage(md.snapshots[key].package));
      }
      var p := PackageOrWorkspace(md, key);
      if p.resolution.Workspace? || !("@types/" <= p.name) {
        continue;
      }
      var forName := if p.name in candidates then candidates[p.name] else [];
      candidates := candidates[p.name := forName + [key]];
    }
    assert keys[..|keys|] == keys;
    return Success(candidates);
  }

  function PackageOrWorkspace(md: Lock, key: string): Package
    requires key in md.snapshots && md.snapshots[key].package in md.packages
  {
    md.packages[md.snapshots[key].package]
  }

  /** Repository-wide resolution of every type companion. */
  method TypesCompanionSnapshots(md: Lock) returns (r: Result<map<string, string>, Failure>)
    ensures r.Success? <==> PackagesKnown(md) && OneCompanionVersion(md)
    ensures r.Success? ==> IsCompanions(md, r.value)
  {
    hide Candidate, Preferred;
    var candidates :- CompanionCandidates(md);
    var names := SortedNames(candidates.Keys);
    var resolved := map[];
    for i := 0 to |names|
      invariant forall name :: name in resolved <==> name in names[..i]
      invariant forall name | name in resolved :: ChosenFor(md, name, resolved[name])
    {
      var name := names[i];
      assert name in names;
      var keys := candidates[name];
      assert forall k | k in keys :: Candidate(md, name, k);
      CandidatesKnown(md, name, keys);
      if exists k | k in keys :: PackageOf(md, k).version != PackageOf(md, keys[0]).version {
        return Result.Failure(CompanionVersions(name));
      }
      var best := MostQualified(md, keys);
      forall key | Candidate(md, name, key)
        ensures key in keys
      {
        CandidatesKnown(md, name, [key]);
      }
      assert names[..i + 1] == names[..i] + [name];
      resolved := resolved[name := best];
    }
    assert names[..|names|] == names;
    forall name, key | Candidate(md, name, key)
      ensures name in resolved
    {
      CandidatesKnown(md, name, [key]);
      assert name in candidates;
    }
    return Success(resolved);
  }

  lemma CandidatesKnown(md: Lock, name: string, keys: seq<string>)
    requires forall k | k in keys :: Candidate(md, name, k)
    ensures forall k | k in keys :: k in md.snapshots && IsStorePackage(md, k)
  {
  }

  function DeclaredNames(s: Snapshot): set<string> {
    s.dependencies.Keys + s.optionalDependencies.Keys
  }

  ghost function PeerCompanionNames(peers: seq<string>): set<string> {
    set p | p in peers && !("@types/" <= ParseVirtualStoreKey(p).name)
        :: TypesCompanionName(ParseVirtualStoreKey(p).name)
  }

  /** Companions of a snapshot's peers that the lockfile has and the snapshot does not declare itself. */
  ghost function PeerTypeCompanionsOf(companions: map<string, string>, s: Snapshot): References {
    map n | n in companions && n in PeerCompanionNames(s.peerIdentities) && n !in DeclaredNames(s)
        :: PackageRef(companions[n])
  }

  lemma OneMorePeerName(before: seq<string>, peer: string)
    ensures PeerCompanionNames(before + [peer])
         == PeerCompanionNames(before)
            + if "@types/" <= ParseVirtualStoreKey(peer).name then {}
              else {TypesCompanionName(ParseVirtualStoreKey(peer).name)}
  {
    hide ParseVirtualStoreKey, TypesCompanionName;
  }

  lemma OneMorePeer(companions: map<string, string>, s: Snapshot, before: seq<string>, peer: string)
    ensures
      var name := ParseVirtualStoreKey(peer).name;
      var n := TypesCompanionName(name);
      var older := PeerTypeCompanionsOf(companions, s.(peerIdentities := before));
      PeerTypeCompanionsOf(companions, s.(peerIdentities := before + [peer]))
      == if "@types/" <= name || n in DeclaredNames(s) || n !in companions then older
         else older[n := PackageRef(companions[n])]
  {
    hide PeerCompanionNames, ParseVirtualStoreKey, TypesCompanionName;
    OneMorePeerName(before, peer);
  }

  method PeerTypeCompanions(companions: map<string, string>, s: Snapshot) returns (result: References)
    ensures result == PeerTypeCompanionsOf(companions, s)
  {
    hide PeerTypeCompanionsOf;
    result := map[];
    NoPeers(companions, s);
    for i := 0 to |s.peerIdentities|
      invariant result == PeerTypeCompanionsOf(companions, s.(peerIdentities := s.peerIdentities[..i]))
    {
      var name := ParseVirtualStoreKey(s.peerIdentities[i]).name;
      OneMorePeer(companions, s, s.peerIdentities[..i], s.peerIdentities[i]);
      assert s.peerIdentities[..i + 1] == s.peerIdentities[..i] + [s.peerIdentities[i]];
      if "@types/" <= name {
        continue;
      }
      var companionName := TypesCompanionName(name);
      if companionName in DeclaredNames(s) || companionName !in companions {
        continue;
      }
      result := result[companionName := PackageRef(companions[companionName])];
    }
    assert s.peerIdentities[..|s.peerIdentities|] == s.peerIdentities;
  }

  lemma NoPeers(companions: map<string, string>, s: Snapshot)
    ensures PeerTypeCompanionsOf(companions, s.(peerIdentities := s.peerIdentities[..0])) == map[]
  {
  }

  // ----- Edges -----

  datatype Edge = EntryEdge(storeKey: string) | WorkspaceEdge(workspaceKey: string, workspacePath: string)

  type EdgeSet = map<string, Edge>

  /**
   * A lockfile seen from one platform; workspaceKey is the digest-based key
   * the repository derives from an importer path.
   */
  datatype Config = Config(md: Lock, platform: Platform, workspaceKey: string -> string)

  function ResolveEdge(c: Config, optional: bool, reference: Reference)
    : Result<Option<Edge>, Failure>
  {
    if reference.WorkspaceRef? then
      Success(Some(WorkspaceEdge(c.workspaceKey(reference.path), reference.path)))
    else if reference.snapshot !in c.md.snapshots then
      Result.Failure(UnknownSnapshot(reference.snapshot))
    else
      var snapshot := c.md.snapshots[reference.snapshot];
      if snapshot.package !in c.md.packages then
        Result.Failure(UnknownPackage(snapshot.package))
      else
        var p := c.md.packages[snapshot.package];
        if p.resolution.Workspace? then
          match p.workspacePath
          case None => Result.Failure(NoWorkspacePath(snapshot.package))
          case Some(path) => Success(Some(WorkspaceEdge(c.workspaceKey(path), path)))
        else if PackageAllowed(p, c.platform) then
          Success(Some(EntryEdge(snapshot.virtualStoreName)))
        else if optional || snapshot.optional then
          Success(None)
        else
          Result.Failure(Incompatible(reference.snapshot, c.platform))
  }

  ghost predicate GroupResolves(c: Config, optional: bool, group: References) {
    forall n | n in group :: ResolveEdge(c, optional, group[n]).Success?
  }

  ghost predicate HasEdge(c: Config, optional: bool, reference: Reference) {
    var r := ResolveEdge(c, optional, reference);
    r.Success? && r.value.Some?
  }

  /** The names of a group that resolve to an edge, with their edges. */
  ghost function GroupEdges(c: Config, optional: bool, group: References): EdgeSet {
    map n | n in group && HasEdge(c, optional, group[n]) ::
      ResolveEdge(c, optional, group[n]).value.value
  }

  lemma OneMoreEdge(c: Config, optional: bool, group: References, name: string, reference: Reference)
    requires name !in group
    ensures
      var before := GroupEdges(c, optional, group);
      GroupEdges(c, optional, group[name := reference])
      == if HasEdge(c, optional, reference)
         then before[name := ResolveEdge(c, optional, reference).value.value]
         else before
  {
  }

  lemma MergeUpdate<K, V>(base: map<K, V>, m: map<K, V>, k: K, v: V)
    ensures base + m[k := v] == (base + m)[k := v]
  {
  }

  /** Adds a group's edges to a record; a name already there is overwritten. */
  method AddGroup(c: Config, optional: bool, group: References, edges: EdgeSet) returns (r: Result<EdgeSet, Failure>)
    ensures r.Success? <==> GroupResolves(c, optional, group)
    ensures r.Success? ==> r.value == edges + GroupEdges(c, optional, group)
    ensures r.Failure? ==> exists n :: n in group && ResolveEdge(c, optional, group[n]) == Result.Failure(r.error)
  {
    hide GroupEdges, ResolveEdge;
    var names := SortedNames(group.Keys);
    var result := edges;
    ghost var seen: References := map[];
    NoEdges(c, optional);
    for i := 0 to |names|
      invariant forall n :: n in seen <==> n in names[..i]
      invariant forall n | n in seen :: n in group && seen[n] == group[n]
      invariant GroupResolves(c, optional, seen)
      invariant result == edges + GroupEdges(c, optional, seen)
    {
      var name := names[i];
      assert name in names;
      var edge := ResolveEdge(c, optional, group[name]);
      if edge.Failure? {
        return Result.Failure(edge.error);
      }
      NameUnseen(names, i);
      OneMoreEdge(c, optional, seen, name, group[name]);
      assert names[..i + 1] == names[..i] + [name];
      if edge.value.Some? {
        MergeUpdate(edges, GroupEdges(c, optional, seen), name, edge.value.value);
        result := result[name := edge.value.value];
      }
      seen := seen[name := group[name]];
    }
    assert names[..|names|] == names;
    assert seen == group;
    return Success(result);
  }

  lemma NoEdges(c: Config, optional: bool)
    ensures GroupEdges(c, optional, map[]) == map[]
  {
  }

  lemma NameUnseen(names: seq<string>, i: nat)
    requires Sorted(names) && i < |names|
    ensures names[i] !in names[..i]
  {
    BeforeIrreflexive(names[i]);
  }

  // ----- The edges of a snapshot and of an importer -----

  ghost predicate SnapshotResolves(c: Config, companions: map<string, string>, s: Snapshot) {
    && GroupResolves(c, false, s.dependencies)
    && GroupResolves(c, true, s.optionalDependencies)
    && GroupResolves(c, true, PeerTypeCompanionsOf(companions, s))
  }

  /** Later groups overwrite earlier ones, name by name. */
  ghost function SnapshotEdgesOf(c: Config, companions: map<string, string>, s: Snapshot): EdgeSet {
    GroupEdges(c, false, s.dependencies)
    + GroupEdges(c, true, s.optionalDependencies)
    + GroupEdges(c, true, PeerTypeCompanionsOf(companions, s))
  }

  method SnapshotEdges(c: Config, companions: map<string, string>, key: string) returns (r: Result<EdgeSet, Failure>)
    ensures r.Success? <==> key in c.md.snapshots && SnapshotResolves(c, companions, c.md.snapshots[key])
    ensures r.Success? ==> r.value == SnapshotEdgesOf(c, companions, c.md.snapshots[key])
  {
    hide GroupEdges, GroupResolves, PeerTypeCompanionsOf, ResolveEdge;
    if key !in c.md.snapshots {
      return Result.Failure(UnknownSnapshot(key));
    }
    var s := c.md.snapshots[key];
    var edges :- AddGroup(c, false, s.dependencies, map[]);
    edges :- AddGroup(c, true, s.optionalDependencies, edges);
    var peers := PeerTypeCompanions(companions, s);
    edges :- AddGroup(c, true, peers, edges);
    return Success(edges);
  }

  ghost predicate ImporterResolves(c: Config, importer: Importer) {
    && GroupResolves(c, false, importer.dependencies)
    && GroupResolves(c, false, importer.devDependencies)
    && GroupResolves(c, true, importer.optionalDependencies)
  }

  ghost function ImporterEdgesOf(c: Config, importer: Importer): EdgeSet {
    GroupEdges(c, false, importer.dependencies)
    + GroupEdges(c, false, importer.devDependencies)
    + GroupEdges(c, true, importer.optionalDependencies)
  }

  method ImporterEdges(c: Config, importer: Importer) returns (r: Result<EdgeSet, Failure>)
    ensures r.Success? <==> ImporterResolves(c, importer)
    ensures r.Success? ==> r.value == ImporterEdgesOf(c, importer)
  {
    hide GroupEdges, GroupResolves, ResolveEdge;
    var edges :- AddGroup(c, false, importer.dependencies, map[]);
    edges :- AddGroup(c, false, importer.devDependencies, edges);
    edges :- AddGroup(c, true, importer.optionalDependencies, edges);
    return Success(edges);
  }

  // ----- The platform-union graph -----

  ghost predicate RefersTo(s: Snapshot, companions: map<string, string>, target: string) {
    || (exists n :: n in s.dependencies && s.dependencies[n] == PackageRef(target))
    || (exists n :: n in s.optionalDependencies && s.optionalDependencies[n] == PackageRef(target))
    || (exists n :: n in PeerTypeCompanionsOf(companions, s)
         && PeerTypeCompanionsOf(companions, s)[n] == PackageRef(target))
  }

  /** Every store snapshot, with the store snapshots any of its references name. */
  ghost predicate IsUnionGraph(md: Lock, companions: map<string, string>, g: Graph<string>) {
    && (forall s :: s in g <==> IsStorePackage(md, s))
    && (forall s, t {:trigger t in g[s]} | s in g ::
          t in g[s] <==> IsStorePackage(md, t) && RefersTo(md.snapshots[s], companions, t))
  }

  lemma UnionIsClosed(md: Lock, companions: map<string, string>, g: Graph<string>)
    requires IsUnionGraph(md, companions, g)
    ensures Closed(g)
  {
    hide IsStorePackage, RefersTo;
    forall v, k | v in g && 0 <= k < |g[v]|
      ensures g[v][k] in g
    {
      assert g[v][k] in g[v];
    }
  }

  method GroupTargets(group: References, nodes: set<string>, targets: set<string>) returns (r: set<string>)
    ensures forall t :: t in r <==> t in targets || (t in nodes && exists n :: n in group && group[n] == PackageRef(t))
  {
    r := targets;
    var names := SortedNames(group.Keys);
    for i := 0 to |names|
      invariant forall t :: t in r <==>
        t in targets || (t in nodes && exists j :: 0 <= j < i && names[j] in group && group[names[j]] == PackageRef(t))
    {
      assert names[i] in names;
      var reference := group[names[i]];
      if reference.PackageRef? && reference.snapshot in nodes {
        r := r + {reference.snapshot};
      }
    }
    forall t
      ensures t in r <==> t in targets || (t in nodes && exists n :: n in group && group[n] == PackageRef(t))
    {
      if n :| n in group && group[n] == PackageRef(t) {
        assert n in names;
      }
    }
  }

  method Successors(md: Lock, companions: map<string, string>, snapshot: Snapshot, nodes: set<string>)
    returns (successors: seq<string>)
    ensures forall t :: t in successors <==> t in nodes && RefersTo(snapshot, companions, t)
  {
    var targets := GroupTargets(snapshot.dependencies, nodes, {});
    targets := GroupTargets(snapshot.optionalDependencies, nodes, targets);
    var peers := PeerTypeCompanions(companions, snapshot);
    targets := GroupTargets(peers, nodes, targets);
    successors := SortedNames(targets);
  }

  method UnionGraph(md: Lock, companions: map<string, string>) returns (nodes: seq<string>, g: Graph<string>)
    ensures IsUnionGraph(md, companions, g) && Sorted(nodes) && forall s :: s in nodes <==> s in g
  {
    hide RefersTo, IsUnionGraph;
    var storeNodes := set s | s in md.snapshots && IsStorePackage(md, s);
    nodes := SortedNames(storeNodes);
    g := map[];
    for i := 0 to |nodes|
      invariant forall s :: s in g <==> s in nodes[..i]
      invariant forall s | s in g :: s in nodes
      invariant forall s, t | s in g :: t in g[s] <==> t in storeNodes && RefersTo(md.snapshots[s], companions, t)
    {
      assert nodes[i] in nodes;
      var successors := Successors(md, companions, md.snapshots[nodes[i]], storeNodes);
      assert nodes[..i + 1] == nodes[..i] + [nodes[i]];
      g := g[nodes[i] := successors];
    }
    assert nodes[..|nodes|] == nodes;
    assert forall s :: s in storeNodes <==> IsStorePackage(md, s);
    UnionIs(md, companions, storeNodes, g);
  }

  lemma UnionIs(md: Lock, companions: map<string, string>, nodes: set<string>, g: Graph<string>)
    requires forall s | s in g :: s in md.snapshots
    requires forall s :: s in nodes <==> IsStorePackage(md, s)
    requires forall s :: s in g <==> s in nodes
    requires forall s, t | s in g :: t in g[s] <==> t in nodes && RefersTo(md.snapshots[s], companions, t)
    ensures IsUnionGraph(md, companions, g)
  {
    hide RefersTo;
  }

  /** An entry edge of a group leads to the store key of a snapshot the group names and the platform admits. */
  lemma GroupEdgeTarget(c: Config, optional: bool, group: References, n: string) returns (t: string)
    requires n in GroupEdges(c, optional, group) && GroupEdges(c, optional, group)[n].EntryEdge?
    ensures n in group && group[n] == PackageRef(t) && IsStorePackage(c.md, t)
    ensures PackageAllowed(PackageOf(c.md, t), c.platform)
    ensures GroupEdges(c, optional, group)[n] == EntryEdge(c.md.snapshots[t].virtualStoreName)
  {
    t := group[n].snapshot;
  }

  /** Each platform's edges are union-graph edges to snapshots that platform admits. */
  lemma PlatformEdgeInUnion(c: Config, companions: map<string, string>, g: Graph<string>, s: string, n: string)
    returns (t: string)
    requires IsUnionGraph(c.md, companions, g) && s in g
    requires n in SnapshotEdgesOf(c, companions, c.md.snapshots[s])
    requires SnapshotEdgesOf(c, companions, c.md.snapshots[s])[n].EntryEdge?
    ensures Digraphs.Edge(g, s, t) && IsStorePackage(c.md, t) && PackageAllowed(PackageOf(c.md, t), c.platform)
    ensures SnapshotEdgesOf(c, companions, c.md.snapshots[s])[n] == EntryEdge(c.md.snapshots[t].virtualStoreName)
  {
    hide GroupEdges;
    var snapshot := c.md.snapshots[s];
    if n in GroupEdges(c, true, PeerTypeCompanionsOf(companions, snapshot)) {
      t := GroupEdgeTarget(c, true, PeerTypeCompanionsOf(companions, snapshot), n);
    } else if n in GroupEdges(c, true, snapshot.optionalDependencies) {
      t := GroupEdgeTarget(c, true, snapshot.optionalDependencies, n);
    } else {
      t := GroupEdgeTarget(c, false, snapshot.dependencies, n);
    }
    assert RefersTo(snapshot, companions, t);
  }

  lemma ImporterEdgeTarget(c: Config, importer: Importer, n: string) returns (t: string)
    requires n in ImporterEdgesOf(c, importer) && ImporterEdgesOf(c, importer)[n].EntryEdge?
    ensures IsStorePackage(c.md, t) && PackageAllowed(PackageOf(c.md, t), c.platform)
    ensures ImporterEdgesOf(c, importer)[n] == EntryEdge(c.md.snapshots[t].virtualStoreName)
  {
    hide GroupEdges;
    if n in GroupEdges(c, true, importer.optionalDependencies) {
      t := GroupEdgeTarget(c, true, importer.optionalDependencies, n);
    } else if n in GroupEdges(c, false, importer.devDependencies) {
      t := GroupEdgeTarget(c, false, importer.devDependencies, n);
    } else {
      t := GroupEdgeTarget(c, false, importer.dependencies, n);
    }
  }

  /** Every workspace edge carries the key of its own path. */
  ghost predicate WellKeyedEdges(workspaceKey: string -> string, edges: EdgeSet) {
    forall n | n in edges && edges[n].WorkspaceEdge? :: workspaceKey(edges[n].workspacePath) == edges[n].workspaceKey
  }

  lemma GroupWellKeyed(c: Config, optional: bool, group: References)
    ensures WellKeyedEdges(c.workspaceKey, GroupEdges(c, optional, group))
  {
  }

  lemma SnapshotWellKeyed(c: Config, companions: map<string, string>, s: Snapshot)
    ensures WellKeyedEdges(c.workspaceKey, SnapshotEdgesOf(c, companions, s))
  {
    hide GroupEdges;
    GroupWellKeyed(c, false, s.dependencies);
    GroupWellKeyed(c, true, s.optionalDependencies);
    GroupWellKeyed(c, true, PeerTypeCompanionsOf(companions, s));
  }

  lemma ImporterWellKeyed(c: Config, importer: Importer)
    ensures WellKeyedEdges(c.workspaceKey, ImporterEdgesOf(c, importer))
  {
    hide GroupEdges;
    GroupWellKeyed(c, false, importer.dependencies);
    GroupWellKeyed(c, false, importer.devDependencies);
    GroupWellKeyed(c, true, importer.optionalDependencies);
  }
}
